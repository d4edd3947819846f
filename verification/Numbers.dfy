/** Floating-point inputs: a real value, or an infinity or NaN, which every reader here refuses. */
module Numbers {
  datatype Number = Finite(value: real) | NonFinite

  predicate AllFinite(s: seq<Number>) { forall i :: 0 <= i < |s| ==> s[i].Finite? }

  function Values(s: seq<Number>): seq<real>
    requires AllFinite(s)
  {
    seq(|s|, i requires 0 <= i < |s| => s[i].value)
  }

  method ReadFinite(s: seq<Number>) returns (ok: bool, values: seq<real>)
    ensures ok <==> AllFinite(s)
    ensures ok ==> values == Values(s)
  {
    values := [];
    for i := 0 to |s|
      invariant AllFinite(s[..i]) && values == Values(s[..i])
    {
      if s[i].NonFinite? { return false, []; }
      values := values + [s[i].value];
    }
    assert s[..|s|] == s;
    ok := true;
  }
}
