/** Decimal digits: the text of a number and the number of a text. */
module Digits {
  import opened Ascii

  type Code = c: int | 0 <= c < 256

  predicate AllDigits(s: seq<int>) {
    forall i | 0 <= i < |s| :: IsDigit(s[i])
  }

  /** The digits of `n`, most significant first, without leading zeros. */
  function OfNat(n: nat): (s: seq<Code>)
    ensures s != [] && AllDigits(s)
    ensures s[0] == 0x30 ==> s == [0x30]
    ensures n > 0 ==> s[0] != 0x30
  {
    if n < 10 then [0x30 + n] else OfNat(n / 10) + [0x30 + n % 10]
  }

  /** The number `s` is the digits of; leading zeros do not matter. */
  function Value(s: seq<int>): nat
    requires AllDigits(s)
  {
    if s == [] then 0 else Value(s[..|s| - 1]) * 10 + (s[|s| - 1] - 0x30)
  }

  lemma {:induction false} ValueOfNat(n: nat)
    ensures Value(OfNat(n)) == n
  {
    if n < 10 {
      assert Value([]) == 0;
      assert OfNat(n)[..0] == [];
    } else {
      var s := OfNat(n);
      assert s[..|s| - 1] == OfNat(n / 10);
      ValueOfNat(n / 10);
    }
  }

  /** Digits without a leading zero are the digits of their value. */
  lemma {:induction false} OfNatValue(s: seq<Code>)
    requires s != [] && AllDigits(s)
    requires s[0] == 0x30 ==> |s| == 1
    ensures OfNat(Value(s)) == s
  {
    var k := |s| - 1;
    var v := Value(s[..k]);
    assert Value(s) == v * 10 + (s[k] - 0x30);
    if k == 0 {
      assert s[..k] == [];
    } else {
      OfNatValue(s[..k]);
      assert OfNat(0) == [0x30] && OfNat(v) == s[..k];
      assert s == s[..k] + [s[k]];
    }
  }

  lemma OfNatInjective(m: nat, n: nat)
    requires OfNat(m) == OfNat(n)
    ensures m == n
  {
    ValueOfNat(m);
    ValueOfNat(n);
  }

  /** Appending a digit. */
  lemma ValueAppend(s: seq<int>, d: int)
    requires AllDigits(s) && IsDigit(d)
    ensures AllDigits(s + [d]) && Value(s + [d]) == Value(s) * 10 + (d - 0x30)
  {
    assert (s + [d])[..|s|] == s;
  }
}
