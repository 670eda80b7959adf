/** The version numbers are accumulated in signed 32-bit integers. */
module HttpVersion {
  import opened Text
  import opened HttpParser
  import opened HttpGrammar

  const INT_MAX := 0x7fff_ffff

  /** Every intermediate value of n * 10 + c - '0' over the digits w is representable; the sum with the
      character code comes first. */
  predicate SumsFit(n: int, w: string)
    decreases |w|
  {
    w == "" ||
    (n * 10 <= INT_MAX && n * 10 + w[0] as int <= INT_MAX && SumsFit(Accumulate(n, w[0]), w[1..]))
  }

  lemma {:induction false} ValueGrows(a: string, w: string)
    requires AllDigits(a) && AllDigits(w)
    ensures AllDigits(a + w) && Value(a) <= Value(a + w)
    decreases |w|
  {
    if w == "" {
      assert a + w == a;
    } else {
      ValueAppend(a, w[0]);
      ValueGrows(a + [w[0]], w[1..]);
      assert a + [w[0]] + w[1..] == a + w;
    }
  }

  lemma {:induction false} SumsFitFrom(done: string, w: string)
    requires AllDigits(done) && AllDigits(w) && w != ""
    ensures AllDigits(done + w) && (SumsFit(Value(done), w) <==> Value(done + w) <= INT_MAX - '0' as int)
    decreases |w|
  {
    var next := done + [w[0]];
    ValueAppend(done, w[0]);
    ValueGrows(next, w[1..]);
    assert next + w[1..] == done + w;
    if |w| > 1 {
      SumsFitFrom(next, w[1..]);
    } else {
      assert w[1..] == "";
    }
  }

  /** The accumulated number is the decimal value of the digits, and the additions stay within int exactly
      when that value is at most INT_MAX less the code of '0'; nine digits always do. */
  lemma VersionArithmetic(w: string)
    requires IsVersion(w)
    ensures AccumulateAll(0, w) == Value(w)
    ensures SumsFit(0, w) <==> Value(w) <= 2147483599
    ensures |w| <= 9 ==> SumsFit(0, w)
  {
    assert "" + w == w && Value("") == 0;
    AccumulateIsValue("", w);
    SumsFitFrom("", w);
    if |w| <= 9 {
      ValueBound(w);
      PowerGrows(|w|, 9);
      assert Power(9) == 1000000000 by {
        assert Power(2) == 100;
        assert Power(4) == 10000;
        assert Power(6) == 1000000;
        assert Power(8) == 100000000;
      }
    }
  }
}
