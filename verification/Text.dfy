/** Decimal numerals and splitting at a separator character. */
module Text {
  import opened Wrappers

  predicate IsDigit(c: char) {
    '0' <= c <= '9'
  }

  predicate AllDigits(s: string) {
    forall i :: 0 <= i < |s| ==> IsDigit(s[i])
  }

  function DigitOf(d: nat): char
    requires d < 10
  {
    '0' + d as char
  }

  function Value(s: string): nat
    requires AllDigits(s)
  {
    if s == "" then 0 else Value(s[..|s| - 1]) * 10 + (s[|s| - 1] - '0') as nat
  }

  /** The numeral that std::to_string writes for a number that is not negative. */
  function Digits(n: nat): (s: string)
    ensures s != "" && AllDigits(s)
  {
    if n < 10 then [DigitOf(n)] else Digits(n / 10) + [DigitOf(n % 10)]
  }

  /** Decimal notation: the digits of the number of tens, then the unit. */
  lemma DecimalNotation(tens: nat, unit: nat)
    requires unit < 10
    ensures Digits(10 * tens + unit) == (if tens == 0 then "" else Digits(tens)) + ["0123456789"[unit]]
  {
    assert (10 * tens + unit) / 10 == tens && (10 * tens + unit) % 10 == unit;
    assert "0123456789"[unit] == DigitOf(unit);
  }

  lemma {:induction false} ValueOfDigits(n: nat)
    ensures Value(Digits(n)) == n
  {
    var s := Digits(n);
    if n < 10 {
      assert s[..0] == "";
    } else {
      ValueOfDigits(n / 10);
      assert s[..|s| - 1] == Digits(n / 10);
    }
  }

  /** The numeral std::to_string writes for any number, and its reader. */
  function Numeral(i: int): (s: string)
    ensures s != ""
  {
    if i < 0 then "-" + Digits(-i) else Digits(i)
  }

  predicate IsDigits(s: string) {
    AllDigits(s) && s == Digits(Value(s))
  }

  /** The number that a numeral stands for; None for any other text. */
  function ReadNumeral(s: string): (r: Option<int>)
    ensures r.Some? ==> s == Numeral(r.value)
  {
    if IsDigits(s) then Some(Value(s))
    else if s != "" && s[0] == '-' && IsDigits(s[1..]) && Value(s[1..]) > 0 then Some(-(Value(s[1..]) as int))
    else None
  }

  lemma ReadOfNumeral(i: int)
    ensures ReadNumeral(Numeral(i)) == Some(i)
  {
    var s := Numeral(i);
    if i < 0 {
      ValueOfDigits(-i);
      assert s[1..] == Digits(-i);
      assert !IsDigit(s[0]);
    } else {
      ValueOfDigits(i);
    }
  }

  lemma NumeralIsPlain(i: int)
    ensures forall c :: c in Numeral(i) ==> IsDigit(c) || c == '-'
  {
  }

  lemma ValueAppend(s: string, c: char)
    requires AllDigits(s) && IsDigit(c)
    ensures AllDigits(s + [c]) && Value(s + [c]) == Value(s) * 10 + (c - '0') as nat
  {
    assert (s + [c])[..|s|] == s;
  }

  function Power(n: nat): nat {
    if n == 0 then 1 else 10 * Power(n - 1)
  }

  lemma {:induction false} ValueBound(w: string)
    requires AllDigits(w)
    ensures Value(w) < Power(|w|)
  {
    if w != "" {
      ValueBound(w[..|w| - 1]);
    }
  }

  lemma {:induction false} PowerGrows(m: nat, n: nat)
    requires m <= n
    ensures Power(m) <= Power(n)
  {
    if m < n {
      PowerGrows(m, n - 1);
    }
  }

  lemma {:induction false} DigitsLength(n: nat, m: nat)
    requires m >= 1 && n < Power(m)
    ensures |Digits(n)| <= m
    decreases n
  {
    assert Power(1) == 10 * Power(0);
    if n >= 10 {
      DigitsLength(n / 10, m - 1);
    }
  }

  /** The position of the first c at or after from, or the length of s. */
  function Find(s: string, c: char, from: nat): (r: nat)
    requires from <= |s|
    ensures from <= r <= |s|
    ensures r < |s| ==> s[r] == c
    ensures forall i :: from <= i < r ==> s[i] != c
    decreases |s| - from
  {
    if from == |s| || s[from] == c then from else Find(s, c, from + 1)
  }

  lemma {:induction false} FindIs(s: string, c: char, from: nat, r: nat)
    requires from <= r <= |s| && (r < |s| ==> s[r] == c) && forall i :: from <= i < r ==> s[i] != c
    ensures Find(s, c, from) == r
    decreases r - from
  {
    if from < r {
      FindIs(s, c, from + 1, r);
    }
  }

  /** The position of the last c. */
  function FindLast(s: string, c: char): (r: Option<nat>)
    ensures r == None ==> forall i :: 0 <= i < |s| ==> s[i] != c
    ensures r.Some? ==> r.value < |s| && s[r.value] == c && forall i :: r.value < i < |s| ==> s[i] != c
  {
    if s == "" then None
    else if s[|s| - 1] == c then Some(|s| - 1)
    else FindLast(s[..|s| - 1], c)
  }

  /** All fields of s, from position from on. */
  function SplitFrom(s: string, sep: char, from: nat): (fields: seq<string>)
    requires from <= |s|
    ensures fields != []
    decreases |s| - from
  {
    var end := Find(s, sep, from);
    if end == |s| then [s[from..]] else [s[from..end]] + SplitFrom(s, sep, end + 1)
  }

  function Split(s: string, sep: char): seq<string> {
    SplitFrom(s, sep, 0)
  }

  lemma {:induction false} FindShift(a: string, s: string, c: char, from: nat)
    requires from <= |s|
    ensures Find(a + s, c, |a| + from) == |a| + Find(s, c, from)
    decreases |s| - from
  {
    if from < |s| && s[from] != c {
      FindShift(a, s, c, from + 1);
    }
  }

  lemma SliceShift(a: string, s: string, from: nat, end: nat)
    requires from <= end <= |s|
    ensures (a + s)[|a| + from..] == s[from..] && (a + s)[|a| + from..|a| + end] == s[from..end]
  {
  }

  lemma {:induction false} SplitShift(a: string, s: string, sep: char, from: nat)
    requires from <= |s|
    ensures SplitFrom(a + s, sep, |a| + from) == SplitFrom(s, sep, from)
    decreases |s| - from
  {
    var end := Find(s, sep, from);
    assert Find(a + s, sep, |a| + from) == |a| + end by { FindShift(a, s, sep, from); }
    SliceShift(a, s, from, end);
    if end < |s| {
      assert |a| + end + 1 == |a| + (end + 1);
      SplitShift(a, s, sep, end + 1);
    }
  }

  /** A field without the separator, the separator, and the rest. */
  lemma SplitFirst(field: string, sep: char, rest: string)
    requires sep !in field
    ensures Split(field + [sep] + rest, sep) == [field] + Split(rest, sep)
  {
    var s := field + [sep] + rest;
    FindIs(s, sep, 0, |field|);
    assert s[0..|field|] == field;
    SplitShift(field + [sep], rest, sep, 0);
  }

  lemma SplitSingle(field: string, sep: char)
    requires sep !in field
    ensures Split(field, sep) == [field]
  {
    FindIs(field, sep, 0, |field|);
    assert field[0..] == field;
  }

  // ----- splitting undoes joining

  function Join(fields: seq<string>, sep: char): string {
    if fields == [] then ""
    else if |fields| == 1 then fields[0]
    else fields[0] + [sep] + Join(fields[1..], sep)
  }

  predicate Free(fields: seq<string>, sep: char) {
    forall i :: 0 <= i < |fields| ==> sep !in fields[i]
  }

  lemma {:induction false} SplitOfJoin(fields: seq<string>, sep: char)
    requires fields != [] && Free(fields, sep)
    ensures Split(Join(fields, sep), sep) == fields
    decreases |fields|
  {
    if |fields| == 1 {
      SplitSingle(fields[0], sep);
    } else {
      SplitFirst(fields[0], sep, Join(fields[1..], sep));
      SplitOfJoin(fields[1..], sep);
    }
  }

  lemma {:induction false} JoinOfSplit(s: string, sep: char, from: nat)
    requires from <= |s|
    ensures Free(SplitFrom(s, sep, from), sep) && Join(SplitFrom(s, sep, from), sep) == s[from..]
    decreases |s| - from
  {
    var end, fields := Find(s, sep, from), SplitFrom(s, sep, from);
    if end < |s| {
      JoinOfSplit(s, sep, end + 1);
      assert fields[1..] == SplitFrom(s, sep, end + 1);
      assert s[from..] == s[from..end] + [sep] + s[end + 1..];
    }
  }

  /** The fields of a text are the only ones without a separator that join up to it. */
  lemma SplitIs(s: string, sep: char, fields: seq<string>)
    ensures fields == Split(s, sep) <==> fields != [] && Free(fields, sep) && Join(fields, sep) == s
  {
    JoinOfSplit(s, sep, 0);
    assert s[0..] == s;
    if fields != [] && Free(fields, sep) && Join(fields, sep) == s {
      SplitOfJoin(fields, sep);
    }
  }

  lemma {:induction false} JoinSnoc(fields: seq<string>, last: string, sep: char)
    requires fields != []
    ensures Join(fields + [last], sep) == Join(fields, sep) + ([sep] + last)
    decreases |fields|
  {
    var all := fields + [last];
    if |fields| == 1 {
      assert all[1..] == [last];
    } else {
      assert all[1..] == fields[1..] + [last];
      JoinSnoc(fields[1..], last, sep);
      Assoc(fields[0] + [sep], Join(fields[1..], sep), [sep] + last);
    }
  }

  /** The fields that the server's '|' splitters collect: one trailing empty field is dropped. */
  function Fields(data: string): seq<string> {
    var fields := Split(data, '|');
    if fields[|fields| - 1] == "" then fields[..|fields| - 1] else fields
  }

  lemma FieldsEnd(data: string, info: seq<string>, last: string)
    requires Split(data, '|') == info + [last]
    ensures Fields(data) == if last == "" then info else info + [last]
  {
    assert (info + [last])[..|info|] == info;
  }

  /** What the splitters collect joins up to the text, less one '|' at its end; an empty text has no field. */
  predicate AreFields(data: string, fields: seq<string>) {
    && Free(fields, '|')
    && if data == "" then fields == []
       else fields != [] && data == Join(fields, '|') + if data[|data| - 1] == '|' then "|" else ""
  }

  /** The last field is empty just for an empty text and for one that ends with '|'. */
  lemma SplitEnd(data: string)
    ensures
      var fields := Split(data, '|');
      && (fields[|fields| - 1] == "" <==> data == "" || data[|data| - 1] == '|')
      && (data == "" ==> fields == [""])
      && (|fields| > 1 && fields[|fields| - 1] == "" ==> data == Join(fields[..|fields| - 1], '|') + "|")
  {
    var fields := Split(data, '|');
    SplitIs(data, '|', fields);
    var front, last := fields[..|fields| - 1], fields[|fields| - 1];
    assert fields == front + [last];
    if front == [] {
      assert data == last;
    } else {
      JoinSnoc(front, last, '|');
      assert last != "" ==> data[|data| - 1] == last[|last| - 1];
    }
    if data == "" {
      SplitSingle("", '|');
    }
  }

  lemma FieldsIs(data: string, fields: seq<string>)
    ensures fields == Fields(data) <==> AreFields(data, fields)
  {
    SplitEnd(data);
    SplitIs(data, '|', Split(data, '|'));
    if AreFields(data, fields) && data != "" {
      if data[|data| - 1] == '|' {
        JoinSnoc(fields, "", '|');
        SplitIs(data, '|', fields + [""]);
        FieldsEnd(data, fields, "");
      } else {
        assert Join(fields, '|') + "" == Join(fields, '|');
        SplitIs(data, '|', fields);
      }
    }
  }

  lemma SplitGoesOn(data: string, info: seq<string>, begin: nat)
    requires begin <= |data| && Find(data, '|', begin) < |data|
    requires Split(data, '|') == info + SplitFrom(data, '|', begin)
    ensures
      var end := Find(data, '|', begin);
      Split(data, '|') == info + [data[begin..end]] + SplitFrom(data, '|', end + 1)
  {
    var end := Find(data, '|', begin);
    Assoc(info, [data[begin..end]], SplitFrom(data, '|', end + 1));
  }

  lemma SplitStops(data: string, info: seq<string>, begin: nat)
    requires begin <= |data| && Find(data, '|', begin) == |data|
    requires Split(data, '|') == info + SplitFrom(data, '|', begin)
    ensures Fields(data) == if begin < |data| then info + [data[begin..]] else info
  {
    FieldsEnd(data, info, data[begin..]);
  }

  /** The splitter loop, written three times in the server. */
  method SplitBars(data: string) returns (info: seq<string>)
    ensures info == Fields(data)
  {
    info := [];
    var begin := 0;
    var end := Find(data, '|', begin);
    assert info + SplitFrom(data, '|', begin) == SplitFrom(data, '|', begin);
    while end != |data|
      invariant 0 <= begin <= |data| && end == Find(data, '|', begin)
      invariant Split(data, '|') == info + SplitFrom(data, '|', begin)
      decreases |data| - begin
    {
      SplitGoesOn(data, info, begin);
      info := info + [data[begin..end]];
      begin := end + 1;
      end := Find(data, '|', begin);
    }
    SplitStops(data, info, begin);
    if begin < |data| {
      info := info + [data[begin..]];
    }
  }
}
