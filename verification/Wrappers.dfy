module Wrappers {
  datatype Option<+T> = None | Some(value: T)

  lemma Pick<T>(s: set<T>) returns (x: T)
    requires s != {}
    ensures x in s
  {
    x :| x in s;
  }

  lemma SetAsSeq<T(!new)>(s: set<T>) returns (v: seq<T>)
    ensures forall x :: x in v <==> x in s
    decreases |s|
  {
    if s == {} {
      v := [];
    } else {
      var x :| x in s;
      var rest := SetAsSeq(s - {x});
      v := [x] + rest;
    }
  }

  lemma Assoc<T>(a: seq<T>, b: seq<T>, c: seq<T>)
    ensures a + b + c == a + (b + c)
  {
  }
}
