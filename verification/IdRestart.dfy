/** The id list that the first scan after a restart builds from the files alone. */
module IdRestart {
  import opened Wrappers
  import opened IdAllocator
  import opened IdHistory

  /** After a restart the order of the files decides: the list is duplicate-free whatever the order,
      and no later POST overwrites a file exactly when the scanned list is layered. */
  lemma ScanSafety(order: seq<int>)
    ensures Distinct(VisitAll([], order))
    ensures Layered(VisitAll([], order)) <==> forall ops :: NeverReuses(VisitAll([], order), ops)
  {
    ScanAddsAll([], order);
    FreshForever(VisitAll([], order));
  }

  /** Files 1 to 4 met in the order 4, 2, 1, 3: the very next POST is given the live id 4. */
  lemma RestartCanOverwrite()
    ensures VisitAll([], [4, 2, 1, 3]) == [2, 3, 1, 4]
    ensures NextId([2, 3, 1, 4]) == 4
  {
    VisitAllStep([], 4, [2, 1, 3], [4]);
    VisitAllStep([4], 2, [1, 3], [2, 4]);
    VisitAllStep([2, 4], 1, [3], [2, 1, 4]);
    VisitAllStep([2, 1, 4], 3, [], [2, 3, 1, 4]);
    assert [4, 2, 1, 3] == [4] + [2, 1, 3] && [2, 1, 3] == [2] + [1, 3] && [1, 3] == [1] + [3] && [3] == [3] + [];
  }

  // ----- which sets of files are safe in every order

  ghost predicate Orders(order: seq<int>, ids: set<int>) {
    forall x :: x in order <==> x in ids
  }

  ghost predicate IsTriple(ids: set<int>, a: int) {
    ids == {a, a + 1, a + 2}
  }

  /** At most two files, or three with consecutive ids. */
  ghost predicate FewFiles(ids: set<int>) {
    |ids| <= 2 || exists a :: IsTriple(ids, a)
  }

  lemma {:induction false} DistinctSize(v: seq<int>, ids: set<int>)
    requires Distinct(v) && Orders(v, ids)
    ensures |v| == |ids|
  {
    if v == [] {
      if ids != {} {
        var x := Pick(ids);
      }
    } else {
      var rest := v[1..];
      assert v[0] in v && v[0] !in rest;
      forall x ensures x in rest <==> x in ids - {v[0]} {
        assert x in v <==> x == v[0] || x in rest;
      }
      DistinctSize(rest, ids - {v[0]});
    }
  }

  /** The lists the scan goes through over three consecutive ids. */
  predicate WithinTriple(v: seq<int>, a: int) {
    && Distinct(v) && (forall i :: 0 <= i < |v| ==> a <= v[i] <= a + 2)
    && (|v| == 2 ==> v[0] < v[1]) && (|v| == 3 ==> InLayer(v, 0, 1, 2)) && |v| <= 3
  }

  lemma VisitWithinTriple(v: seq<int>, a: int, id: int)
    requires WithinTriple(v, a) && a <= id <= a + 2
    ensures WithinTriple(Visit(v, id), a)
  {
    if id !in v {
      if |v| == 0 {
        assert Visit(v, id) == [id];
      } else if |v| == 1 {
        assert v == [v[0]];
        SecondOfTriple(v[0], id, a);
      } else if |v| == 2 {
        assert v == [v[0], v[1]];
        ThirdOfTriple(v[0], v[1], id, a);
      } else {
        assert v[0] != v[1] && v[0] != v[2] && v[1] != v[2];
      }
    }
  }

  lemma SecondOfTriple(x: int, z: int, a: int)
    requires a <= x <= a + 2 && a <= z <= a + 2 && z != x
    ensures WithinTriple(Visit([x], z), a)
  {
  }

  lemma ThirdOfTriple(x: int, y: int, z: int, a: int)
    requires a <= x < y <= a + 2 && a <= z <= a + 2 && z != x && z != y
    ensures WithinTriple(Visit([x, y], z), a)
  {
    VisitPair(x, y, z);
  }

  lemma VisitPair(x: int, y: int, z: int)
    requires x < y && z != x && z != y
    ensures Visit([x, y], z) == if y == x + 1 then [x, y, z] else [x, z, y]
  {
    RunEndIs([x, y], 1, if y == x + 1 then 2 else 1);
  }

  lemma {:induction false} ScanWithinTriple(v: seq<int>, a: int, order: seq<int>)
    requires WithinTriple(v, a) && forall i :: 0 <= i < |order| ==> a <= order[i] <= a + 2
    ensures Layered(VisitAll(v, order))
    decreases |order|
  {
    if order == [] {
      forall i: nat, j: nat, k: nat | i < j < k < |v| ensures InLayer(v, i, j, k) {
        assert i == 0 && j == 1 && k == 2;
      }
    } else {
      VisitWithinTriple(v, a, order[0]);
      ScanWithinTriple(Visit(v, order[0]), a, order[1..]);
    }
  }

  lemma FewFilesAreSafe(ids: set<int>, order: seq<int>)
    requires FewFiles(ids) && Orders(order, ids)
    ensures Layered(VisitAll([], order))
  {
    if |ids| <= 2 {
      ScanAddsAll([], order);
      DistinctSize(VisitAll([], order), ids);
    } else {
      var a :| IsTriple(ids, a);
      forall i | 0 <= i < |order| ensures a <= order[i] <= a + 2 {
        assert order[i] in order;
      }
      ScanWithinTriple([], a, order);
    }
  }

  /** What the scan inserts does not mend a list that is not layered. */
  lemma {:induction false} UnlayeredStays(v: seq<int>, order: seq<int>)
    requires !Layered(v)
    ensures !Layered(VisitAll(v, order))
    decreases |order|
  {
    if order != [] {
      var id := order[0];
      if id !in v && |v| >= 2 {
        var p := RunEnd(v, 1);
        assert RemoveAt(Insert(v, p, id), p) == v;
        if Layered(Insert(v, p, id)) {
          RemoveAtKeepsLayered(Insert(v, p, id), p);
        }
      }
      UnlayeredStays(Visit(v, id), order[1..]);
    }
  }

  lemma {:induction false} VisitAllConcat(v: seq<int>, a: seq<int>, b: seq<int>)
    ensures VisitAll(v, a + b) == VisitAll(VisitAll(v, a), b)
    decreases |a|
  {
    if a == [] {
      assert a + b == b;
    } else {
      assert (a + b)[1..] == a[1..] + b;
      VisitAllConcat(Visit(v, a[0]), a[1..], b);
    }
  }

  lemma VisitThree(x: int, y: int, z: int)
    requires x < y && z != x && z != y
    ensures VisitAll([], [x, y, z]) == if y == x + 1 then [x, y, z] else [x, z, y]
  {
    VisitAllStep([], x, [y, z], [x]);
    VisitAllStep([x], y, [z], [x, y]);
    assert [x, y, z] == [x] + [y, z] && [y, z] == [y] + [z];
    VisitPair(x, y, z);
    VisitOne([x, y], z);
  }

  lemma VisitOne(v: seq<int>, id: int)
    ensures VisitAll(v, [id]) == Visit(v, id)
  {
    assert [id][1..] == [];
  }

  /** Three ids with a gap between them can be met in an order that leaves them unlayered. */
  lemma BadThree(x: int, y: int, z: int) returns (order: seq<int>)
    requires x < y < z && !(y == x + 1 && z == y + 1)
    ensures forall i :: i in order ==> i == x || i == y || i == z
    ensures !Layered(VisitAll([], order))
  {
    if y != x + 1 {
      order := [x, y, z];
      VisitThree(x, y, z);
      assert !InLayer([x, z, y], 0, 1, 2);
    } else {
      order := [y, z, x];
      VisitThree(y, z, x);
      assert !InLayer([y, x, z], 0, 1, 2);
    }
  }

  lemma PickThree(ids: set<int>) returns (x: int, y: int, z: int)
    requires |ids| >= 3
    ensures x in ids && y in ids && z in ids && x < y < z
  {
    var p := Pick(ids);
    assert |ids - {p}| >= 2;
    var q := Pick(ids - {p});
    assert |ids - {p} - {q}| >= 1;
    var r := Pick(ids - {p} - {q});
    if p < q < r { return p, q, r; } else if p < r < q { return p, r, q; }
    if q < p < r { return q, p, r; } else if q < r < p { return q, r, p; }
    if r < p < q { return r, p, q; } else { return r, q, p; }
  }

  /** Among other sets of files there are three ids with a gap. */
  lemma PickGap(ids: set<int>) returns (x: int, y: int, z: int)
    requires !FewFiles(ids)
    ensures x in ids && y in ids && z in ids && x < y < z && !(y == x + 1 && z == y + 1)
  {
    x, y, z := PickThree(ids);
    if y == x + 1 && z == y + 1 {
      var triple := {x, x + 1, x + 2};
      assert !IsTriple(ids, x) && triple <= ids;
      assert ids - triple != {};
      var w := Pick(ids - triple);
      if w < x {
        x := w;
      } else {
        z := w;
      }
    }
  }

  lemma BadOrder(ids: set<int>) returns (order: seq<int>)
    requires !FewFiles(ids)
    ensures Orders(order, ids) && !Layered(VisitAll([], order))
  {
    var x, y, z := PickGap(ids);
    var first := BadThree(x, y, z);
    var rest := SetAsSeq(ids);
    order := first + rest;
    VisitAllConcat([], first, rest);
    UnlayeredStays(VisitAll([], first), rest);
  }

  /** Every order in which a restart may meet the files of an entity gives a list that is safe in all later
      runs if and only if the entity has at most two files, or three with consecutive ids. */
  lemma AnyOrderIsSafe(ids: set<int>)
    ensures (forall order :: Orders(order, ids) ==> Layered(VisitAll([], order))) <==> FewFiles(ids)
  {
    if FewFiles(ids) {
      forall order | Orders(order, ids) ensures Layered(VisitAll([], order)) {
        FewFilesAreSafe(ids, order);
      }
    } else {
      var order := BadOrder(ids);
    }
  }
}
