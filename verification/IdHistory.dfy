/** What the id list looks like over whole histories: the two shapes reachable from an empty list, the
    lowest free id, exact POST histories and the start-up scan. */
module IdHistory {
  import opened IdAllocator

  predicate Ascending(v: seq<int>) {
    forall i, j :: 0 <= i < j < |v| ==> v[i] < v[j]
  }

  predicate AtLeast(v: seq<int>, low: int) {
    forall i :: 0 <= i < |v| ==> v[i] >= low
  }

  /** Strictly increasing ids from 2 on, then a single 1. */
  predicate EndsWithOne(v: seq<int>) {
    v != [] && v[|v| - 1] == 1 && Ascending(v[..|v| - 1]) && AtLeast(v[..|v| - 1], 2)
  }

  predicate TwoShape(v: seq<int>) {
    (Ascending(v) && AtLeast(v, 1)) || EndsWithOne(v)
  }

  lemma TwoShapeIsSafe(v: seq<int>)
    requires TwoShape(v)
    ensures Distinct(v) && Layered(v)
  {
    if EndsWithOne(v) {
      var u := v[..|v| - 1];
      assert forall i :: 0 <= i < |u| ==> v[i] == u[i];
    }
  }

  lemma InsertAscending(u: seq<int>, k: nat, low: int)
    requires Ascending(u) && AtLeast(u, low) && 1 <= k <= |u| && (k < |u| ==> u[k] > u[k - 1] + 1)
    ensures Ascending(Insert(u, k, u[k - 1] + 1)) && AtLeast(Insert(u, k, u[k - 1] + 1), low)
  {
  }

  lemma RemoveAtAscending(u: seq<int>, p: nat, low: int)
    requires Ascending(u) && AtLeast(u, low) && p < |u|
    ensures Ascending(RemoveAt(u, p)) && AtLeast(RemoveAt(u, p), low)
  {
  }

  lemma PostAscending(v: seq<int>)
    requires |v| >= 2 && Ascending(v) && AtLeast(v, 1)
    ensures Ascending(Post(v)) && AtLeast(Post(v), 1)
  {
    var k := RunEnd(v, 1);
    assert k < |v| ==> v[k - 1] < v[k];
    InsertAscending(v, k, 1);
  }

  lemma PostEndsWithOne(v: seq<int>)
    requires |v| >= 2 && EndsWithOne(v)
    ensures EndsWithOne(Post(v)) && Post(v)[0] == v[0]
  {
    var u, k := v[..|v| - 1], RunEnd(v, 1);
    assert v[|v| - 2] == u[|u| - 1] >= 2;
    assert k <= |u| && v[k - 1] == u[k - 1];
    assert k < |u| ==> u[k - 1] < u[k] == v[k];
    InsertAscending(u, k, 2);
    assert Post(v) == Insert(u, k, v[k - 1] + 1) + [1];
    assert Post(v)[..|v|] == Insert(u, k, v[k - 1] + 1);
  }

  lemma PostOnOne()
    ensures Post([1]) == [2, 1] && EndsWithOne([2, 1])
  {
    assert [2, 1][..1] == [2];
  }

  lemma PostKeepsTwoShape(v: seq<int>)
    requires TwoShape(v)
    ensures TwoShape(Post(v))
  {
    if v == [1] {
      PostOnOne();
    } else if |v| >= 2 && EndsWithOne(v) {
      PostEndsWithOne(v);
    } else if |v| >= 2 {
      PostAscending(v);
    }
  }

  lemma RemoveKeepsTwoShape(v: seq<int>, id: int)
    requires TwoShape(v)
    ensures TwoShape(Remove(v, id))
  {
    TwoShapeIsSafe(v);
    if id in v {
      var p :| 0 <= p < |v| && v[p] == id;
      RemoveIsRemoveAt(v, p);
      if EndsWithOne(v) {
        RemoveAtEndsWithOne(v, p);
      } else {
        RemoveAtAscending(v, p, 1);
      }
    } else {
      RemoveAbsent(v, id);
    }
  }

  lemma RemoveAtEndsWithOne(v: seq<int>, p: nat)
    requires EndsWithOne(v) && p < |v|
    ensures p == |v| - 1 ==> Ascending(RemoveAt(v, p)) && AtLeast(RemoveAt(v, p), 2)
    ensures p < |v| - 1 ==> EndsWithOne(RemoveAt(v, p))
  {
    var u, w := v[..|v| - 1], RemoveAt(v, p);
    if p == |u| {
      assert w == u;
    } else {
      RemoveAtAscending(u, p, 2);
      assert w[..|w| - 1] == RemoveAt(u, p);
    }
  }

  // ----- the lowest free id

  predicate LeastFree(id: int, v: seq<int>) {
    id >= 1 && id !in v && forall x :: 1 <= x < id ==> x in v
  }

  /** On a reachable list POST issues the least free id exactly when the list has at most one entry,
      starts with 1, or starts with 2 and ends with 1. */
  lemma LeastFreeId(v: seq<int>)
    requires TwoShape(v)
    ensures LeastFree(NextId(v), v) <==> |v| <= 1 || v[0] == 1 || (v[0] == 2 && v[|v| - 1] == 1)
  {
    TwoShapeIsSafe(v);
    NextIsFresh(v);
    if |v| >= 2 {
      var k := RunEnd(v, 1);
      RunValues(v, k - 1);
      if v[0] == 1 || (v[0] == 2 && v[|v| - 1] == 1) {
        forall x | 1 <= x < NextId(v) ensures x in v {
          if x >= v[0] {
            RunValues(v, x - v[0]);
          }
        }
      } else if EndsWithOne(v) {
        assert 2 !in v by { TailAbove(v, 2); }
      } else {
        assert 1 !in v;
      }
    }
  }

  lemma TailAbove(v: seq<int>, x: int)
    requires |v| >= 2 && EndsWithOne(v) && 2 <= x < v[0]
    ensures x !in v
  {
    var u := v[..|v| - 1];
    assert u[0] == v[0];
    forall i | 0 <= i < |v| ensures v[i] != x {
      if i < |u| {
        assert u[i] == v[i];
      }
    }
  }

  predicate AlwaysLeast(v: seq<int>, ops: seq<Op>)
    decreases |ops|
  {
    ops == [] ||
    ((ops[0].PostOp? ==> LeastFree(NextId(v), v)) && AlwaysLeast(Apply(v, ops[0]), ops[1..]))
  }

  predicate DeletesFromThree(ops: seq<Op>) {
    forall op :: op in ops && op.DeleteOp? ==> op.id >= 3
  }

  /** The lists a run without DELETEs of 1 and 2 goes through. */
  predicate Compact(v: seq<int>) {
    v == [] || v == [1] || (|v| >= 2 && EndsWithOne(v) && v[0] == 2)
  }

  lemma StepKeepsCompact(v: seq<int>, op: Op)
    requires Compact(v) && (op.DeleteOp? ==> op.id >= 3)
    ensures Compact(Apply(v, op))
  {
    if op.DeleteOp? {
      RemoveKeepsCompact(v, op.id);
    } else if v == [1] {
      PostOnOne();
    } else if |v| >= 2 {
      PostEndsWithOne(v);
    }
  }

  lemma RemoveKeepsCompact(v: seq<int>, id: int)
    requires Compact(v) && id >= 3
    ensures Compact(Remove(v, id))
  {
    if id in v {
      TwoShapeIsSafe(v);
      var p :| 0 <= p < |v| && v[p] == id;
      RemoveIsRemoveAt(v, p);
      RemoveAtEndsWithOne(v, p);
    } else {
      RemoveAbsent(v, id);
    }
  }

  /** From an empty entity, as long as neither 1 nor 2 is deleted, every POST gets the least free id. */
  lemma {:induction false} LowestFreeIdRuns(v: seq<int>, ops: seq<Op>)
    requires Compact(v) && DeletesFromThree(ops)
    ensures AlwaysLeast(v, ops)
    decreases |ops|
  {
    if ops != [] {
      LeastFreeId(v);
      StepKeepsCompact(v, ops[0]);
      LowestFreeIdRuns(Apply(v, ops[0]), ops[1..]);
    }
  }

  // ----- consecutive POSTs

  function Posts(n: nat): seq<int> {
    if n == 0 then [] else Post(Posts(n - 1))
  }

  /** The list after n consecutive POSTs: 2, ..., n, 1. */
  function Filled(n: nat): seq<int> {
    if n == 0 then [] else Range(2, n - 1) + [1]
  }

  lemma InsertLast(n: nat)
    requires n >= 2
    ensures Insert(Filled(n), n - 1, n + 1) == Filled(n + 1)
  {
    var r := Range(2, n - 1);
    assert (r + [1])[..n - 1] == r && (r + [1])[n - 1..] == [1];
    assert r + [n + 1] == Range(2, n);
  }

  lemma NextOfFilled(n: nat)
    ensures NextId(Filled(n)) == n + 1 && Post(Filled(n)) == Filled(n + 1)
  {
    var v := Filled(n);
    if n >= 2 {
      RunEndIs(v, 1, n - 1);
      InsertLast(n);
    } else if n == 1 {
      assert v == [1];
      assert Post(v) == [2, 1];
    }
  }

  /** n POSTs to a fresh entity issue 1, ..., n in order and leave the list 2, ..., n, 1. */
  lemma {:induction false} PostHistory(n: nat)
    ensures Posts(n) == Filled(n) && NextId(Posts(n)) == n + 1
  {
    if n > 0 {
      PostHistory(n - 1);
      NextOfFilled(n - 1);
    }
    NextOfFilled(n);
  }

  lemma DropFromFilled(n: nat, p: nat)
    requires 1 <= p <= n - 2
    ensures
      var w := RemoveAt(Filled(n), p);
      RunEnd(w, 1) == p && w[p - 1] == p + 1 && Insert(w, p, p + 2) == Filled(n)
  {
    var w := RemoveAt(Filled(n), p);
    assert forall j :: 0 <= j < p ==> w[j] == 2 + j;
    assert w[p] == if p == n - 2 then 1 else p + 3;
    RunEndIs(w, 1, p);
    assert Insert(w, p, p + 2) == Filled(n);
  }

  /** Deleting any of 3, ..., n from that list and posting gives the id back and restores the list. */
  lemma DeleteThenPost(n: nat, i: int)
    requires 3 <= i <= n
    ensures NextId(Remove(Filled(n), i)) == i
    ensures Post(Remove(Filled(n), i)) == Filled(n)
  {
    var v, p := Filled(n), i - 2;
    assert Distinct(v) && v[p] == i;
    RemoveIsRemoveAt(v, p);
    DropFromFilled(n, p);
  }

  // ----- the scan of the files when a handler is created

  /** The list after the scan has visited one file. */
  function Visit(v: seq<int>, id: int): seq<int> {
    if id in v then v
    else if |v| == 0 then [id]
    else if |v| == 1 then (if v[0] < id then v + [id] else [id] + v)
    else Insert(v, RunEnd(v, 1), id)
  }

  function VisitAll(v: seq<int>, order: seq<int>): seq<int>
    decreases |order|
  {
    if order == [] then v else VisitAll(Visit(v, order[0]), order[1..])
  }

  lemma VisitAdds(v: seq<int>, id: int)
    requires Distinct(v)
    ensures Distinct(Visit(v, id))
    ensures forall x :: x in Visit(v, id) <==> x in v || x == id
  {
    if id !in v && |v| >= 2 {
      InsertDistinct(v, RunEnd(v, 1), id);
      InsertSet(v, RunEnd(v, 1), id);
    }
  }

  /** Whatever order the files come in, the scan leaves every old and every visited id, once. */
  lemma {:induction false} ScanAddsAll(v: seq<int>, order: seq<int>)
    requires Distinct(v)
    ensures Distinct(VisitAll(v, order))
    ensures forall x :: x in VisitAll(v, order) <==> x in v || x in order
    decreases |order|
  {
    if order != [] {
      VisitAdds(v, order[0]);
      ScanAddsAll(Visit(v, order[0]), order[1..]);
    }
  }

  /** A scan of files that are all listed already changes nothing. */
  lemma {:induction false} RescanIsIdle(v: seq<int>, order: seq<int>)
    requires forall x :: x in order ==> x in v
    ensures VisitAll(v, order) == v
    decreases |order|
  {
    if order != [] {
      assert order[0] in order;
      RescanIsIdle(v, order[1..]);
    }
  }

  lemma VisitNext(from: int, m: nat)
    ensures Visit(Range(from, m), from + m) == Range(from, m + 1)
  {
    var v := Range(from, m);
    if m >= 2 {
      RunEndIs(v, 1, m);
    }
    assert v + [from + m] == Range(from, m + 1);
    assert v[..m] == v && v[m..] == [];
  }

  lemma VisitAllStep(v: seq<int>, id: int, rest: seq<int>, w: seq<int>)
    requires Visit(v, id) == w
    ensures VisitAll(v, [id] + rest) == VisitAll(w, rest)
  {
    assert ([id] + rest)[1..] == rest;
  }

  lemma RangeStep(from: int, n: nat)
    ensures [from] + Range(from + 1, n) == Range(from, n + 1)
  {
  }

  lemma {:induction false} AscendingScanFrom(from: int, m: nat, left: nat)
    ensures VisitAll(Range(from, m), Range(from + m, left)) == Range(from, m + left)
    decreases left
  {
    if left == 0 {
      assert Range(from + m, 0) == [];
    } else {
      VisitNext(from, m);
      VisitAllStep(Range(from, m), from + m, Range(from + m + 1, left - 1), Range(from, m + 1));
      RangeStep(from + m, left - 1);
      AscendingScanFrom(from, m + 1, left - 1);
    }
  }

  /** Contiguous ids visited in ascending order give the sorted list, which is safe for ever. */
  lemma AscendingScan(from: int, n: nat)
    ensures VisitAll([], Range(from, n)) == Range(from, n)
    ensures forall ops :: NeverReuses(Range(from, n), ops)
  {
    AscendingScanFrom(from, 0, n);
    assert Range(from, 0) == [];
    FreshForever(Range(from, n));
  }
}
