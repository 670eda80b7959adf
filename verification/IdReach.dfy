/** The two shapes are exactly the id lists that POSTs and DELETEs reach from an empty list. */
module IdReach {
  import opened Wrappers
  import opened IdAllocator
  import opened IdHistory

  function ApplyAll(v: seq<int>, ops: seq<Op>): seq<int>
    decreases |ops|
  {
    if ops == [] then v else ApplyAll(Apply(v, ops[0]), ops[1..])
  }

  lemma {:induction false} ApplyAllConcat(v: seq<int>, a: seq<Op>, b: seq<Op>)
    ensures ApplyAll(v, a + b) == ApplyAll(ApplyAll(v, a), b)
    decreases |a|
  {
    if a == [] {
      assert a + b == b;
    } else {
      assert (a + b)[1..] == a[1..] + b;
      ApplyAllConcat(Apply(v, a[0]), a[1..], b);
    }
  }

  lemma ApplyFirst(v: seq<int>, op: Op, ops: seq<Op>)
    ensures ApplyAll(v, [op] + ops) == ApplyAll(Apply(v, op), ops)
  {
    assert ([op] + ops)[1..] == ops;
  }

  lemma {:induction false} ReachedIsTwoShape(v: seq<int>, ops: seq<Op>)
    requires TwoShape(v)
    ensures TwoShape(ApplyAll(v, ops))
    decreases |ops|
  {
    if ops != [] {
      match ops[0] {
        case PostOp => PostKeepsTwoShape(v);
        case DeleteOp(id) => RemoveKeepsTwoShape(v, id);
      }
      ReachedIsTwoShape(Apply(v, ops[0]), ops[1..]);
    }
  }

  // ----- deleting down to a part of a list

  /** The entries of v that occur in keep. */
  function Kept(v: seq<int>, keep: seq<int>): seq<int> {
    if v == [] then [] else (if v[0] in keep then [v[0]] else []) + Kept(v[1..], keep)
  }

  lemma {:induction false} KeptAll(v: seq<int>, keep: seq<int>)
    requires forall i :: 0 <= i < |v| ==> v[i] in keep
    ensures Kept(v, keep) == v
  {
    if v != [] {
      KeptAll(v[1..], keep);
    }
  }

  lemma {:induction false} KeptSkips(v: seq<int>, keep: seq<int>, p: nat)
    requires p < |v| && v[p] !in keep
    ensures Kept(RemoveAt(v, p), keep) == Kept(v, keep)
    decreases |v|
  {
    var w := RemoveAt(v, p);
    if p == 0 {
      assert w == v[1..];
    } else {
      KeptSkips(v[1..], keep, p - 1);
      assert w[0] == v[0] && w[1..] == RemoveAt(v[1..], p - 1);
    }
  }

  lemma {:induction false} DeleteDown(v: seq<int>, keep: seq<int>) returns (ops: seq<Op>)
    requires Distinct(v)
    ensures ApplyAll(v, ops) == Kept(v, keep)
    decreases |v|
  {
    if p :| 0 <= p < |v| && v[p] !in keep {
      RemoveIsRemoveAt(v, p);
      RemoveAtSet(v, p);
      KeptSkips(v, keep, p);
      var more := DeleteDown(RemoveAt(v, p), keep);
      ops := [DeleteOp(v[p])] + more;
      ApplyFirst(v, DeleteOp(v[p]), more);
    } else {
      KeptAll(v, keep);
      ops := [];
    }
  }

  lemma {:induction false} KeptAppend(a: seq<int>, b: seq<int>, keep: seq<int>)
    ensures Kept(a + b, keep) == Kept(a, keep) + Kept(b, keep)
  {
    if a == [] {
      assert a + b == b;
    } else {
      KeptAppend(a[1..], b, keep);
      assert (a + b)[1..] == a[1..] + b && (a + b)[0] == a[0];
      Assoc(if a[0] in keep then [a[0]] else [], Kept(a[1..], keep), Kept(b, keep));
    }
  }

  /** An increasing list is what it leaves of any range around it. */
  lemma {:induction false} KeptRange(from: int, n: nat, v: seq<int>, keep: seq<int>)
    requires Ascending(v) && forall i :: 0 <= i < |v| ==> from <= v[i] < from + n
    requires forall x :: from <= x < from + n ==> (x in keep <==> x in v)
    ensures Kept(Range(from, n), keep) == v
    decreases n
  {
    if n > 0 {
      var r := Range(from, n);
      assert r[0] == from && r[1..] == Range(from + 1, n - 1);
      if from in v {
        assert v[0] == from by {
          var i :| 0 <= i < |v| && v[i] == from;
        }
        KeptRange(from + 1, n - 1, v[1..], keep);
        assert v == [from] + v[1..];
      } else {
        KeptRange(from + 1, n - 1, v, keep);
      }
    }
  }

  // ----- the lists to delete from

  function PostOps(n: nat): seq<Op> {
    seq(n, _ => PostOp)
  }

  lemma {:induction false} ReachFilled(n: nat)
    ensures ApplyAll([], PostOps(n)) == Filled(n)
  {
    if n > 0 {
      ReachFilled(n - 1);
      assert PostOps(n) == PostOps(n - 1) + [PostOp];
      ApplyAllConcat([], PostOps(n - 1), [PostOp]);
      NextOfFilled(n - 1);
      ApplyFirst(Filled(n - 1), PostOp, []);
      assert [PostOp] + [] == [PostOp];
    }
  }

  lemma PostOnRange(n: nat)
    requires n >= 2
    ensures Post(Range(1, n)) == Range(1, n + 1)
  {
    var v := Range(1, n);
    RunEndIs(v, 1, n);
    assert v[..n] == v && v[n..] == [];
    assert v + [n + 1] == Range(1, n + 1);
  }

  /** POST, POST, DELETE 1, POST turns the list round: 1, 2. */
  lemma {:induction false} ReachRange(n: nat) returns (ops: seq<Op>)
    requires n >= 2
    ensures ApplyAll([], ops) == Range(1, n)
    decreases n
  {
    if n == 2 {
      ops := [PostOp, PostOp, DeleteOp(1), PostOp];
      ReachFilled(2);
      ApplyAllConcat([], PostOps(2), [DeleteOp(1), PostOp]);
      assert ops == PostOps(2) + [DeleteOp(1), PostOp];
      assert Filled(2) == [2, 1];
      assert Remove([2, 1], 1) == [2] by { RemoveFirst([2, 1], 1); }
      assert Post([2]) == [1, 2];
      ApplyFirst([2, 1], DeleteOp(1), [PostOp]);
      ApplyFirst([2], PostOp, []);
      assert [DeleteOp(1), PostOp] == [DeleteOp(1)] + [PostOp] && [PostOp] == [PostOp] + [];
    } else {
      var less := ReachRange(n - 1);
      ops := less + [PostOp];
      ApplyAllConcat([], less, [PostOp]);
      PostOnRange(n - 1);
      ApplyFirst(Range(1, n - 1), PostOp, []);
      assert [PostOp] + [] == [PostOp];
    }
  }

  lemma ReachFrom(base: seq<int>, v: seq<int>, ops: seq<Op>) returns (all: seq<Op>)
    requires ApplyAll([], ops) == base && Distinct(base) && Kept(base, v) == v
    ensures ApplyAll([], all) == v
  {
    var more := DeleteDown(base, v);
    all := ops + more;
    ApplyAllConcat([], ops, more);
  }

  lemma ReachAscending(v: seq<int>) returns (ops: seq<Op>)
    requires Ascending(v) && AtLeast(v, 1)
    ensures ApplyAll([], ops) == v
  {
    if v == [] {
      ops := [];
    } else {
      var n := if v[|v| - 1] < 2 then 2 else v[|v| - 1];
      var base := ReachRange(n);
      KeptRange(1, n, v, v);
      ops := ReachFrom(Range(1, n), v, base);
    }
  }

  lemma KeptOne(keep: seq<int>)
    requires 1 in keep
    ensures Kept([1], keep) == [1]
  {
    assert [1][1..] == [];
  }

  lemma KeptFilled(u: seq<int>, n: nat)
    requires n >= 1 && Ascending(u) && forall i :: 0 <= i < |u| ==> 2 <= u[i] <= n
    ensures Kept(Filled(n), u + [1]) == u + [1]
  {
    var v := u + [1];
    assert v[|u|] == 1;
    KeptRange(2, n - 1, u, v);
    KeptAppend(Range(2, n - 1), [1], v);
    KeptOne(v);
  }

  lemma DistinctFilled(n: nat)
    ensures Distinct(Filled(n))
  {
  }

  lemma ReachWithin(u: seq<int>, n: nat) returns (ops: seq<Op>)
    requires n >= 1 && Ascending(u) && forall i :: 0 <= i < |u| ==> 2 <= u[i] <= n
    ensures ApplyAll([], ops) == u + [1]
  {
    ReachFilled(n);
    KeptFilled(u, n);
    DistinctFilled(n);
    ops := ReachFrom(Filled(n), u + [1], PostOps(n));
  }

  lemma ReachEndsWithOne(u: seq<int>) returns (ops: seq<Op>)
    requires Ascending(u) && AtLeast(u, 2)
    ensures ApplyAll([], ops) == u + [1]
  {
    ops := ReachWithin(u, if u == [] then 1 else u[|u| - 1]);
  }

  /** A list is reached from an empty one by some POSTs and DELETEs if and only if it has one of the two shapes. */
  lemma ReachableLists(v: seq<int>)
    ensures TwoShape(v) <==> exists ops :: ApplyAll([], ops) == v
  {
    if TwoShape(v) {
      if EndsWithOne(v) {
        var ops := ReachEndsWithOne(v[..|v| - 1]);
        assert v == v[..|v| - 1] + [1];
      } else {
        var ops := ReachAscending(v);
      }
    }
    if ops :| ApplyAll([], ops) == v {
      ReachedIsTwoShape([], ops);
    }
  }

  /** Three POSTs and a DELETE of 1 reach 2, 3; the next POST gets 4 although 1 is free. */
  lemma LowestIdCanBeMissed()
    ensures ApplyAll([], PostOps(3) + [DeleteOp(1)]) == [2, 3]
    ensures NextId([2, 3]) == 4 && !LeastFree(4, [2, 3])
  {
    ReachFilled(3);
    ApplyAllConcat([], PostOps(3), [DeleteOp(1)]);
    assert Filled(3) == [2, 3, 1];
    RemoveFirst([2, 3, 1], 2);
    ApplyFirst([2, 3, 1], DeleteOp(1), []);
    assert [DeleteOp(1)] + [] == [DeleteOp(1)];
    RunEndIs([2, 3], 1, 2);
    assert 1 !in [2, 3];
  }
}
