/** The id list kept per entity: how POST picks an id, how DELETE and the start-up scan change the
    list, and exactly when no POST can ever reuse a live id. */
module IdAllocator {
  predicate Distinct(v: seq<int>) {
    forall i, j :: 0 <= i < j < |v| ==> v[i] != v[j]
  }

  /** Where the run of consecutive values that passes position i - 1 ends. */
  function RunEnd(v: seq<int>, i: nat): (k: nat)
    requires 1 <= i <= |v|
    ensures i <= k <= |v|
    ensures forall j :: i <= j < k ==> v[j] == v[j - 1] + 1
    ensures k < |v| ==> v[k] != v[k - 1] + 1
    decreases |v| - i
  {
    if i < |v| && v[i] == v[i - 1] + 1 then RunEnd(v, i + 1) else i
  }

  function NextId(v: seq<int>): int {
    if |v| == 0 then 1
    else if |v| == 1 then (if v[0] == 1 then 2 else 1)
    else v[RunEnd(v, 1) - 1] + 1
  }

  function Insert(v: seq<int>, p: nat, id: int): seq<int>
    requires p <= |v|
  {
    v[..p] + [id] + v[p..]
  }

  /** The list after POST: the new id goes to the end of the first run, or to the front of a list
      with fewer than two entries. */
  function Post(v: seq<int>): seq<int> {
    Insert(v, if |v| < 2 then 0 else RunEnd(v, 1), NextId(v))
  }

  function RemoveAt(v: seq<int>, p: nat): seq<int>
    requires p < |v|
  {
    v[..p] + v[p + 1..]
  }

  /** The list after DELETE: the first occurrence goes. */
  function Remove(v: seq<int>, id: int): seq<int> {
    if v == [] then []
    else if v[0] == id then v[1..]
    else [v[0]] + Remove(v[1..], id)
  }

  lemma {:induction false} RemoveFirst(v: seq<int>, p: nat)
    requires p < |v| && forall i :: 0 <= i < p ==> v[i] != v[p]
    ensures Remove(v, v[p]) == RemoveAt(v, p)
  {
    if p == 0 {
      assert RemoveAt(v, p) == v[1..];
    } else {
      var w := v[1..];
      assert w[p - 1] == v[p] && v[0] != v[p];
      RemoveFirst(w, p - 1);
      assert [v[0]] + RemoveAt(w, p - 1) == RemoveAt(v, p);
    }
  }

  lemma RemoveIsRemoveAt(v: seq<int>, p: nat)
    requires Distinct(v) && p < |v|
    ensures Remove(v, v[p]) == RemoveAt(v, p)
  {
    RemoveFirst(v, p);
  }

  lemma {:induction false} RemoveAbsent(v: seq<int>, id: int)
    requires id !in v
    ensures Remove(v, id) == v
  {
    if v != [] {
      RemoveAbsent(v[1..], id);
    }
  }

  // ----- the exact safety condition

  /** If the outer two of three entries increase, the middle one lies between them. */
  predicate InLayer(v: seq<int>, i: nat, j: nat, k: nat)
    requires i < j < k < |v|
  {
    v[i] < v[k] ==> v[i] < v[j] < v[k]
  }

  predicate Layered(v: seq<int>) {
    forall i: nat, j: nat, k: nat :: i < j < k < |v| ==> InLayer(v, i, j, k)
  }

  lemma {:induction false} RunValues(v: seq<int>, j: nat)
    requires v != [] && j < RunEnd(v, 1)
    ensures v[j] == v[0] + j
  {
    if j > 0 {
      RunValues(v, j - 1);
    }
  }

  lemma NextIsFresh(v: seq<int>)
    requires Distinct(v) && Layered(v)
    ensures NextId(v) !in v
  {
    if |v| >= 2 {
      var k := RunEnd(v, 1);
      forall m | 0 <= m < |v| ensures v[m] != NextId(v) {
        if m < k {
          RunValues(v, m);
          RunValues(v, k - 1);
        } else if m > k {
          assert InLayer(v, k - 1, k, m);
        }
      }
    }
  }

  lemma InsertDistinct(v: seq<int>, p: nat, id: int)
    requires Distinct(v) && p <= |v| && id !in v
    ensures Distinct(Insert(v, p, id))
  {
  }

  lemma InsertSet(v: seq<int>, p: nat, id: int)
    requires p <= |v|
    ensures forall x :: x in Insert(v, p, id) <==> x == id || x in v
  {
    var w := Insert(v, p, id);
    assert w[p] == id;
    forall x | x in v ensures x in w {
      var i :| 0 <= i < |v| && v[i] == x;
      assert w[if i < p then i else i + 1] == x;
    }
  }

  lemma RemoveAtSet(v: seq<int>, p: nat)
    requires Distinct(v) && p < |v|
    ensures Distinct(RemoveAt(v, p))
    ensures forall x :: x in RemoveAt(v, p) <==> x in v && x != v[p]
  {
    var w := RemoveAt(v, p);
    assert forall i :: 0 <= i < |w| ==> w[i] == if i < p then v[i] else v[i + 1];
    forall x | x in v && x != v[p] ensures x in w {
      var i :| 0 <= i < |v| && v[i] == x;
      assert w[if i < p then i else i - 1] == x;
    }
  }

  /** Extending a first run of length k by its fresh successor keeps the list layered. */
  lemma InsertLayeredAt(v: seq<int>, k: nat, a: nat, b: nat, c: nat)
    requires Layered(v) && 1 <= k <= |v| && v[k - 1] + 1 !in v
    requires forall j :: 0 <= j < k ==> v[j] == v[0] + j
    requires a < b < c <= |v|
    ensures InLayer(Insert(v, k, v[k - 1] + 1), a, b, c)
  {
    if a == k {
      assert InLayer(v, k - 1, b - 1, c - 1);
    } else if b == k {
      assert a < k - 1 ==> InLayer(v, a, k - 1, c - 1);
    } else if c != k {
      assert InLayer(v, if a < k then a else a - 1, if b < k then b else b - 1, if c < k then c else c - 1);
    }
  }

  lemma PostKeepsLayered(v: seq<int>)
    requires Distinct(v) && Layered(v)
    ensures Distinct(Post(v)) && Layered(Post(v))
  {
    NextIsFresh(v);
    InsertDistinct(v, if |v| < 2 then 0 else RunEnd(v, 1), NextId(v));
    if |v| >= 2 {
      var k := RunEnd(v, 1);
      forall j | 0 <= j < k ensures v[j] == v[0] + j {
        RunValues(v, j);
      }
      forall a: nat, b: nat, c: nat | a < b < c < |Post(v)| ensures InLayer(Post(v), a, b, c) {
        InsertLayeredAt(v, k, a, b, c);
      }
    }
  }

  lemma RemoveAtKeepsLayered(v: seq<int>, p: nat)
    requires Layered(v) && p < |v|
    ensures Layered(RemoveAt(v, p))
  {
    var w := RemoveAt(v, p);
    forall a: nat, b: nat, c: nat | a < b < c < |w| ensures InLayer(w, a, b, c) {
      assert InLayer(v, if a < p then a else a + 1, if b < p then b else b + 1, if c < p then c else c + 1);
    }
  }

  lemma RemoveKeepsLayered(v: seq<int>, id: int)
    requires Distinct(v) && Layered(v)
    ensures Distinct(Remove(v, id)) && Layered(Remove(v, id))
  {
    if id in v {
      var p :| 0 <= p < |v| && v[p] == id;
      RemoveIsRemoveAt(v, p);
      RemoveAtSet(v, p);
      RemoveAtKeepsLayered(v, p);
    } else {
      RemoveAbsent(v, id);
    }
  }

  datatype Op = PostOp | DeleteOp(id: int)

  function Apply(v: seq<int>, op: Op): seq<int> {
    match op
    case PostOp => Post(v)
    case DeleteOp(id) => Remove(v, id)
  }

  /** No POST of the run is given an id that is live at that moment. */
  predicate NeverReuses(v: seq<int>, ops: seq<Op>)
    decreases |ops|
  {
    ops == [] ||
    ((ops[0].PostOp? ==> NextId(v) !in v) && NeverReuses(Apply(v, ops[0]), ops[1..]))
  }

  lemma {:induction false} LayeredNeverReuses(v: seq<int>, ops: seq<Op>)
    requires Distinct(v) && Layered(v)
    ensures NeverReuses(v, ops)
    decreases |ops|
  {
    if ops != [] {
      if ops[0].PostOp? {
        NextIsFresh(v);
        PostKeepsLayered(v);
      } else {
        RemoveKeepsLayered(v, ops[0].id);
      }
      LayeredNeverReuses(Apply(v, ops[0]), ops[1..]);
    }
  }

  function Range(from: int, n: nat): (r: seq<int>)
    ensures |r| == n && forall i :: 0 <= i < n ==> r[i] == from + i
  {
    seq(n, i => from + i)
  }

  lemma {:induction false} RunEndIs(v: seq<int>, i: nat, k: nat)
    requires 1 <= i <= k <= |v|
    requires forall j :: i <= j < k ==> v[j] == v[j - 1] + 1
    requires k < |v| ==> v[k] != v[k - 1] + 1
    ensures RunEnd(v, i) == k
    decreases |v| - i
  {
    if i < k {
      RunEndIs(v, i + 1, k);
    }
  }

  lemma ReusesLater(v: seq<int>, op: Op, more: seq<Op>)
    requires !NeverReuses(Apply(v, op), more)
    ensures !NeverReuses(v, [op] + more)
  {
    assert ([op] + more)[1..] == more;
  }

  /** POST climbs from the first entry until it hits an entry that is out of place. */
  lemma {:induction false} Climb(v: seq<int>, first: int, n: nat, out: int, target: int) returns (ops: seq<Op>)
    requires n >= 1 && v == Range(first, n) + [out, target]
    requires first + n <= target && (out < first || out > target)
    ensures !NeverReuses(v, ops)
    decreases target - n - first
  {
    RunEndIs(v, 1, n);
    if first + n == target {
      assert v[n + 1] == target;
      ops := [PostOp];
    } else {
      assert Post(v) == Range(first, n + 1) + [out, target];
      var more := Climb(Post(v), first, n + 1, out, target);
      ops := [PostOp] + more;
      ReusesLater(v, PostOp, more);
    }
  }

  /** Dropping an entry other than the three keeps the offending triple. */
  lemma DropOther(v: seq<int>, i: nat, j: nat, k: nat) returns (p: nat, i': nat, j': nat, k': nat)
    requires i < j < k < |v| && |v| > 3 && !InLayer(v, i, j, k)
    ensures p < |v| && i' < j' < k' < |v| - 1 && !InLayer(RemoveAt(v, p), i', j', k')
  {
    if i > 0 {
      return 0, i - 1, j - 1, k - 1;
    } else if j > 1 {
      return 1, i, j - 1, k - 1;
    } else if k > 2 {
      return 2, i, j, k - 1;
    } else {
      return 3, i, j, k;
    }
  }

  lemma UnsafeTriple(v: seq<int>) returns (ops: seq<Op>)
    requires |v| == 3 && Distinct(v) && !InLayer(v, 0, 1, 2)
    ensures !NeverReuses(v, ops)
  {
    assert v[0] != v[1] && v[1] != v[2];
    assert v == Range(v[0], 1) + [v[1], v[2]];
    ops := Climb(v, v[0], 1, v[1], v[2]);
  }

  /** From a list that is not layered some run of DELETEs and POSTs reuses a live id. */
  lemma {:induction false} Unsafe(v: seq<int>, i: nat, j: nat, k: nat) returns (ops: seq<Op>)
    requires Distinct(v) && i < j < k < |v| && !InLayer(v, i, j, k)
    ensures !NeverReuses(v, ops)
    decreases |v|
  {
    if |v| == 3 {
      ops := UnsafeTriple(v);
    } else {
      var p, i', j', k' := DropOther(v, i, j, k);
      RemoveIsRemoveAt(v, p);
      RemoveAtSet(v, p);
      var more := Unsafe(RemoveAt(v, p), i', j', k');
      ops := [DeleteOp(v[p])] + more;
      ReusesLater(v, DeleteOp(v[p]), more);
    }
  }

  /** A duplicate-free list is safe in every future run of POSTs and DELETEs exactly when it is layered. */
  lemma FreshForever(v: seq<int>)
    requires Distinct(v)
    ensures Layered(v) <==> forall ops :: NeverReuses(v, ops)
  {
    if Layered(v) {
      forall ops ensures NeverReuses(v, ops) {
        LayeredNeverReuses(v, ops);
      }
    } else {
      var i: nat, j: nat, k: nat :| i < j < k < |v| && !InLayer(v, i, j, k);
      var ops := Unsafe(v, i, j, k);
    }
  }
}
