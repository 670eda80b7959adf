/** Which id POST issues and where POST and the scan put an id, described by the run of consecutive values that
    opens the list. */
module IdPlaces {
  import opened IdAllocator
  import opened IdHistory
  import opened ApiStore

  /** The first k entries count up by one from v[0], and the entry after them does not go on. */
  predicate IsFirstRun(v: seq<int>, k: nat) {
    && 1 <= k <= |v| && (forall j :: 0 <= j < k ==> v[j] == v[0] + j)
    && (k < |v| ==> v[k] != v[0] + k)
  }

  /** w is v with id in front of position k. */
  predicate PlacedAt(v: seq<int>, k: nat, id: int, w: seq<int>) {
    && k <= |v| && |w| == |v| + 1 && w[k] == id
    && (forall j :: 0 <= j < k ==> w[j] == v[j])
    && (forall j :: k <= j < |v| ==> w[j + 1] == v[j])
  }

  ghost predicate PlacedAfterRun(v: seq<int>, id: int, w: seq<int>) {
    exists k: nat :: IsFirstRun(v, k) && PlacedAt(v, k, id, w)
  }

  lemma FirstRunIs(v: seq<int>, k: nat)
    ensures IsFirstRun(v, k) <==> v != [] && k == RunEnd(v, 1)
  {
    if v != [] {
      forall j | 0 <= j < RunEnd(v, 1) ensures v[j] == v[0] + j {
        RunValues(v, j);
      }
      if IsFirstRun(v, k) {
        RunEndIs(v, 1, k);
      }
    }
  }

  lemma InsertPlaces(v: seq<int>, k: nat, id: int, w: seq<int>)
    requires k <= |v|
    ensures PlacedAt(v, k, id, w) <==> w == Insert(v, k, id)
  {
    var u := Insert(v, k, id);
    assert PlacedAt(v, k, id, u);
    if PlacedAt(v, k, id, w) {
      forall j | 0 <= j < |u| ensures w[j] == u[j] {
        if j > k {
          assert w[(j - 1) + 1] == v[j - 1];
        }
      }
    }
  }

  lemma AfterRunIs(v: seq<int>, id: int, w: seq<int>)
    requires v != []
    ensures PlacedAfterRun(v, id, w) <==> w == Insert(v, RunEnd(v, 1), id)
  {
    FirstRunIs(v, RunEnd(v, 1));
    InsertPlaces(v, RunEnd(v, 1), id, w);
    if PlacedAfterRun(v, id, w) {
      var k: nat :| IsFirstRun(v, k) && PlacedAt(v, k, id, w);
      FirstRunIs(v, k);
    }
  }

  // ----- POST

  /** With two entries or more the id is one more than the end of the first run; otherwise it is 1, or 2 where 1 is
      the only entry. */
  ghost predicate IsIssued(v: seq<int>, id: int) {
    if |v| <= 1 then id == if v == [1] then 2 else 1
    else exists k: nat :: IsFirstRun(v, k) && id == v[0] + k
  }

  ghost predicate IsPosted(v: seq<int>, id: int, w: seq<int>) {
    IsIssued(v, id) && if |v| <= 1 then w == [id] + v else PlacedAfterRun(v, id, w)
  }

  lemma IssuedIs(v: seq<int>, id: int)
    ensures IsIssued(v, id) <==> id == NextId(v)
  {
    if |v| >= 2 {
      var end := RunEnd(v, 1);
      FirstRunIs(v, end);
      RunValues(v, end - 1);
      if IsIssued(v, id) {
        var k: nat :| IsFirstRun(v, k) && id == v[0] + k;
        FirstRunIs(v, k);
      }
    } else if |v| == 1 {
      assert v == [v[0]];
    }
  }

  /** The id POST issues and the list it leaves, on any list whatever. */
  lemma PostedIs(v: seq<int>, id: int, w: seq<int>)
    ensures IsPosted(v, id, w) <==> id == NextId(v) && w == Post(v)
  {
    IssuedIs(v, id);
    if |v| >= 2 {
      AfterRunIs(v, id, w);
    } else {
      assert Insert(v, 0, id) == [id] + v;
    }
  }

  // ----- the scan

  /** A new id follows the first run, or joins a single entry in increasing order. */
  ghost predicate IsVisited(v: seq<int>, id: int, w: seq<int>) {
    if exists i :: 0 <= i < |v| && v[i] == id then w == v
    else if v == [] then w == [id]
    else if |v| == 1 then |w| == 2 && w[0] < w[1] && v[0] in w && id in w
    else PlacedAfterRun(v, id, w)
  }

  /** What the scan does with one id, on any list whatever. */
  lemma VisitedIs(v: seq<int>, id: int, w: seq<int>)
    ensures IsVisited(v, id, w) <==> w == Visit(v, id)
  {
    if id !in v && v != [] {
      if |v| == 1 {
        PairIs(v[0], id, w);
        assert v == [v[0]];
      } else {
        AfterRunIs(v, id, w);
      }
    }
  }

  lemma PairIs(x: int, y: int, w: seq<int>)
    requires x != y
    ensures |w| == 2 && w[0] < w[1] && x in w && y in w <==> w == if x < y then [x, y] else [y, x]
  {
    if |w| == 2 {
      assert w == [w[0], w[1]];
    }
  }

  /** One file changes the list of its entity, as described above, and nothing else. */
  ghost predicate IsScanned(index: Index, f: FileName, next: Index) {
    && f.entity in next && IsVisited(IdList(index, f.entity), f.id, next[f.entity])
    && (forall e :: e != f.entity ==> (e in next <==> e in index))
    && (forall e :: e != f.entity && e in index && e in next ==> next[e] == index[e])
  }

  lemma ScannedIs(index: Index, f: FileName, next: Index)
    ensures IsScanned(index, f, next) <==> next == ScanFile(index, f)
  {
    var w := Visit(IdList(index, f.entity), f.id);
    VisitedIs(IdList(index, f.entity), f.id, w);
    if IsScanned(index, f, next) {
      VisitedIs(IdList(index, f.entity), f.id, next[f.entity]);
      assert next.Keys == index.Keys + {f.entity};
      assert next == ScanFile(index, f);
    }
  }

  /** The indexes that a scan goes through, one per file. */
  ghost predicate IsTrace(trace: seq<Index>, order: seq<FileName>) {
    && |trace| == |order| + 1
    && forall i :: 0 <= i < |order| ==> IsScanned(trace[i], order[i], trace[i + 1])
  }

  lemma {:induction false} TraceExists(index: Index, order: seq<FileName>) returns (trace: seq<Index>)
    ensures IsTrace(trace, order) && trace[0] == index && trace[|order|] == Scan(index, order)
    decreases |order|
  {
    if order == [] {
      trace := [index];
    } else {
      var next := ScanFile(index, order[0]);
      var more := TraceExists(next, order[1..]);
      trace := [index] + more;
      ScannedIs(index, order[0], next);
      TracePrepend(index, order, more);
    }
  }

  lemma TracePrepend(index: Index, order: seq<FileName>, more: seq<Index>)
    requires order != [] && IsTrace(more, order[1..]) && IsScanned(index, order[0], more[0])
    ensures IsTrace([index] + more, order) && ([index] + more)[|order|] == more[|order| - 1]
  {
    var trace := [index] + more;
    forall i | 0 <= i < |order| ensures IsScanned(trace[i], order[i], trace[i + 1]) {
      if i > 0 {
        assert IsScanned(more[i - 1], order[1..][i - 1], more[i]);
      }
    }
  }

  lemma {:induction false} TraceEnds(trace: seq<Index>, order: seq<FileName>)
    requires IsTrace(trace, order)
    ensures trace[|order|] == Scan(trace[0], order)
    decreases |order|
  {
    if order != [] {
      ScannedIs(trace[0], order[0], trace[1]);
      var t, o := trace[1..], order[1..];
      forall i | 0 <= i < |o| ensures IsScanned(t[i], o[i], t[i + 1]) {
        assert IsScanned(trace[i + 1], order[i + 1], trace[i + 2]);
      }
      TraceEnds(t, o);
    }
  }

  /** The scan of any files, in any order, from any index, leaves exactly what the steps described above lead to. */
  lemma ScanIsStepwise(index: Index, order: seq<FileName>, after: Index)
    ensures after == Scan(index, order) <==>
            exists trace :: IsTrace(trace, order) && trace[0] == index && trace[|order|] == after
  {
    var t := TraceExists(index, order);
    if trace :| IsTrace(trace, order) && trace[0] == index && trace[|order|] == after {
      TraceEnds(trace, order);
    }
  }
}
