/** The store after a restart: the index is rebuilt from the files, and later POSTs may or may not overwrite. */
module ApiRestart {
  import opened Wrappers
  import opened Text
  import opened IdAllocator
  import opened IdHistory
  import opened IdRestart
  import opened ApiStore
  import opened ApiTargets
  import opened ApiRuns

  // ----- runs, from their first event

  lemma {:induction false} RunPrepend(start: Store, ev: Event, evs: seq<Event>)
    ensures Final(start, [ev] + evs) == Final(Step(start, ev).0, evs)
    ensures ValidRun(start, [ev] + evs) <==> Visits(ev.order, start.files) && ValidRun(Step(start, ev).0, evs)
    ensures evs != [] ==> Answer(start, [ev] + evs) == Answer(Step(start, ev).0, evs)
    decreases |evs|
  {
    if evs == [] {
      RunAppend(start, [], ev);
      assert [] + [ev] == [ev] + evs;
    } else {
      var front, last := evs[..|evs| - 1], evs[|evs| - 1];
      RunPrepend(start, ev, front);
      RunAppend(start, [ev] + front, last);
      RunAppend(Step(start, ev).0, front, last);
      assert evs == front + [last];
      Assoc([ev], front, [last]);
    }
  }

  lemma SomeOrder(files: Files) returns (order: seq<FileName>)
    ensures Visits(order, files)
  {
    order := SetAsSeq(set e, id | e in files && id in files[e] :: FileName(e, id));
  }

  // ----- a POST that overwrites a file

  predicate IsPost(r: Request, e: string) {
    r.verb == PostVerb && r.loggedIn && ParseTarget(r.target) == EntityTarget(e)
  }

  /** The run ends in a POST that is given the id of a file that exists. */
  predicate Overwrites(s: Store, evs: seq<Event>, ev: Event, e: string) {
    && ValidRun(s, evs + [ev]) && IsPost(ev.request, e)
    && var answer := Answer(s, evs + [ev]);
       answer.Created? && answer.id in Directory(Final(s, evs).files, e)
  }

  ghost predicate NeverOverwrites(s: Store) {
    forall evs, ev, e :: !Overwrites(s, evs, ev, e)
  }

  lemma LayeredNeverOverwrites(s: Store, evs: seq<Event>, ev: Event, e: string)
    requires Postable(e) ==> InvAt(s, e)
    ensures !Overwrites(s, evs, ev, e)
  {
    if Overwrites(s, evs, ev, e) {
      EntityIsPostable(ev.request.target);
      RunAppend(s, evs, ev);
      StoreRefinement(s, evs, e);
      PostIsFresh(s, evs, ev, e);
    }
  }

  /** The request performs a list operation on an entity. */
  predicate Performs(r: Request, e: string, op: Op) {
    && r.loggedIn
    && match op
       case PostOp => IsPost(r, e)
       case DeleteOp(id) => r.verb == DeleteVerb && ParseTarget(r.target) == FileTarget(e, Numeral(id))
  }

  lemma RequestFor(e: string, op: Op) returns (r: Request)
    requires Postable(e)
    ensures Performs(r, e, op)
  {
    match op
    case PostOp =>
      TargetOfEntity(e);
      r := Request(PostVerb, PREFIX + e, "", true);
    case DeleteOp(id) =>
      TargetOfFile(e, id);
      r := Request(DeleteVerb, PREFIX + (e + ("/" + Numeral(id))), "", true);
  }

  lemma PostPerforms(s: Store, ev: Event, e: string)
    requires Performs(ev.request, e, PostOp) && ListedAt(s, e) && Visits(ev.order, s.files)
    ensures
      var (after, answer) := Step(s, ev);
      var ids := IdList(s.index, e);
      && answer == Created(NextId(ids))
      && (NextId(ids) !in ids ==> ListedAt(after, e) && IdList(after.index, e) == Post(ids))
  {
    var ids := IdList(s.index, e);
    ScanAt(s, ev.order, e);
    if NextId(ids) !in ids {
      PostListed(ids, Directory(s.files, e), ev.request.body);
    }
  }

  lemma DeletePerforms(s: Store, ev: Event, e: string, id: int)
    requires Performs(ev.request, e, DeleteOp(id)) && ListedAt(s, e) && Visits(ev.order, s.files)
    ensures
      var after := Step(s, ev).0;
      ListedAt(after, e) && IdList(after.index, e) == Remove(IdList(s.index, e), id)
  {
    ScanAt(s, ev.order, e);
    DeleteOnList(Scanned(s, ev.order), e, id);
    assert Step(s, ev) == HandleDelete(Scanned(s, ev.order), e, Numeral(id));
  }

  lemma DeleteOnList(s: Store, e: string, id: int)
    requires ListedAt(s, e)
    ensures
      var after := HandleDelete(s, e, Numeral(id)).0;
      ListedAt(after, e) && IdList(after.index, e) == Remove(IdList(s.index, e), id)
  {
    var ids := IdList(s.index, e);
    ReadOfNumeral(id);
    if id in ids {
      RemoveListed(ids, Directory(s.files, e), id);
    } else {
      RemoveAbsent(ids, id);
    }
  }

  /** A run of list operations that reuses a live id is performed by requests. */
  lemma {:induction false} Perform(s: Store, e: string, ops: seq<Op>) returns (evs: seq<Event>, ev: Event)
    requires Postable(e) && ListedAt(s, e) && !NeverReuses(IdList(s.index, e), ops)
    ensures Overwrites(s, evs, ev, e)
    decreases |ops|
  {
    var order := SomeOrder(s.files);
    var r := RequestFor(e, ops[0]);
    var first := Event(order, r);
    var ids := IdList(s.index, e);
    if ops[0].PostOp? {
      PostPerforms(s, first, e);
    } else {
      DeletePerforms(s, first, e, ops[0].id);
    }
    if ops[0].PostOp? && NextId(ids) in ids {
      evs, ev := [], first;
      RunAppend(s, [], first);
      assert evs + [ev] == [] + [first];
    } else {
      var more;
      more, ev := Perform(Step(s, first).0, e, ops[1..]);
      evs := [first] + more;
      OverwritesLater(s, first, more, ev, e);
    }
  }

  lemma OverwritesLater(s: Store, first: Event, evs: seq<Event>, ev: Event, e: string)
    requires Visits(first.order, s.files) && Overwrites(Step(s, first).0, evs, ev, e)
    ensures Overwrites(s, [first] + evs, ev, e)
  {
    RunPrepend(s, first, evs);
    RunPrepend(s, first, evs + [ev]);
    Assoc([first], evs, [ev]);
  }

  /** Where lists and files agree, no POST of any run overwrites a file if and only if the list of every entity
      that can be posted to is layered. */
  lemma StoreSafety(s: Store)
    requires forall e :: Postable(e) ==> ListedAt(s, e)
    ensures NeverOverwrites(s) <==> forall e :: Postable(e) ==> Layered(IdList(s.index, e))
  {
    if forall e :: Postable(e) ==> Layered(IdList(s.index, e)) {
      forall evs, ev, e ensures !Overwrites(s, evs, ev, e) {
        LayeredNeverOverwrites(s, evs, ev, e);
      }
    } else {
      var e :| Postable(e) && !Layered(IdList(s.index, e));
      FreshForever(IdList(s.index, e));
      var ops :| !NeverReuses(IdList(s.index, e), ops);
      var evs, ev := Perform(s, e, ops);
    }
  }

  // ----- an emptied entity

  lemma FirstPost(e: string) returns (post: Event)
    requires Postable(e)
    ensures Performs(post.request, e, PostOp) && ValidRun(EMPTY, [post])
    ensures var s := Final(EMPTY, [post]); ListedAt(s, e) && IdList(s.index, e) == [1]
    ensures Known(EMPTY, [post], e)
  {
    var r := RequestFor(e, PostOp);
    post := Event([], r);
    PostPerforms(EMPTY, post, e);
    assert [] + [post] == [post];
    RunAppend(EMPTY, [], post);
  }

  lemma KnownStays(start: Store, evs: seq<Event>, ev: Event, e: string)
    requires Known(start, evs, e)
    ensures Known(start, evs + [ev], e)
  {
    assert (evs + [ev])[..|evs|] == evs;
  }

  /** From an empty store, POST e and DELETE e/1 leave an empty list of an entity that is known. */
  lemma PostThenDelete(e: string) returns (post: Event, delete: Event)
    requires Postable(e)
    ensures Performs(post.request, e, PostOp) && Performs(delete.request, e, DeleteOp(1))
    ensures ValidRun(EMPTY, [post] + [delete]) && Known(EMPTY, [post] + [delete], e)
    ensures IdList(Final(EMPTY, [post] + [delete]).index, e) == []
  {
    post := FirstPost(e);
    var s := Final(EMPTY, [post]);
    var order := SomeOrder(s.files);
    var r := RequestFor(e, DeleteOp(1));
    delete := Event(order, r);
    DeletePerforms(s, delete, e, 1);
    RemoveFirst([1], 0);
    RunAppend(EMPTY, [post], delete);
    KnownStays(EMPTY, [post], delete, e);
  }

  /** The run POST e, DELETE e/1, LIST e answers a lone bracket. */
  lemma EmptiedListIsBroken(e: string) returns (evs: seq<Event>, list: Event)
    requires Postable(e)
    ensures |evs| == 2 && Performs(evs[0].request, e, PostOp) && Performs(evs[1].request, e, DeleteOp(1))
    ensures list.request == Request(GetVerb, PREFIX + e, "", false)
    ensures ValidRun(EMPTY, evs + [list]) && Answer(EMPTY, evs + [list]) == Ok("]")
  {
    var post, delete := PostThenDelete(e);
    evs := [post] + [delete];
    var s := Final(EMPTY, evs);
    var order := SomeOrder(s.files);
    list := Event(order, Request(GetVerb, PREFIX + e, "", false));
    RunAppend(EMPTY, evs, list);
    TargetOfEntity(e);
    ListAnswersHistory(EMPTY, evs, list, e);
    StoreRefinement(EMPTY, evs, e);
    forall id ensures LastBody(EMPTY, evs, e, id) == None {
      assert id !in IdList(s.index, e);
      assert Lookup(s.files, e, id) == LastBody(EMPTY, evs, e, id);
    }
  }

  // ----- the restart

  /** Files without an index. */
  function Restarted(files: Files): Store {
    Store(map[], files)
  }

  lemma ScannedIsListed(files: Files, order: seq<FileName>, e: string)
    requires Visits(order, files)
    ensures ListedAt(Scanned(Restarted(files), order), e)
    ensures IdList(Scan(map[], order), e) == VisitAll([], IdsOf(order, e))
    ensures Orders(IdsOf(order, e), Directory(files, e).Keys)
  {
    ScanByEntity(map[], order, e);
    ScanAddsAll([], IdsOf(order, e));
    IdsOfOrder(order, e);
  }

  /** After a first scan in a given order no POST of any later run overwrites a file if and only if that scan left
      the list of every entity that can be posted to layered. */
  lemma ScannedSafety(files: Files, order: seq<FileName>)
    requires Visits(order, files)
    ensures NeverOverwrites(Scanned(Restarted(files), order)) <==>
            forall e :: Postable(e) ==> Layered(VisitAll([], IdsOf(order, e)))
  {
    forall e ensures ListedAt(Scanned(Restarted(files), order), e)
                  && IdList(Scan(map[], order), e) == VisitAll([], IdsOf(order, e)) {
      ScannedIsListed(files, order, e);
    }
    StoreSafety(Scanned(Restarted(files), order));
  }

  /** A run after a restart is a run from the store that its first scan leaves. */
  lemma FirstScanDecides(files: Files, first: Event, evs: seq<Event>)
    requires Visits(first.order, files)
    ensures
      var s, t := Restarted(files), Scanned(Restarted(files), first.order);
      && Final(t, [first] + evs) == Final(s, [first] + evs)
      && Answer(t, [first] + evs) == Answer(s, [first] + evs)
      && (ValidRun(t, [first] + evs) <==> ValidRun(s, [first] + evs))
  {
    var s, t := Restarted(files), Scanned(Restarted(files), first.order);
    forall e ensures IdList(Scan(t.index, first.order), e) == IdList(t.index, e)
                  && (e in Scan(t.index, first.order) <==> e in t.index) {
      ScannedIsListed(files, first.order, e);
      ScanAt(t, first.order, e);
    }
    SameIndex(Scan(t.index, first.order), t.index);
    assert Step(t, first) == Step(s, first);
    RunPrepend(s, first, evs);
    RunPrepend(t, first, evs);
    if evs == [] {
      assert [first] + evs == [] + [first];
      RunAppend(s, [], first);
      RunAppend(t, [], first);
    }
  }

  lemma OverwriteAfterScan(files: Files, evs: seq<Event>, ev: Event, e: string) returns (order: seq<FileName>)
    requires Overwrites(Restarted(files), evs, ev, e)
    ensures Visits(order, files) && Overwrites(Scanned(Restarted(files), order), evs, ev, e)
  {
    var all := evs + [ev];
    var first := all[0];
    assert all == [first] + all[1..];
    RunPrepend(Restarted(files), first, all[1..]);
    order := first.order;
    FirstScanDecides(files, first, all[1..]);
    if evs != [] {
      assert evs == [first] + evs[1..];
      FirstScanDecides(files, first, evs[1..]);
    }
  }

  lemma OverwriteBeforeScan(files: Files, order: seq<FileName>, evs: seq<Event>, ev: Event, e: string)
    returns (longer: seq<Event>)
    requires Visits(order, files) && Overwrites(Scanned(Restarted(files), order), evs, ev, e)
    ensures Overwrites(Restarted(files), longer, ev, e)
  {
    var idle := Event(order, Request(OtherVerb, "", "", false));
    assert Step(Restarted(files), idle).0 == Scanned(Restarted(files), order);
    OverwritesLater(Restarted(files), idle, evs, ev, e);
    longer := [idle] + evs;
  }

  function Tag(e: string, ids: seq<int>): (order: seq<FileName>)
    ensures |order| == |ids| && forall i :: 0 <= i < |ids| ==> order[i] == FileName(e, ids[i])
  {
    seq(|ids|, i requires 0 <= i < |ids| => FileName(e, ids[i]))
  }

  lemma {:induction false} NoIdsOf(e: string, others: seq<FileName>)
    requires forall f :: f in others ==> f.entity != e
    ensures IdsOf(others, e) == []
  {
    if others != [] {
      assert others[0] in others;
      NoIdsOf(e, others[1..]);
    }
  }

  lemma IdsOfCons(f: FileName, order: seq<FileName>)
    ensures IdsOf([f] + order, f.entity) == [f.id] + IdsOf(order, f.entity)
  {
    assert ([f] + order)[1..] == order;
  }

  lemma {:induction false} IdsOfTag(e: string, ids: seq<int>, others: seq<FileName>)
    requires forall f :: f in others ==> f.entity != e
    ensures IdsOf(Tag(e, ids) + others, e) == ids
    decreases |ids|
  {
    if ids == [] {
      assert Tag(e, ids) + others == others;
      NoIdsOf(e, others);
    } else {
      var f, rest := FileName(e, ids[0]), Tag(e, ids[1..]);
      IdsOfTag(e, ids[1..], others);
      assert Tag(e, ids) == [f] + rest;
      Assoc([f], rest, others);
      IdsOfCons(f, rest + others);
      assert [ids[0]] + ids[1..] == ids;
    }
  }

  /** Any order of one entity's files is part of an order of all files. */
  lemma ExtendOrder(files: Files, e: string, ids: seq<int>) returns (order: seq<FileName>)
    requires Orders(ids, Directory(files, e).Keys)
    ensures Visits(order, files) && IdsOf(order, e) == ids
  {
    var others := SetAsSeq(set d, id | d in files && id in files[d] && d != e :: FileName(d, id));
    IdsOfTag(e, ids, others);
    order := Tag(e, ids) + others;
    forall d, id | d in files && id in files[d] ensures FileName(d, id) in order {
      if d == e {
        var i :| 0 <= i < |ids| && ids[i] == id;
        assert order[i] == FileName(d, id);
      }
    }
    forall f | f in order ensures f.id in Directory(files, f.entity) {
      if f in Tag(e, ids) {
        var i :| 0 <= i < |ids| && Tag(e, ids)[i] == f;
        assert ids[i] in ids;
      }
    }
  }

  /** After a restart no POST of any run overwrites a file, in whatever order the files are met, if and only if
      every entity that can be posted to has at most two files, or three with consecutive ids. */
  lemma RestartSafety(files: Files)
    ensures NeverOverwrites(Restarted(files)) <==> forall e :: Postable(e) ==> FewFiles(Directory(files, e).Keys)
  {
    if forall e :: Postable(e) ==> FewFiles(Directory(files, e).Keys) {
      forall evs, ev, e ensures !Overwrites(Restarted(files), evs, ev, e) {
        if Overwrites(Restarted(files), evs, ev, e) {
          var order := OverwriteAfterScan(files, evs, ev, e);
          SafeInOrder(files, order);
        }
      }
    } else {
      var e :| Postable(e) && !FewFiles(Directory(files, e).Keys);
      var ids := BadOrder(Directory(files, e).Keys);
      var order := ExtendOrder(files, e, ids);
      ScannedSafety(files, order);
      var evs, ev, x :| Overwrites(Scanned(Restarted(files), order), evs, ev, x);
      var longer := OverwriteBeforeScan(files, order, evs, ev, x);
    }
  }

  lemma SafeInOrder(files: Files, order: seq<FileName>)
    requires Visits(order, files) && forall e :: Postable(e) ==> FewFiles(Directory(files, e).Keys)
    ensures NeverOverwrites(Scanned(Restarted(files), order))
  {
    forall e | Postable(e) ensures Layered(VisitAll([], IdsOf(order, e))) {
      ScannedIsListed(files, order, e);
      FewFilesAreSafe(Directory(files, e).Keys, IdsOf(order, e));
    }
    ScannedSafety(files, order);
  }
}
