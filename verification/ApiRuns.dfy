/** Whole runs of the CRUD store: index and files together behave as one map from entity and id to body. */
module ApiRuns {
  import opened Wrappers
  import opened Text
  import opened IdAllocator
  import opened IdHistory
  import opened ApiStore

  /** The id list names exactly the files of its directory, once each. */
  ghost predicate Listed(ids: seq<int>, dir: map<int, string>) {
    Distinct(ids) && forall x :: x in ids <==> x in dir
  }

  ghost predicate ListedAt(s: Store, e: string) {
    Listed(IdList(s.index, e), Directory(s.files, e))
  }

  /** It is also safe for ever. */
  ghost predicate InvAt(s: Store, e: string) {
    ListedAt(s, e) && Layered(IdList(s.index, e))
  }

  ghost predicate Inv(s: Store) {
    forall e :: InvAt(s, e)
  }

  // ----- one step, seen from one entity

  /** The store that a request finds after the scan that precedes it. */
  function Scanned(s: Store, order: seq<FileName>): Store {
    Store(Scan(s.index, order), s.files)
  }

  /** Where the list names the files already, the scan changes nothing. */
  lemma ScanAt(s: Store, order: seq<FileName>, e: string)
    requires ListedAt(s, e) && Visits(order, s.files)
    ensures IdList(Scan(s.index, order), e) == IdList(s.index, e)
    ensures e in Scan(s.index, order) <==> e in s.index
  {
    IdsOfOrder(order, e);
    ScanByEntity(s.index, order, e);
    ScanKeys(s.index, order, e);
    forall id | id in IdsOf(order, e) ensures id in IdList(s.index, e) {
      assert FileName(e, id) in order;
    }
    RescanIsIdle(IdList(s.index, e), IdsOf(order, e));
    if IdsOf(order, e) != [] {
      assert IdsOf(order, e)[0] in IdList(s.index, e);
    }
  }

  lemma PostListed(ids: seq<int>, dir: map<int, string>, body: string)
    requires Listed(ids, dir) && NextId(ids) !in ids
    ensures Listed(Post(ids), dir[NextId(ids) := body])
  {
    var p := if |ids| < 2 then 0 else RunEnd(ids, 1);
    InsertDistinct(ids, p, NextId(ids));
    InsertSet(ids, p, NextId(ids));
  }

  lemma RemoveListed(ids: seq<int>, dir: map<int, string>, id: int)
    requires Listed(ids, dir) && id in ids
    ensures Listed(Remove(ids, id), dir - {id})
  {
    var p :| 0 <= p < |ids| && ids[p] == id;
    RemoveIsRemoveAt(ids, p);
    RemoveAtSet(ids, p);
  }

  lemma HandleKeepsAt(s: Store, r: Request, e: string)
    requires InvAt(s, e)
    ensures InvAt(Handle(s, r).0, e)
  {
    match ParseTarget(r.target)
    case NoTarget =>
    case EntityTarget(entity) => EntityKeepsAt(s, entity, r, e);
    case FileTarget(entity, name) => FileKeepsAt(s, entity, name, r, e);
  }

  lemma EntityKeepsAt(s: Store, entity: string, r: Request, e: string)
    requires InvAt(s, e)
    ensures InvAt(HandleEntity(s, entity, r).0, e)
  {
    if entity == e {
      var ids := IdList(s.index, e);
      NextIsFresh(ids);
      PostListed(ids, Directory(s.files, e), r.body);
      PostKeepsLayered(ids);
    }
  }

  lemma FileKeepsAt(s: Store, entity: string, name: string, r: Request, e: string)
    requires InvAt(s, e)
    ensures InvAt(HandleFile(s, entity, name, r).0, e)
  {
    if r.verb == DeleteVerb && r.loggedIn {
      DeleteKeepsAt(s, entity, name, e);
    }
  }

  lemma DeleteKeepsAt(s: Store, entity: string, name: string, e: string)
    requires InvAt(s, e)
    ensures InvAt(HandleDelete(s, entity, name).0, e)
  {
    if entity == e && FileExists(s.files, e, name) {
      var ids, id := IdList(s.index, e), ReadNumeral(name).value;
      RemoveListed(ids, Directory(s.files, e), id);
      RemoveKeepsLayered(ids, id);
    }
  }

  // ----- the abstract view: one map from entity and id to body

  function Lookup(files: Files, e: string, id: int): Option<string> {
    if id in Directory(files, e) then Some(Directory(files, e)[id]) else None
  }

  /** What a request and its answer say about the body under e and id, given the body before. */
  function Effect(r: Request, answer: Response, e: string, id: int, before: Option<string>): Option<string> {
    var t := ParseTarget(r.target);
    if r.verb == PostVerb && t == EntityTarget(e) && answer == Created(id) then Some(r.body)
    else if r.verb == PutVerb && t == FileTarget(e, Numeral(id)) && answer.Ok? then Some(r.body)
    else if r.verb == DeleteVerb && t == FileTarget(e, Numeral(id)) && answer == Deleted then None
    else before
  }

  lemma PutEffect(s: Store, entity: string, name: string, body: string, e: string, id: int)
    ensures
      var (after, answer) := HandlePut(s, entity, name, body);
      Lookup(after.files, e, id) ==
      if entity == e && name == Numeral(id) && answer.Ok? then Some(body) else Lookup(s.files, e, id)
  {
    ReadOfNumeral(id);
  }

  lemma DeleteEffect(s: Store, entity: string, name: string, e: string, id: int)
    requires ListedAt(s, e)
    ensures
      var (after, answer) := HandleDelete(s, entity, name);
      Lookup(after.files, e, id) ==
      if entity == e && name == Numeral(id) && answer == Deleted then None else Lookup(s.files, e, id)
  {
    ReadOfNumeral(id);
  }

  lemma EntityEffect(s: Store, entity: string, r: Request, e: string, id: int)
    requires ParseTarget(r.target) == EntityTarget(entity)
    ensures
      var (after, answer) := HandleEntity(s, entity, r);
      Lookup(after.files, e, id) == Effect(r, answer, e, id, Lookup(s.files, e, id))
  {
    if r.verb != PostVerb || !r.loggedIn {
      assert HandleEntity(s, entity, r).0 == s;
    }
  }

  lemma FileEffect(s: Store, entity: string, name: string, r: Request, e: string, id: int)
    requires ListedAt(s, e) && ParseTarget(r.target) == FileTarget(entity, name)
    ensures
      var (after, answer) := HandleFile(s, entity, name, r);
      Lookup(after.files, e, id) == Effect(r, answer, e, id, Lookup(s.files, e, id))
  {
    if r.verb == PutVerb && r.loggedIn {
      PutEffect(s, entity, name, r.body, e, id);
    } else if r.verb == DeleteVerb && r.loggedIn {
      DeleteEffect(s, entity, name, e, id);
    } else {
      assert HandleFile(s, entity, name, r).0 == s;
    }
  }

  lemma HandleEffect(s: Store, r: Request, e: string, id: int)
    requires ListedAt(s, e)
    ensures
      var (after, answer) := Handle(s, r);
      Lookup(after.files, e, id) == Effect(r, answer, e, id, Lookup(s.files, e, id))
  {
    match ParseTarget(r.target)
    case NoTarget =>
    case EntityTarget(entity) => EntityEffect(s, entity, r, e, id);
    case FileTarget(entity, name) => FileEffect(s, entity, name, r, e, id);
  }

  // ----- runs

  /** The store after a run, and the answer to its last request. */
  function Final(start: Store, evs: seq<Event>): Store {
    if evs == [] then start else Step(Final(start, evs[..|evs| - 1]), evs[|evs| - 1]).0
  }

  function Answer(start: Store, evs: seq<Event>): Response
    requires evs != []
  {
    Step(Final(start, evs[..|evs| - 1]), evs[|evs| - 1]).1
  }

  /** Every scan of the run meets the files that are there, in any order. */
  predicate ValidRun(start: Store, evs: seq<Event>) {
    evs == [] ||
    (var front, last := evs[..|evs| - 1], evs[|evs| - 1];
     ValidRun(start, front) && Visits(last.order, Final(start, front).files))
  }

  /** The run of evs and one more request. */
  lemma RunAppend(start: Store, evs: seq<Event>, ev: Event)
    ensures Final(start, evs + [ev]) == Step(Final(start, evs), ev).0
    ensures Answer(start, evs + [ev]) == Step(Final(start, evs), ev).1
    ensures ValidRun(start, evs + [ev]) <==> ValidRun(start, evs) && Visits(ev.order, Final(start, evs).files)
  {
    assert (evs + [ev])[..|evs|] == evs;
  }

  /** The body last posted or put under e and id and not deleted since, read off the requests and
      answers of the run alone. */
  function LastBody(start: Store, evs: seq<Event>, e: string, id: int): Option<string> {
    if evs == [] then Lookup(start.files, e, id)
    else
      var front, last := evs[..|evs| - 1], evs[|evs| - 1];
      Effect(last.request, Answer(start, evs), e, id, LastBody(start, front, e, id))
  }

  lemma StepAt(s: Store, ev: Event, e: string)
    requires InvAt(s, e) && Visits(ev.order, s.files)
    ensures InvAt(Scanned(s, ev.order), e) && InvAt(Step(s, ev).0, e)
    ensures forall id :: Lookup(Step(s, ev).0.files, e, id) ==
                         Effect(ev.request, Step(s, ev).1, e, id, Lookup(s.files, e, id))
  {
    var t := Scanned(s, ev.order);
    ScanAt(s, ev.order, e);
    HandleKeepsAt(t, ev.request, e);
    forall id ensures Lookup(Step(s, ev).0.files, e, id) ==
                      Effect(ev.request, Step(s, ev).1, e, id, Lookup(s.files, e, id)) {
      HandleEffect(t, ev.request, e, id);
    }
  }

  /** Where an entity is consistent at the start, every run keeps it consistent, and its files hold exactly
      what the history of requests and answers says. */
  lemma {:induction false} StoreRefinement(start: Store, evs: seq<Event>, e: string)
    requires InvAt(start, e) && ValidRun(start, evs)
    ensures InvAt(Final(start, evs), e)
    ensures forall id :: Lookup(Final(start, evs).files, e, id) == LastBody(start, evs, e, id)
    decreases |evs|
  {
    if evs != [] {
      var front, last := evs[..|evs| - 1], evs[|evs| - 1];
      StoreRefinement(start, front, e);
      StepAt(Final(start, front), last, e);
    }
  }

  // ----- the answer to every request, from the history

  /** The entity has been posted to, or had both a directory and a list at the start. */
  predicate Known(start: Store, evs: seq<Event>, e: string) {
    if evs == [] then e in start.files && e in start.index
    else
      var r := evs[|evs| - 1].request;
      || Known(start, evs[..|evs| - 1], e)
      || (r.verb == PostVerb && ParseTarget(r.target) == EntityTarget(e) && Answer(start, evs).Created?)
  }

  lemma KnownStep(s: Store, ev: Event, e: string)
    requires InvAt(s, e) && Visits(ev.order, s.files)
    ensures
      var (after, answer) := Step(s, ev);
      e in after.files && e in after.index <==>
      (e in s.files && e in s.index) ||
      (ev.request.verb == PostVerb && ParseTarget(ev.request.target) == EntityTarget(e) && answer.Created?)
  {
    ScanAt(s, ev.order, e);
    var t := Scanned(s, ev.order);
    match ParseTarget(ev.request.target)
    case NoTarget =>
    case EntityTarget(entity) => assert Handle(t, ev.request) == HandleEntity(t, entity, ev.request);
    case FileTarget(entity, name) =>
      assert Handle(t, ev.request) == HandleFile(t, entity, name, ev.request);
      FileKeepsEntities(t, entity, name, ev.request, e);
  }

  lemma FileKeepsEntities(s: Store, entity: string, name: string, r: Request, e: string)
    ensures
      var (after, answer) := HandleFile(s, entity, name, r);
      (e in after.files <==> e in s.files) && (e in after.index <==> e in s.index) && !answer.Created?
  {
  }

  lemma {:induction false} KnownIsListed(start: Store, evs: seq<Event>, e: string)
    requires InvAt(start, e) && ValidRun(start, evs)
    ensures Known(start, evs, e) <==> e in Final(start, evs).files && e in Final(start, evs).index
    decreases |evs|
  {
    if evs != [] {
      var front, last := evs[..|evs| - 1], evs[|evs| - 1];
      KnownIsListed(start, front, e);
      StoreRefinement(start, front, e);
      KnownStep(Final(start, front), last, e);
    }
  }

  /** LIST names the live ids, each once; without any it answers a lone bracket for an entity it knows. */
  ghost predicate ListsHistory(start: Store, evs: seq<Event>, e: string, answer: Response) {
    if exists id :: LastBody(start, evs, e, id).Some? then
      && answer.Ok? && ReadIds(answer.body).Some? && Distinct(ReadIds(answer.body).value)
      && forall id :: id in ReadIds(answer.body).value <==> LastBody(start, evs, e, id).Some?
    else answer == if Known(start, evs, e) then Ok("]") else BadRequest
  }

  /** GET, PUT and DELETE of a stored body; everything else is refused. */
  function FileAnswer(r: Request, stored: Option<string>): Response {
    match stored
    case None => BadRequest
    case Some(body) =>
      if r.verb == GetVerb then Ok(body)
      else if r.verb == PutVerb && r.loggedIn then Ok(r.body)
      else if r.verb == DeleteVerb && r.loggedIn then Deleted
      else BadRequest
  }

  ghost predicate AnswersHistory(start: Store, evs: seq<Event>, r: Request, answer: Response) {
    match ParseTarget(r.target)
    case NoTarget => answer == BadRequest
    case EntityTarget(e) =>
      if r.verb == PostVerb && r.loggedIn then answer.Created? && LastBody(start, evs, e, answer.id) == None
      else if r.verb == GetVerb then ListsHistory(start, evs, e, answer)
      else answer == BadRequest
    case FileTarget(e, name) =>
      match ReadNumeral(name)
      case None => answer == BadRequest
      case Some(id) => answer == FileAnswer(r, LastBody(start, evs, e, id))
  }

  lemma PostIsFresh(start: Store, evs: seq<Event>, ev: Event, e: string)
    requires InvAt(start, e) && ValidRun(start, evs + [ev])
    requires ev.request.verb == PostVerb && ev.request.loggedIn && ParseTarget(ev.request.target) == EntityTarget(e)
    ensures var answer := Answer(start, evs + [ev]); answer.Created? && LastBody(start, evs, e, answer.id) == None
  {
    RunAppend(start, evs, ev);
    StoreRefinement(start, evs, e);
    var s := Final(start, evs);
    ScanAt(s, ev.order, e);
    NextIsFresh(IdList(s.index, e));
    assert Lookup(s.files, e, NextId(IdList(s.index, e))) == None;
  }

  lemma ListAnswersHistory(start: Store, evs: seq<Event>, ev: Event, e: string)
    requires InvAt(start, e) && ValidRun(start, evs + [ev])
    requires ev.request.verb == GetVerb && ParseTarget(ev.request.target) == EntityTarget(e)
    ensures ListsHistory(start, evs, e, Answer(start, evs + [ev]))
  {
    RunAppend(start, evs, ev);
    StoreRefinement(start, evs, e);
    KnownIsListed(start, evs, e);
    var s := Final(start, evs);
    ScanAt(s, ev.order, e);
    var ids := IdList(s.index, e);
    ListReadsBack(ids);
    forall id ensures id in ids <==> LastBody(start, evs, e, id).Some? {
      assert Lookup(s.files, e, id) == LastBody(start, evs, e, id);
    }
    assert ids != [] ==> ids[0] in ids;
  }

  /** LIST names the ids in the order of the entity's list. */
  lemma ListInOrder(start: Store, evs: seq<Event>, ev: Event, e: string)
    requires InvAt(start, e) && ValidRun(start, evs + [ev])
    requires ev.request.verb == GetVerb && ParseTarget(ev.request.target) == EntityTarget(e)
    ensures
      var ids, answer := IdList(Final(start, evs).index, e), Answer(start, evs + [ev]);
      ids != [] ==> answer == Ok("[" + Join(Names(ids), ',') + "]") && ReadIds(answer.body) == Some(ids)
  {
    RunAppend(start, evs, ev);
    StoreRefinement(start, evs, e);
    var s := Final(start, evs);
    ScanAt(s, ev.order, e);
    var ids := IdList(s.index, e);
    if ids != [] {
      ListText(ids);
      ListReadsBack(ids);
      assert ids[0] in ids;
    }
  }

  lemma FileAnswerOf(s: Store, e: string, id: int, r: Request)
    requires ListedAt(s, e)
    ensures HandleFile(s, e, Numeral(id), r).1 == FileAnswer(r, Lookup(s.files, e, id))
  {
    ReadOfNumeral(id);
    if id in Directory(s.files, e) {
      assert id in IdList(s.index, e);
    }
  }

  lemma FileAnswersHistory(start: Store, evs: seq<Event>, ev: Event, e: string, id: int)
    requires InvAt(start, e) && ValidRun(start, evs + [ev])
    requires ParseTarget(ev.request.target) == FileTarget(e, Numeral(id))
    ensures Answer(start, evs + [ev]) == FileAnswer(ev.request, LastBody(start, evs, e, id))
  {
    RunAppend(start, evs, ev);
    StoreRefinement(start, evs, e);
    var s := Final(start, evs);
    assert Lookup(s.files, e, id) == LastBody(start, evs, e, id);
    ScanAt(s, ev.order, e);
    FileAnswerOf(Scanned(s, ev.order), e, id, ev.request);
    assert Step(s, ev) == HandleFile(Scanned(s, ev.order), e, Numeral(id), ev.request);
  }

  /** In every run the history of requests and answers decides the answer to the next request, whatever it
      is; only which fresh id a POST is given, and the order in which LIST names the ids, is left open. */
  lemma AnswerFromHistory(start: Store, evs: seq<Event>, ev: Event)
    requires ValidRun(start, evs + [ev])
    requires var t := ParseTarget(ev.request.target); t.NoTarget? || InvAt(start, t.entity)
    ensures AnswersHistory(start, evs, ev.request, Answer(start, evs + [ev]))
  {
    RunAppend(start, evs, ev);
    var s, r := Scanned(Final(start, evs), ev.order), ev.request;
    match ParseTarget(r.target)
    case NoTarget =>
    case EntityTarget(e) =>
      assert Step(Final(start, evs), ev) == HandleEntity(s, e, r);
      if r.verb == PostVerb && r.loggedIn {
        PostIsFresh(start, evs, ev, e);
      } else if r.verb == GetVerb {
        ListAnswersHistory(start, evs, ev, e);
      }
    case FileTarget(e, name) =>
      assert Step(Final(start, evs), ev) == HandleFile(s, e, name, r);
      if ReadNumeral(name).Some? {
        FileAnswersHistory(start, evs, ev, e, ReadNumeral(name).value);
      }
  }

  // ----- refused requests

  lemma {:induction false} VisitAllHolds(v: seq<int>, order: seq<int>, x: int)
    requires x in v || x in order
    ensures x in VisitAll(v, order)
    decreases |order|
  {
    if order != [] {
      if order[0] !in v && |v| >= 2 {
        InsertSet(v, RunEnd(v, 1), order[0]);
      }
      VisitAllHolds(Visit(v, order[0]), order[1..], x);
    }
  }

  /** After the scan every file is listed, whatever the index was before. */
  lemma ScanListsFiles(s: Store, order: seq<FileName>, e: string, id: int)
    requires Visits(order, s.files) && id in Directory(s.files, e)
    ensures id in IdList(Scan(s.index, order), e)
  {
    assert FileName(e, id) in order;
    IdsOfOrder(order, e);
    ScanByEntity(s.index, order, e);
    VisitAllHolds(IdList(s.index, e), IdsOf(order, e), id);
  }

  /** A file that its entity's list lacks, which no scan leaves behind: GET refuses it, DELETE removes it and refuses
      all the same, PUT overwrites it, and the list stays as it is. */
  lemma UnlistedFile(s: Store, e: string, id: int, body: string)
    requires id in Directory(s.files, e) && e in s.index && id !in s.index[e]
    ensures HandleGet(s, e, Numeral(id)) == BadRequest
    ensures HandleDelete(s, e, Numeral(id)).1 == BadRequest && HandlePut(s, e, Numeral(id), body).1 == Ok(body)
    ensures HandleDelete(s, e, Numeral(id)).0.index == HandlePut(s, e, Numeral(id), body).0.index == s.index
    ensures forall x, i :: Lookup(HandleDelete(s, e, Numeral(id)).0.files, x, i) ==
                           if x == e && i == id then None else Lookup(s.files, x, i)
    ensures forall x, i :: Lookup(HandlePut(s, e, Numeral(id), body).0.files, x, i) ==
                           if x == e && i == id then Some(body) else Lookup(s.files, x, i)
  {
    ReadOfNumeral(id);
  }

  /** An entity without a list, whatever its files: GET, DELETE and LIST refuse and change nothing. */
  lemma UnindexedEntity(s: Store, e: string, name: string)
    requires e !in s.index
    ensures HandleGet(s, e, name) == HandleList(s, e) == BadRequest && HandleDelete(s, e, name) == (s, BadRequest)
  {
  }

  /** On any store, a refused request leaves the files alone and the index as the scan left it. */
  lemma RefusalIsIdle(s: Store, ev: Event)
    requires Visits(ev.order, s.files) && Step(s, ev).1 == BadRequest
    ensures Step(s, ev).0 == Scanned(s, ev.order)
  {
    var t := ParseTarget(ev.request.target);
    if t.FileTarget? && FileExists(s.files, t.entity, t.name) {
      ScanListsFiles(s, ev.order, t.entity, ReadNumeral(t.name).value);
    }
  }

  /** The same in every run from any store; where every entity is consistent nothing changes at all. */
  lemma RunRefusalIsIdle(start: Store, evs: seq<Event>, ev: Event)
    requires ValidRun(start, evs + [ev]) && Answer(start, evs + [ev]) == BadRequest
    ensures Final(start, evs + [ev]) == Scanned(Final(start, evs), ev.order)
    ensures Inv(start) ==> Final(start, evs + [ev]) == Final(start, evs)
  {
    RunAppend(start, evs, ev);
    RefusalIsIdle(Final(start, evs), ev);
    if Inv(start) {
      var s := Final(start, evs);
      forall e ensures IdList(Scan(s.index, ev.order), e) == IdList(s.index, e)
                    && (e in Scan(s.index, ev.order) <==> e in s.index) {
        assert InvAt(start, e);
        StoreRefinement(start, evs, e);
        ScanAt(s, ev.order, e);
      }
      SameIndex(Scan(s.index, ev.order), s.index);
    }
  }

  lemma SameIndex(a: Index, b: Index)
    requires forall e :: IdList(a, e) == IdList(b, e) && (e in a <==> e in b)
    ensures a == b
  {
    forall e | e in a ensures e in b && a[e] == b[e] {
      assert IdList(a, e) == IdList(b, e);
    }
    assert a.Keys == b.Keys;
  }

  // ----- from an empty store

  /** A request does nothing to an id list, or one of the two list operations. */
  lemma HandleIndex(s: Store, r: Request, e: string) returns (ops: seq<Op>)
    ensures |ops| <= 1
    ensures IdList(Handle(s, r).0.index, e) ==
            if ops == [] then IdList(s.index, e) else Apply(IdList(s.index, e), ops[0])
  {
    ops := [];
    assert forall op :: Apply(IdList(s.index, e), op) ==
                        if op.PostOp? then Post(IdList(s.index, e)) else Remove(IdList(s.index, e), op.id);
    match ParseTarget(r.target)
    case NoTarget =>
    case EntityTarget(entity) =>
      EntityIndex(s, entity, r, e);
      if entity == e && r.verb == PostVerb && r.loggedIn {
        ops := [PostOp];
      }
    case FileTarget(entity, name) =>
      FileIndex(s, entity, name, r, e);
      if entity == e && HandleFile(s, entity, name, r).1 == Deleted {
        ops := [DeleteOp(ReadNumeral(name).value)];
      }
  }

  lemma EntityIndex(s: Store, entity: string, r: Request, e: string)
    ensures IdList(HandleEntity(s, entity, r).0.index, e) ==
            if entity == e && r.verb == PostVerb && r.loggedIn then Post(IdList(s.index, e)) else IdList(s.index, e)
  {
  }

  lemma FileIndex(s: Store, entity: string, name: string, r: Request, e: string)
    ensures
      var (after, answer) := HandleFile(s, entity, name, r);
      IdList(after.index, e) ==
      if entity == e && answer == Deleted then Remove(IdList(s.index, e), ReadNumeral(name).value)
      else IdList(s.index, e)
  {
  }

  lemma ApplyKeepsTwoShape(ids: seq<int>, op: Op)
    requires TwoShape(ids)
    ensures TwoShape(Apply(ids, op))
  {
    match op
    case PostOp => PostKeepsTwoShape(ids);
    case DeleteOp(id) => RemoveKeepsTwoShape(ids, id);
  }

  lemma StepKeepsShape(s: Store, ev: Event, e: string)
    requires InvAt(s, e) && Visits(ev.order, s.files) && TwoShape(IdList(s.index, e))
    ensures TwoShape(IdList(Step(s, ev).0.index, e))
  {
    ScanAt(s, ev.order, e);
    var ops := HandleIndex(Scanned(s, ev.order), ev.request, e);
    if ops != [] {
      ApplyKeepsTwoShape(IdList(s.index, e), ops[0]);
    }
  }

  /** From an empty store every id list keeps one of the two shapes, names exactly the files and is
      free of duplicates, whatever is requested and in whatever order the scans meet the files. */
  lemma {:induction false} RunsFromEmpty(evs: seq<Event>, e: string)
    requires ValidRun(EMPTY, evs)
    ensures InvAt(EMPTY, e) && InvAt(Final(EMPTY, evs), e) && TwoShape(IdList(Final(EMPTY, evs).index, e))
    decreases |evs|
  {
    StoreRefinement(EMPTY, evs, e);
    if evs != [] {
      var front := evs[..|evs| - 1];
      RunsFromEmpty(front, e);
      StepKeepsShape(Final(EMPTY, front), evs[|evs| - 1], e);
    }
  }
}
