/** The CRUD store: one index of id lists, one directory of files per entity, and the request handler
    that keeps the two in step. */
module ApiStore {
  import opened Wrappers
  import opened Text
  import opened IdAllocator
  import opened IdHistory

  type Index = map<string, seq<int>>
  type Files = map<string, map<int, string>>

  datatype Store = Store(index: Index, files: Files)

  const EMPTY := Store(map[], map[])

  datatype Verb = PostVerb | GetVerb | PutVerb | DeleteVerb | OtherVerb

  datatype Request = Request(verb: Verb, target: string, body: string, loggedIn: bool)

  datatype Response = Created(id: int) | Ok(body: string) | Deleted | BadRequest

  datatype Target = NoTarget | EntityTarget(entity: string) | FileTarget(entity: string, name: string)

  const PREFIX := "/api/"

  function ParseTarget(target: string): Target {
    if !(PREFIX <= target) || target == PREFIX then NoTarget
    else
      var directory := target[|PREFIX|..];
      var slash := FindLast(directory, '/');
      match slash
      case None => EntityTarget(directory)
      case Some(p) => FileTarget(directory[..p], directory[p + 1..])
  }

  function IdList(index: Index, entity: string): seq<int> {
    if entity in index then index[entity] else []
  }

  function Directory(files: Files, entity: string): map<int, string> {
    if entity in files then files[entity] else map[]
  }

  predicate FileExists(files: Files, entity: string, name: string) {
    ReadNumeral(name).Some? && ReadNumeral(name).value in Directory(files, entity)
  }

  // ----- the answer to LIST

  function Commas(ids: seq<int>): string {
    if ids == [] then "" else Numeral(ids[0]) + "," + Commas(ids[1..])
  }

  /** An opening bracket and the ids, each followed by a comma, with the last character overwritten. */
  function ListBody(ids: seq<int>): string {
    var s := "[" + Commas(ids);
    s[..|s| - 1] + "]"
  }

  /** A reader for bracketed, comma-separated numerals. */
  function ReadIds(body: string): Option<seq<int>> {
    if |body| < 2 || body[0] != '[' || body[|body| - 1] != ']' then None
    else ReadNumerals(Split(body[1..|body| - 1], ','))
  }

  function ReadNumerals(names: seq<string>): Option<seq<int>> {
    if names == [] then Some([])
    else match ReadNumeral(names[0])
      case None => None
      case Some(id) =>
        match ReadNumerals(names[1..])
        case None => None
        case Some(ids) => Some([id] + ids)
  }

  lemma CommasShape(ids: seq<int>)
    requires ids != []
    ensures
      var s, first, rest := Commas(ids), Numeral(ids[0]), Commas(ids[1..]);
      s != "" && s[..|s| - 1] == if rest == "" then first else first + [','] + rest[..|rest| - 1]
  {
  }

  lemma ReadCons(id: int, names: seq<string>, ids: seq<int>)
    requires ReadNumerals(names) == Some(ids)
    ensures ReadNumerals([Numeral(id)] + names) == Some([id] + ids)
  {
    ReadOfNumeral(id);
    assert ([Numeral(id)] + names)[1..] == names;
  }

  function Names(ids: seq<int>): seq<string> {
    if ids == [] then [] else [Numeral(ids[0])] + Names(ids[1..])
  }

  lemma {:induction false} ReadNames(ids: seq<int>)
    ensures ReadNumerals(Names(ids)) == Some(ids)
  {
    if ids != [] {
      ReadNames(ids[1..]);
      ReadCons(ids[0], Names(ids[1..]), ids[1..]);
      assert [ids[0]] + ids[1..] == ids;
    }
  }

  lemma {:induction false} SplitCommas(ids: seq<int>)
    requires ids != []
    ensures var s := Commas(ids); s != "" && Split(s[..|s| - 1], ',') == Names(ids)
    decreases |ids|
  {
    var first, rest := Numeral(ids[0]), Commas(ids[1..]);
    CommasShape(ids);
    assert ',' !in first by { NumeralIsPlain(ids[0]); }
    if |ids| == 1 {
      SplitSingle(first, ',');
      assert Names(ids[1..]) == [];
    } else {
      SplitCommas(ids[1..]);
      SplitFirst(first, ',', rest[..|rest| - 1]);
    }
  }

  /** The LIST answer reads back as exactly its ids unless there are none; then it is a lone bracket. */
  lemma ListReadsBack(ids: seq<int>)
    ensures ReadIds(ListBody(ids)) == Some(ids) <==> ids != []
    ensures ids == [] ==> ListBody(ids) == "]"
  {
    if ids != [] {
      var s, body := Commas(ids), ListBody(ids);
      SplitCommas(ids);
      ReadNames(ids);
      assert ("[" + s)[..|s|] == "[" + s[..|s| - 1];
      assert body[1..|body| - 1] == s[..|s| - 1];
    }
  }

  /** The LIST answer is the numerals of the ids, in the order of the list, with commas between them, in brackets. */
  lemma ListText(ids: seq<int>)
    requires ids != []
    ensures |Names(ids)| == |ids| && forall i :: 0 <= i < |ids| ==> Names(ids)[i] == Numeral(ids[i])
    ensures ListBody(ids) == "[" + Join(Names(ids), ',') + "]"
  {
    var s := Commas(ids);
    NamesAre(ids);
    SplitCommas(ids);
    SplitIs(s[..|s| - 1], ',', Names(ids));
    assert ("[" + s)[..|s|] == "[" + s[..|s| - 1];
  }

  lemma {:induction false} NamesAre(ids: seq<int>)
    ensures |Names(ids)| == |ids| && forall i :: 0 <= i < |ids| ==> Names(ids)[i] == Numeral(ids[i])
  {
    if ids != [] {
      NamesAre(ids[1..]);
    }
  }

  // ----- what each request does to the store

  function HandlePost(s: Store, entity: string, body: string): (Store, Response) {
    var ids := IdList(s.index, entity);
    var id := NextId(ids);
    (Store(s.index[entity := Post(ids)], s.files[entity := Directory(s.files, entity)[id := body]]), Created(id))
  }

  function HandleDelete(s: Store, entity: string, name: string): (Store, Response) {
    if !FileExists(s.files, entity, name) || entity !in s.index then (s, BadRequest)
    else
      var id := ReadNumeral(name).value;
      var files := s.files[entity := s.files[entity] - {id}];
      if id !in s.index[entity] then (Store(s.index, files), BadRequest)
      else (Store(s.index[entity := Remove(s.index[entity], id)], files), Deleted)
  }

  function HandleGet(s: Store, entity: string, name: string): Response {
    if !FileExists(s.files, entity, name) || ReadNumeral(name).value !in IdList(s.index, entity) then BadRequest
    else Ok(s.files[entity][ReadNumeral(name).value])
  }

  function HandleList(s: Store, entity: string): Response {
    if entity !in s.files || entity !in s.index then BadRequest else Ok(ListBody(s.index[entity]))
  }

  function HandlePut(s: Store, entity: string, name: string, body: string): (Store, Response) {
    if !FileExists(s.files, entity, name) then (s, BadRequest)
    else (s.(files := s.files[entity := s.files[entity][ReadNumeral(name).value := body]]), Ok(body))
  }

  function HandleEntity(s: Store, entity: string, r: Request): (Store, Response) {
    if r.verb == PostVerb && r.loggedIn then HandlePost(s, entity, r.body)
    else if r.verb == GetVerb then (s, HandleList(s, entity))
    else (s, BadRequest)
  }

  function HandleFile(s: Store, entity: string, name: string, r: Request): (Store, Response) {
    if r.verb == GetVerb then (s, HandleGet(s, entity, name))
    else if r.verb == PutVerb && r.loggedIn then HandlePut(s, entity, name, r.body)
    else if r.verb == DeleteVerb && r.loggedIn then HandleDelete(s, entity, name)
    else (s, BadRequest)
  }

  function Handle(s: Store, r: Request): (Store, Response) {
    match ParseTarget(r.target)
    case NoTarget => (s, BadRequest)
    case EntityTarget(entity) => HandleEntity(s, entity, r)
    case FileTarget(entity, name) => HandleFile(s, entity, name, r)
  }

  // ----- the scan that precedes every request

  datatype FileName = FileName(entity: string, id: int)

  function ScanFile(index: Index, f: FileName): Index {
    index[f.entity := Visit(IdList(index, f.entity), f.id)]
  }

  function Scan(index: Index, order: seq<FileName>): Index
    decreases |order|
  {
    if order == [] then index else Scan(ScanFile(index, order[0]), order[1..])
  }

  function IdsOf(order: seq<FileName>, entity: string): seq<int> {
    if order == [] then []
    else (if order[0].entity == entity then [order[0].id] else []) + IdsOf(order[1..], entity)
  }

  /** The scan treats every entity on its own, in the order its files are met. */
  lemma {:induction false} ScanByEntity(index: Index, order: seq<FileName>, entity: string)
    ensures IdList(Scan(index, order), entity) == VisitAll(IdList(index, entity), IdsOf(order, entity))
    decreases |order|
  {
    if order != [] {
      var next := ScanFile(index, order[0]);
      ScanByEntity(next, order[1..], entity);
      if order[0].entity == entity {
        assert IdsOf(order, entity)[1..] == IdsOf(order[1..], entity);
      } else {
        assert IdsOf(order, entity) == IdsOf(order[1..], entity);
      }
    }
  }

  lemma {:induction false} IdsOfOrder(order: seq<FileName>, e: string)
    ensures forall id :: id in IdsOf(order, e) <==> FileName(e, id) in order
  {
    if order != [] {
      IdsOfOrder(order[1..], e);
    }
  }

  /** An entity has a list after the scan if it had one before or one of its files was met. */
  lemma {:induction false} ScanKeys(index: Index, order: seq<FileName>, e: string)
    ensures e in Scan(index, order) <==> e in index || IdsOf(order, e) != []
    decreases |order|
  {
    if order != [] {
      ScanKeys(ScanFile(index, order[0]), order[1..], e);
    }
  }

  /** The scan meets exactly the files there are. */
  predicate Visits(order: seq<FileName>, files: Files) {
    && (forall f :: f in order ==> f.id in Directory(files, f.entity))
    && (forall e, id :: e in files && id in files[e] ==> FileName(e, id) in order)
  }

  datatype Event = Event(order: seq<FileName>, request: Request)

  function Step(s: Store, ev: Event): (Store, Response) {
    Handle(Store(Scan(s.index, ev.order), s.files), ev.request)
  }

  // ----- one object standing for the shared index and the directory tree

  class Api {
    var pathCounts: Index
    var files: Files

    constructor ()
      ensures Contents() == EMPTY
    {
      pathCounts, files := map[], map[];
    }

    ghost function Contents(): Store
      reads this
    {
      Store(pathCounts, files)
    }

    /** What creating a handler does: a file not yet in its entity's list is put into it. */
    method Rescan(order: seq<FileName>)
      modifies this
      ensures Contents() == Store(Scan(old(pathCounts), order), old(files))
    {
      for i := 0 to |order|
        invariant files == old(files)
        invariant Scan(old(pathCounts), order) == Scan(pathCounts, order[i..])
      {
        ghost var before := pathCounts;
        var entity, id := order[i].entity, order[i].id;
        var ids := if entity in pathCounts then pathCounts[entity] else [];
        if id !in ids {
          if |ids| == 0 {
            ids := [id];
          } else if |ids| == 1 {
            ids := if ids[0] < id then ids + [id] else [id] + ids;
          } else {
            var index := FirstRun(ids);
            ids := Insert(ids, index, id);
          }
        }
        pathCounts := pathCounts[entity := ids];
        assert pathCounts == ScanFile(before, order[i]);
        assert order[i..][1..] == order[i + 1..];
      }
    }

    /** The loop that looks for the end of the first run of consecutive ids. */
    method FirstRun(ids: seq<int>) returns (index: nat)
      requires |ids| >= 2
      ensures index == RunEnd(ids, 1)
    {
      index := 1;
      while index != |ids| && ids[index] == ids[index - 1] + 1
        invariant 1 <= index <= |ids| && RunEnd(ids, 1) == RunEnd(ids, index)
        decreases |ids| - index
      {
        index := index + 1;
      }
    }

    method GetNextId(directory: string) returns (id: int)
      modifies this
      ensures id == NextId(IdList(old(pathCounts), directory))
      ensures pathCounts == old(pathCounts)[directory := Post(IdList(old(pathCounts), directory))]
      ensures files == old(files)
    {
      var idList := if directory in pathCounts then pathCounts[directory] else [];
      var index := 1;
      if |idList| == 0 {
        id := 1;
      } else if |idList| == 1 {
        id := if idList[0] == 1 then 2 else 1;
      } else {
        index := FirstRun(idList);
        id := idList[index - 1] + 1;
        index := index + 1;
      }
      pathCounts := pathCounts[directory := Insert(idList, index - 1, id)];
    }

    method DoPost(directory: string, body: string) returns (response: Response)
      modifies this
      ensures (Contents(), response) == HandlePost(old(Contents()), directory, body)
    {
      if directory !in files {
        files := files[directory := map[]];
      }
      var id := GetNextId(directory);
      files := files[directory := files[directory][id := body]];
      assert files == old(files)[directory := Directory(old(files), directory)[id := body]];
      response := Created(id);
    }

    method DoDelete(entity: string, name: string) returns (response: Response)
      modifies this
      ensures (Contents(), response) == HandleDelete(old(Contents()), entity, name)
    {
      if !FileExists(files, entity, name) {
        return BadRequest;
      }
      var id := ReadNumeral(name).value;
      if entity in pathCounts {
        files := files[entity := files[entity] - {id}];
        if id !in pathCounts[entity] {
          return BadRequest;
        }
        var kept := Erase(pathCounts[entity], id);
        pathCounts := pathCounts[entity := kept];
        return Deleted;
      }
      response := BadRequest;
    }

    /** std::find followed by erase. */
    method Erase(ids: seq<int>, id: int) returns (kept: seq<int>)
      requires id in ids
      ensures kept == Remove(ids, id)
    {
      var at := 0;
      while ids[at] != id
        invariant 0 <= at < |ids| && id in ids[at..]
        invariant forall i :: 0 <= i < at ==> ids[i] != id
        decreases |ids| - at
      {
        at := at + 1;
      }
      RemoveFirst(ids, at);
      kept := ids[..at] + ids[at + 1..];
    }

    method DoGet(entity: string, name: string) returns (response: Response)
      ensures response == HandleGet(Contents(), entity, name)
    {
      if !FileExists(files, entity, name) {
        return BadRequest;
      }
      var id := ReadNumeral(name).value;
      if entity in pathCounts {
        if id !in pathCounts[entity] {
          return BadRequest;
        }
        return Ok(files[entity][id]);
      }
      response := BadRequest;
    }

    method DoList(entity: string) returns (response: Response)
      ensures response == HandleList(Contents(), entity)
    {
      if entity !in files {
        return BadRequest;
      }
      if entity in pathCounts {
        var ids := pathCounts[entity];
        var oss := "[";
        for i := 0 to |ids|
          invariant "[" + Commas(ids) == oss + Commas(ids[i..])
          invariant oss != ""
        {
          oss := oss + Numeral(ids[i]) + ",";
          assert ids[i..][1..] == ids[i + 1..];
        }
        assert oss + Commas([]) == oss;
        oss := oss[..|oss| - 1] + "]";
        return Ok(oss);
      }
      response := BadRequest;
    }

    method DoPut(entity: string, name: string, body: string) returns (response: Response)
      modifies this
      ensures (Contents(), response) == HandlePut(old(Contents()), entity, name, body)
    {
      if !FileExists(files, entity, name) {
        return BadRequest;
      }
      files := files[entity := files[entity][ReadNumeral(name).value := body]];
      response := Ok(body);
    }

    /** A request served by a fresh handler: the scan, then the dispatch on target and method. */
    method Serve(ev: Event) returns (response: Response)
      modifies this
      ensures (Contents(), response) == Step(old(Contents()), ev)
    {
      Rescan(ev.order);
      var r := ev.request;
      match ParseTarget(r.target)
      case NoTarget => response := BadRequest;
      case EntityTarget(entity) =>
        if r.verb == PostVerb && r.loggedIn {
          response := DoPost(entity, r.body);
        } else if r.verb == GetVerb {
          response := DoList(entity);
        } else {
          response := BadRequest;
        }
      case FileTarget(entity, name) =>
        if r.verb == GetVerb {
          response := DoGet(entity, name);
        } else if r.verb == PutVerb && r.loggedIn {
          response := DoPut(entity, name, r.body);
        } else if r.verb == DeleteVerb && r.loggedIn {
          response := DoDelete(entity, name);
        } else {
          response := BadRequest;
        }
    }
  }
}
