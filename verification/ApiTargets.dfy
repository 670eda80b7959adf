/** Which targets the CRUD handler serves, and what they name. */
module ApiTargets {
  import opened Wrappers
  import opened Text
  import opened ApiStore

  predicate NoSlash(s: string) {
    forall i :: 0 <= i < |s| ==> s[i] != '/'
  }

  /** The entities that a target of POST can name. */
  predicate Postable(e: string) {
    e != "" && NoSlash(e)
  }

  lemma {:induction false} FindLastIs(s: string, c: char, p: nat)
    requires p < |s| && s[p] == c && forall i :: p < i < |s| ==> s[i] != c
    ensures FindLast(s, c) == Some(p)
  {
    if p < |s| - 1 {
      FindLastIs(s[..|s| - 1], c, p);
    }
  }

  lemma TargetOfEntity(e: string)
    requires Postable(e)
    ensures ParseTarget(PREFIX + e) == EntityTarget(e)
  {
    assert (PREFIX + e)[|PREFIX|..] == e;
  }

  lemma EntityIsPostable(target: string)
    requires ParseTarget(target).EntityTarget?
    ensures Postable(ParseTarget(target).entity)
  {
    assert PREFIX + target[|PREFIX|..] == target;
  }

  lemma LastSlash(e: string, name: string)
    requires NoSlash(name)
    ensures
      var directory := e + ("/" + name);
      FindLast(directory, '/') == Some(|e|) && directory[..|e|] == e && directory[|e| + 1..] == name
  {
    var directory := e + ("/" + name);
    forall i | |e| < i < |directory| ensures directory[i] != '/' {
      assert directory[i] == name[i - |e| - 1];
    }
    FindLastIs(directory, '/', |e|);
  }

  lemma TargetOfName(e: string, name: string)
    requires NoSlash(name)
    ensures ParseTarget(PREFIX + (e + ("/" + name))) == FileTarget(e, name)
  {
    var directory := e + ("/" + name);
    LastSlash(e, name);
    assert (PREFIX + directory)[|PREFIX|..] == directory;
  }

  lemma TargetOfFile(e: string, id: int)
    ensures ParseTarget(PREFIX + (e + ("/" + Numeral(id)))) == FileTarget(e, Numeral(id))
  {
    NumeralIsPlain(id);
    TargetOfName(e, Numeral(id));
  }

  lemma FileIsCut(target: string)
    requires ParseTarget(target).FileTarget?
    ensures
      var t := ParseTarget(target);
      NoSlash(t.name) && target == "/api/" + (t.entity + ("/" + t.name))
  {
    var directory := target[|PREFIX|..];
    var p := FindLast(directory, '/').value;
    assert directory == directory[..p] + (['/'] + directory[p + 1..]);
    assert target == PREFIX + directory;
  }

  /** A target is an entity if and only if it is "/api/" and a name without a slash; a file if and only if it is "/api/"
      with an entity, a slash and a name without one; everything else names nothing. */
  lemma ServedTargets(target: string)
    ensures forall e :: ParseTarget(target) == EntityTarget(e) <==> e != "" && NoSlash(e) && target == "/api/" + e
    ensures forall e, name :: ParseTarget(target) == FileTarget(e, name) <==>
                              NoSlash(name) && target == "/api/" + (e + ("/" + name))
    ensures ParseTarget(target) == NoTarget <==> !("/api/" <= target) || target == "/api/"
  {
    forall e ensures ParseTarget(target) == EntityTarget(e) <==> Postable(e) && target == "/api/" + e {
      if ParseTarget(target) == EntityTarget(e) {
        EntityIsPostable(target);
        assert target == PREFIX + target[|PREFIX|..];
      } else if Postable(e) {
        TargetOfEntity(e);
      }
    }
    forall e, name ensures ParseTarget(target) == FileTarget(e, name) <==>
                           NoSlash(name) && target == "/api/" + (e + ("/" + name)) {
      if ParseTarget(target) == FileTarget(e, name) {
        FileIsCut(target);
      } else if NoSlash(name) {
        TargetOfName(e, name);
      }
    }
  }

  /** Outside "/api/", and for "/api/" itself, every request is refused. */
  lemma OtherTargetsAreRefused(s: Store, ev: Event)
    requires !("/api/" <= ev.request.target) || ev.request.target == "/api/"
    ensures Step(s, ev) == (Store(Scan(s.index, ev.order), s.files), BadRequest)
  {
    ServedTargets(ev.request.target);
  }
}
