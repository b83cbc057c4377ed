/** A sync told from the fields of the bundle's objects: what leaves no trace, and what ends up in a row. */
module AttackEffects {
  import opened Wrappers
  import opened AttackBundle
  import opened AttackTheorems

  // ---------------------------------------------------------------- which objects count

  /** The object's first MITRE reference stands at position i. */
  predicate FirstMitre(o: StixObject, i: nat) {
    && i < |o.refs| && o.refs[i].source == Some("mitre-attack")
    && forall j :: 0 <= j < i ==> o.refs[j].source != Some("mitre-attack")
  }

  /** Its first MITRE reference has this id. */
  predicate HasId(o: StixObject, id: string) {
    exists i :: 0 <= i < |o.refs| && FirstMitre(o, i) && o.refs[i].externalId == Some(id)
  }

  /** Its first MITRE reference has this link. */
  predicate HasUrl(o: StixObject, url: Option<string>) {
    exists i :: 0 <= i < |o.refs| && FirstMitre(o, i) && o.refs[i].url == url
  }

  predicate IsLive(o: StixObject) {
    !o.revoked && !o.deprecated
  }

  lemma {:induction false} FirstReference(refs: seq<ExternalRef>, i: nat)
    requires i < |refs| && refs[i].source == Some("mitre-attack")
    requires forall j :: 0 <= j < i ==> refs[j].source != Some("mitre-attack")
    ensures ExternalIdAndUrl(refs) == (refs[i].externalId, refs[i].url)
  {
    if i > 0 {
      FirstReference(refs[1..], i - 1);
    }
  }

  lemma {:induction false} FoundReference(refs: seq<ExternalRef>) returns (i: nat)
    requires ExternalIdAndUrl(refs) != (None, None)
    ensures i < |refs| && refs[i].source == Some("mitre-attack")
    ensures forall j :: 0 <= j < i ==> refs[j].source != Some("mitre-attack")
    ensures ExternalIdAndUrl(refs) == (refs[i].externalId, refs[i].url)
  {
    if refs[0].source == Some("mitre-attack") {
      i := 0;
    } else {
      var k := FoundReference(refs[1..]);
      i := k + 1;
    }
  }

  /** An object counts when it is of the kind, neither revoked nor deprecated, and its first MITRE reference has an id. */
  lemma UsableIff(o: StixObject, kind: string, id: string)
    ensures Usable(o, kind) && IdOf(o) == id <==> o.kind == kind && IsLive(o) && HasId(o, id) && id != ""
  {
    if Usable(o, kind) {
      var i := FoundReference(o.refs);
      assert FirstMitre(o, i);
    }
    if HasId(o, id) {
      var i :| 0 <= i < |o.refs| && FirstMitre(o, i) && o.refs[i].externalId == Some(id);
      FirstReference(o.refs, i);
    }
  }

  // ---------------------------------------------------------------- revoked and deprecated objects

  /** The bundle without its revoked and deprecated objects. */
  function LiveOnly(objects: seq<StixObject>): seq<StixObject> {
    if objects == [] then []
    else
      var last := objects[|objects| - 1];
      LiveOnly(objects[..|objects| - 1]) + (if IsLive(last) then [last] else [])
  }

  lemma {:induction false} SameLast(objects: seq<StixObject>, kind: string, id: string)
    ensures Last(LiveOnly(objects), kind, id) == Last(objects, kind, id)
    ensures UsableCount(LiveOnly(objects), kind) == UsableCount(objects, kind)
  {
    hide IdOf;
    if objects != [] {
      var init, o := objects[..|objects| - 1], objects[|objects| - 1];
      SameLast(init, kind, id);
      var live := LiveOnly(init);
      if IsLive(o) {
        assert (live + [o])[..|live + [o]| - 1] == live;
      } else {
        assert LiveOnly(objects) == live;
      }
    }
  }

  lemma {:induction false} SameOwner(objects: seq<StixObject>, shortName: string)
    ensures Owner(LiveOnly(objects), shortName) == Owner(objects, shortName)
  {
    hide IdOf, ShortNameOf, Last;
    if objects != [] {
      var init, o := objects[..|objects| - 1], objects[|objects| - 1];
      SameOwner(init, shortName);
      var live := LiveOnly(init);
      if IsLive(o) {
        assert (live + [o])[..|live + [o]| - 1] == live;
      } else {
        assert LiveOnly(objects) == live;
      }
    }
  }

  lemma SameTactics(s0: Store, objects: seq<StixObject>, s1: Store)
    ensures TacticsSynced(s0, LiveOnly(objects), s1) <==> TacticsSynced(s0, objects, s1)
    ensures TechniquesPresent(s0, LiveOnly(objects), s1) <==> TechniquesPresent(s0, objects, s1)
  {
    hide Last, Grown, WrittenTactic, LiveOnly;
    forall id
      ensures TacticDue(s0.tactics, LiveOnly(objects), s1.tactics, id) <==> TacticDue(s0.tactics, objects, s1.tactics, id)
      ensures TechniquePresent(s0.techniques, LiveOnly(objects), s1.techniques, id)
         <==> TechniquePresent(s0.techniques, objects, s1.techniques, id)
    {
      SameLast(objects, TACTIC, id);
      SameLast(objects, TECHNIQUE, id);
    }
  }

  lemma SameTechnique(s0: Store, objects: seq<StixObject>, now: int, s1: Store, id: string)
    requires TacticsSynced(s0, objects, s1) && TechniquesPresent(s0, objects, s1)
    requires TacticsSynced(s0, LiveOnly(objects), s1) && TechniquesPresent(s0, LiveOnly(objects), s1)
    ensures TechniqueSynced(s0, LiveOnly(objects), now, s1, id) <==> TechniqueSynced(s0, objects, now, s1, id)
  {
    var live := LiveOnly(objects);
    SyncedKeys(s0, objects, s1);
    SyncedKeys(s0, live, s1);
    SameLast(objects, TECHNIQUE, id);
    SameLast(objects, TECHNIQUE, ParentId(id));
    var o := Last(objects, TECHNIQUE, id);
    hide Last, LiveOnly, Owner, Grown, ParentId, TacticsSynced, TechniquesPresent, WrittenTechnique, PhaseNames, ParentBefore;
    if o.Some? {
      forall name ensures Owner(live, name) == Owner(objects, name) {
        SameOwner(objects, name);
      }
      assert PhaseTactics(live, s1.tactics, o.value) == PhaseTactics(objects, s1.tactics, o.value);
      hide PhaseTactics;
      assert SyncedParent(live, s1.techniques, id, o.value.isSub, ParentBefore(s0.techniques, id))
          == SyncedParent(objects, s1.techniques, id, o.value.isSub, ParentBefore(s0.techniques, id));
    }
  }

  /** Revoked and deprecated objects leave no trace: without them the same syncs are possible, with the same counts. */
  lemma RevokedLeaveNoTrace(s0: Store, objects: seq<StixObject>, now: int, s1: Store)
    ensures Synced(s0, LiveOnly(objects), now, s1) <==> Synced(s0, objects, now, s1)
    ensures UsableCount(LiveOnly(objects), TACTIC) == UsableCount(objects, TACTIC)
    ensures UsableCount(LiveOnly(objects), TECHNIQUE) == UsableCount(objects, TECHNIQUE)
  {
    SameTactics(s0, objects, s1);
    SameLast(objects, TACTIC, "");
    SameLast(objects, TECHNIQUE, "");
    hide TacticsSynced, TechniquesPresent, TechniqueSynced, LiveOnly, UsableCount;
    if TacticsSynced(s0, objects, s1) && TechniquesPresent(s0, objects, s1) {
      forall id
        ensures TechniqueSynced(s0, LiveOnly(objects), now, s1, id) <==> TechniqueSynced(s0, objects, now, s1, id)
      {
        SameTechnique(s0, objects, now, s1, id);
      }
    }
  }

  // ---------------------------------------------------------------- rows

  /** No object after position i counts under the same id. */
  predicate IsLatest(objects: seq<StixObject>, i: nat, kind: string, id: string) {
    forall j :: i < j < |objects| ==> !(objects[j].kind == kind && IsLive(objects[j]) && HasId(objects[j], id))
  }

  lemma {:induction false} LastIs(objects: seq<StixObject>, i: nat, kind: string, id: string)
    requires i < |objects| && objects[i].kind == kind && IsLive(objects[i]) && HasId(objects[i], id) && id != ""
    requires IsLatest(objects, i, kind, id)
    ensures Last(objects, kind, id) == Some(objects[i])
  {
    hide HasId, IsLive, Usable, IdOf;
    var n := |objects| - 1;
    UsableIff(objects[n], kind, id);
    if i < n {
      LastIs(objects[..n], i, kind, id);
    }
  }

  /** The object's row: its name, description, link and short name, empty text where there is none. */
  lemma TacticIsWritten(s0: Store, objects: seq<StixObject>, now: int, s1: Store, i: nat, id: string)
    requires Synced(s0, objects, now, s1) && i < |objects| && id != ""
    requires objects[i].kind == "x-mitre-tactic" && IsLive(objects[i]) && HasId(objects[i], id)
    requires IsLatest(objects, i, "x-mitre-tactic", id)
    ensures id in s1.tactics
    ensures s1.tactics[id].name == objects[i].name.GetOr("") && s1.tactics[id].shortName == objects[i].shortName.GetOr("")
    ensures s1.tactics[id].description == objects[i].description
    ensures HasUrl(objects[i], s1.tactics[id].url)
  {
    LastIs(objects, i, TACTIC, id);
    assert TacticDue(s0.tactics, objects, s1.tactics, id);
    UrlIs(objects[i], id);
    hide HasId, HasUrl, IsLatest, Last, TechniquesPresent, TechniqueSynced, UrlOf;
  }

  lemma UrlIs(o: StixObject, id: string)
    requires HasId(o, id)
    ensures HasUrl(o, UrlOf(o))
  {
    var i :| 0 <= i < |o.refs| && FirstMitre(o, i) && o.refs[i].externalId == Some(id);
    FirstReference(o.refs, i);
  }

  lemma TechniqueIsWritten(s0: Store, objects: seq<StixObject>, now: int, s1: Store, i: nat, id: string)
    requires Synced(s0, objects, now, s1) && i < |objects| && id != ""
    requires objects[i].kind == "attack-pattern" && IsLive(objects[i]) && HasId(objects[i], id)
    requires IsLatest(objects, i, "attack-pattern", id)
    ensures id in s1.techniques
    ensures s1.techniques[id].name == objects[i].name.GetOr("") && s1.techniques[id].description == objects[i].description
    ensures s1.techniques[id].isSub == objects[i].isSub && s1.techniques[id].syncedAt == now
    ensures HasUrl(objects[i], s1.techniques[id].url)
  {
    LastIs(objects, i, TECHNIQUE, id);
    assert TechniquePresent(s0.techniques, objects, s1.techniques, id);
    SyncedKeys(s0, objects, s1);
    assert TechniqueSynced(s0, objects, now, s1, id);
    UrlIs(objects[i], id);
    hide HasId, HasUrl, IsLatest, Last, TacticsSynced, TechniquesPresent, UrlOf, PhaseTactics, SyncedParent;
  }

  /** An object names a tactic of the bundle: one of its MITRE phases has the tactic's short name. */
  predicate NamesTactic(o: StixObject, shortName: string) {
    exists p <- o.phases :: p.chain == Some("mitre-attack") && p.name == Some(shortName)
  }

  /** The tactic that has a short name: the last live one of the bundle, by position. */
  lemma {:induction false} OwnerIs(objects: seq<StixObject>, j: nat, id: string)
    requires j < |objects| && objects[j].kind == "x-mitre-tactic" && IsLive(objects[j]) && HasId(objects[j], id) && id != ""
    requires forall m :: j < m < |objects| ==>
      !(Usable(objects[m], TACTIC) && ShortNameOf(objects[m]) == ShortNameOf(objects[j]))
    ensures Owner(objects, ShortNameOf(objects[j])) == Some(id)
  {
    UsableIff(objects[j], TACTIC, id);
    hide HasId, IsLive, Usable, IdOf, Last;
    if j < |objects| - 1 {
      OwnerIs(objects[..|objects| - 1], j, id);
    }
  }

  lemma {:induction false} OwnerFound(objects: seq<StixObject>, short: string) returns (j: nat)
    requires Owner(objects, short).Some?
    ensures HasShortName(objects, j, short) && IsLive(objects[j]) && HasId(objects[j], Owner(objects, short).value)
  {
    hide HasId, IsLive, Usable, IdOf, Last;
    var n := |objects| - 1;
    if Usable(objects[n], TACTIC) && ShortNameOf(objects[n]) == short {
      UsableIff(objects[n], TACTIC, IdOf(objects[n]));
      j := n;
    } else {
      j := OwnerFound(objects[..n], short);
      forall m | j < m < |objects|
        ensures !(Usable(objects[m], TACTIC) && ShortNameOf(objects[m]) == short)
      {
        assert m < n ==> objects[..n][m] == objects[m];
      }
    }
  }

  /** Object j is the last of the bundle's tactics with this short name. */
  predicate HasShortName(objects: seq<StixObject>, j: nat, short: string) {
    && j < |objects| && objects[j].kind == "x-mitre-tactic" && objects[j].shortName.GetOr("") == short
    && forall m :: j < m < |objects| ==> !(Usable(objects[m], TACTIC) && ShortNameOf(objects[m]) == short)
  }

  /** Object j is the tactic of this id that has a short name of the technique's object, and t is its row id. */
  ghost predicate IsTacticOf(objects: seq<StixObject>, s: Store, o: StixObject, t: nat, short: string, j: nat, tactic: string) {
    && NamesTactic(o, short) && HasShortName(objects, j, short) && IsLive(objects[j]) && HasId(objects[j], tactic)
    && tactic != "" && tactic in s.tactics && s.tactics[tactic].id == t
  }

  /** The technique's object names a tactic of the bundle that has this row id. */
  ghost predicate IsUnder(objects: seq<StixObject>, s: Store, o: StixObject, t: nat) {
    exists short, j: nat, tactic :: IsTacticOf(objects, s, o, t, short, j, tactic)
  }

  /** A technique is under exactly the tactics of the bundle whose short names its MITRE phases name. */
  lemma TechniqueIsUnder(s0: Store, objects: seq<StixObject>, now: int, s1: Store, i: nat, id: string, t: nat)
    requires Synced(s0, objects, now, s1) && i < |objects| && id != ""
    requires objects[i].kind == "attack-pattern" && IsLive(objects[i]) && HasId(objects[i], id)
    requires IsLatest(objects, i, "attack-pattern", id)
    ensures id in s1.techniques
    ensures t in s1.techniques[id].tactics <==> IsUnder(objects, s1, objects[i], t)
  {
    var o := objects[i];
    LastIs(objects, i, TECHNIQUE, id);
    SyncedKeys(s0, objects, s1);
    assert TechniquePresent(s0.techniques, objects, s1.techniques, id);
    assert TechniqueSynced(s0, objects, now, s1, id);
    assert s1.techniques[id].tactics == PhaseTactics(objects, s1.tactics, o);
    hide TacticsSynced, TechniquesPresent, UrlOf, SyncedParent, IsLatest, WrittenTechnique;
    UnderIff(objects, s1, o, t);
  }

  lemma UnderIff(objects: seq<StixObject>, s: Store, o: StixObject, t: nat)
    requires forall id :: Last(objects, TACTIC, id).Some? ==> id in s.tactics
    ensures t in PhaseTactics(objects, s.tactics, o) <==> IsUnder(objects, s, o, t)
  {
    hide IsTacticOf, Last, Owner;
    if t in PhaseTactics(objects, s.tactics, o) {
      var name :| name in PhaseNames(o.phases) && name.Some? && Owner(objects, name.value).Some?
                  && s.tactics[Owner(objects, name.value).value].id == t;
      hide PhaseTactics;
      NamedIsUnder(objects, s, o, t, name.value);
    }
    if IsUnder(objects, s, o, t) {
      var short, j: nat, tactic :| IsTacticOf(objects, s, o, t, short, j, tactic);
      UnderIsNamed(objects, s, o, t, short, j, tactic);
    }
  }

  lemma NamedIsUnder(objects: seq<StixObject>, s: Store, o: StixObject, t: nat, short: string)
    requires forall id :: Last(objects, TACTIC, id).Some? ==> id in s.tactics
    requires Some(short) in PhaseNames(o.phases) && Owner(objects, short).Some?
    requires s.tactics[Owner(objects, short).value].id == t
    ensures IsUnder(objects, s, o, t)
  {
    hide HasId, IsLive, Last, Owner, HasShortName;
    var j := OwnerFound(objects, short);
    OwnerHasId(objects, short);
    assert IsTacticOf(objects, s, o, t, short, j, Owner(objects, short).value);
  }

  lemma UnderIsNamed(objects: seq<StixObject>, s: Store, o: StixObject, t: nat, short: string, j: nat, tactic: string)
    requires IsTacticOf(objects, s, o, t, short, j, tactic)
    ensures Some(short) in PhaseNames(o.phases) && Owner(objects, short) == Some(tactic) && s.tactics[tactic].id == t
  {
    hide HasId, IsLive, Last, Usable, Owner;
    OwnerIs(objects, j, tactic);
  }

  lemma OwnerHasId(objects: seq<StixObject>, short: string)
    requires Owner(objects, short).Some?
    ensures Owner(objects, short).value != ""
  {
    var o := Last(objects, TACTIC, Owner(objects, short).value);
    UsableIff(o.value, TACTIC, Owner(objects, short).value);
    hide HasId;
  }

  /** What the bundle does not mention stays as it is, and a technique keeps its parent unless it is a dotted sub-technique. */
  lemma UnmentionedStays(s0: Store, objects: seq<StixObject>, now: int, s1: Store, id: string)
    requires Synced(s0, objects, now, s1)
    ensures (forall o <- objects :: !(o.kind == "x-mitre-tactic" && IsLive(o) && HasId(o, id))) && id in s0.tactics ==>
              id in s1.tactics && s1.tactics[id] == s0.tactics[id]
    ensures (forall o <- objects :: !(o.kind == "attack-pattern" && IsLive(o) && HasId(o, id))) && id in s0.techniques ==>
              id in s1.techniques && s1.techniques[id] == s0.techniques[id]
    ensures id in s0.techniques && id in s1.techniques && !(s1.techniques[id].isSub && '.' in id) ==>
              s1.techniques[id].parent == s0.techniques[id].parent
  {
    SyncedKeys(s0, objects, s1);
    assert TacticDue(s0.tactics, objects, s1.tactics, id);
    assert TechniquePresent(s0.techniques, objects, s1.techniques, id);
    assert TechniqueSynced(s0, objects, now, s1, id);
    var tactic, technique := Last(objects, TACTIC, id), Last(objects, TECHNIQUE, id);
    if tactic.Some? {
      UsableIff(tactic.value, TACTIC, id);
    }
    if technique.Some? {
      UsableIff(technique.value, TECHNIQUE, id);
    }
    hide HasId, IsLive, Usable, IdOf, TacticsSynced, TechniquesPresent, PhaseTactics;
  }
}
