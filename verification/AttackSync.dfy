/** Syncing the ATT&CK tables from a bundle: two upsert loops and a loop that links parents. */
module AttackSync {
  import opened Wrappers
  import opened Text
  import opened AttackBundle

  // ---------------------------------------------------------------- one upsert

  function UpsertedTactic(s: Store, o: StixObject): Store {
    var id := IdOf(o);
    if id in s.tactics then s.(tactics := s.tactics[id := WrittenTactic(o, s.tactics[id].id)])
    else s.(tactics := s.tactics[id := WrittenTactic(o, s.nextTactic)], nextTactic := s.nextTactic + 1)
  }

  lemma GrownNew(ids0: map<string, nat>, next0: nat, ids: map<string, nat>, next: nat, id: string)
    requires Grown(ids0, next0, ids, next) && id !in ids
    ensures Grown(ids0, next0, ids[id := next], next + 1)
  {
  }

  lemma GrownSame(ids: map<string, nat>, next: nat)
    ensures Grown(ids, next, ids, next)
  {
  }

  lemma LastSnoc(objects: seq<StixObject>, o: StixObject, kind: string, id: string)
    ensures Last(objects + [o], kind, id) == if Usable(o, kind) && IdOf(o) == id then Some(o) else Last(objects, kind, id)
  {
    assert (objects + [o])[..|objects + [o]| - 1] == objects;
  }

  lemma TacticUpsertDue(rows0: map<string, TacticRow>, objects: seq<StixObject>, rows: map<string, TacticRow>,
                        o: StixObject, rowId: nat, id: string)
    requires TacticDue(rows0, objects, rows, id)
    ensures Usable(o, TACTIC) ==> TacticDue(rows0, objects + [o], rows[IdOf(o) := WrittenTactic(o, rowId)], id)
    ensures !Usable(o, TACTIC) ==> TacticDue(rows0, objects + [o], rows, id)
  {
    hide Usable, IdOf, Last;
    LastSnoc(objects, o, TACTIC, id);
  }

  lemma TacticUpsert(s0: Store, objects: seq<StixObject>, s: Store, o: StixObject)
    requires TacticsSynced(s0, objects, s)
    ensures Usable(o, TACTIC) ==> TacticsSynced(s0, objects + [o], UpsertedTactic(s, o))
    ensures !Usable(o, TACTIC) ==> TacticsSynced(s0, objects + [o], s)
  {
    hide Usable, IdOf, Last, Grown, WrittenTactic, TacticDue;
    var k, s' := IdOf(o), UpsertedTactic(s, o);
    var rowId := if k in s.tactics then s.tactics[k].id else s.nextTactic;
    forall id
      ensures Usable(o, TACTIC) ==> TacticDue(s0.tactics, objects + [o], s'.tactics, id)
      ensures !Usable(o, TACTIC) ==> TacticDue(s0.tactics, objects + [o], s.tactics, id)
    {
      TacticUpsertDue(s0.tactics, objects, s.tactics, o, rowId, id);
    }
    WrittenTacticId(o, rowId);
    if k in s.tactics {
      assert TacticIds(s'.tactics) == TacticIds(s.tactics);
    } else {
      GrownNew(TacticIds(s0.tactics), s0.nextTactic, TacticIds(s.tactics), s.nextTactic, k);
      assert TacticIds(s'.tactics) == TacticIds(s.tactics)[k := s.nextTactic];
    }
  }

  lemma WrittenTacticId(o: StixObject, id: nat)
    ensures WrittenTactic(o, id).id == id
  {
  }

  /** The tactic rows by short name, as one bundle gives them. */
  ghost predicate ShortNames(objects: seq<StixObject>, tactics: map<string, TacticRow>, byShortName: map<string, nat>) {
    && (forall n :: n in byShortName <==> Owner(objects, n).Some?)
    && (forall n <- byShortName ::
          Owner(objects, n).value in tactics && byShortName[n] == tactics[Owner(objects, n).value].id)
  }

  lemma ShortNameUpsert(objects: seq<StixObject>, tactics: map<string, TacticRow>, byShortName: map<string, nat>,
                        o: StixObject, tactics': map<string, TacticRow>)
    requires ShortNames(objects, tactics, byShortName)
    requires IdOf(o) in tactics' && (forall k <- tactics :: k in tactics' && tactics'[k].id == tactics[k].id)
    ensures Usable(o, TACTIC) ==>
              ShortNames(objects + [o], tactics', byShortName[ShortNameOf(o) := tactics'[IdOf(o)].id])
  {
    hide Usable, IdOf;
    forall n ensures Owner(objects + [o], n) ==
                     if Usable(o, TACTIC) && ShortNameOf(o) == n then Some(IdOf(o)) else Owner(objects, n)
    {
      OwnerSnoc(objects, o, n);
    }
  }

  lemma OwnerSnoc(objects: seq<StixObject>, o: StixObject, n: string)
    ensures Owner(objects + [o], n) ==
            if Usable(o, TACTIC) && ShortNameOf(o) == n then Some(IdOf(o)) else Owner(objects, n)
  {
    assert (objects + [o])[..|objects + [o]| - 1] == objects;
  }

  lemma ShortNameSkip(objects: seq<StixObject>, tactics: map<string, TacticRow>, byShortName: map<string, nat>, o: StixObject)
    requires ShortNames(objects, tactics, byShortName) && !Usable(o, TACTIC)
    ensures ShortNames(objects + [o], tactics, byShortName)
  {
    hide Usable;
    forall n ensures Owner(objects + [o], n) == Owner(objects, n) {
      OwnerSnoc(objects, o, n);
    }
  }

  lemma CountSnoc(objects: seq<StixObject>, o: StixObject, kind: string)
    ensures UsableCount(objects + [o], kind) == UsableCount(objects, kind) + (if Usable(o, kind) then 1 else 0)
  {
    assert (objects + [o])[..|objects + [o]| - 1] == objects;
  }

  // ---------------------------------------------------------------- technique rows before parents are linked

  ghost predicate TechniqueWritten(rows0: map<string, TechniqueRow>, seen: seq<StixObject>, now: int,
                                   tacticsOf: StixObject -> set<nat>, rows1: map<string, TechniqueRow>, id: string)
  {
    var o := Last(seen, TECHNIQUE, id);
    && TechniquePresent(rows0, seen, rows1, id)
    && (id in rows1 ==>
          rows1[id] ==
          if o.None? then rows0[id]
          else WrittenTechnique(o.value, rows1[id].id, ParentBefore(rows0, id), now, tacticsOf(o.value)))
  }

  ghost predicate TechniquesWritten(s0: Store, seen: seq<StixObject>, now: int, tacticsOf: StixObject -> set<nat>, s1: Store) {
    && (forall id :: TechniqueWritten(s0.techniques, seen, now, tacticsOf, s1.techniques, id))
    && Grown(TechniqueIds(s0.techniques), s0.nextTechnique, TechniqueIds(s1.techniques), s1.nextTechnique)
  }

  function UpsertedTechnique(s: Store, o: StixObject, now: int, tactics: set<nat>): Store {
    var id := IdOf(o);
    if id in s.techniques then
      s.(techniques := s.techniques[id := WrittenTechnique(o, s.techniques[id].id, s.techniques[id].parent, now, tactics)])
    else
      s.(techniques := s.techniques[id := WrittenTechnique(o, s.nextTechnique, None, now, tactics)],
         nextTechnique := s.nextTechnique + 1)
  }

  lemma WrittenTechniqueIs(o: StixObject, id: nat, parent: Option<nat>, now: int, tactics: set<nat>)
    ensures WrittenTechnique(o, id, parent, now, tactics).id == id
    ensures WrittenTechnique(o, id, parent, now, tactics).parent == parent
  {
  }

  /** Until the last loop, no technique has changed parent. */
  lemma ParentUnchanged(rows0: map<string, TechniqueRow>, seen: seq<StixObject>, now: int,
                        tacticsOf: StixObject -> set<nat>, rows: map<string, TechniqueRow>, id: string)
    requires TechniqueWritten(rows0, seen, now, tacticsOf, rows, id)
    ensures ParentBefore(rows, id) == ParentBefore(rows0, id)
  {
    hide Last;
  }

  lemma TechniqueUpsertWritten(rows0: map<string, TechniqueRow>, seen: seq<StixObject>, now: int,
                               tacticsOf: StixObject -> set<nat>, rows: map<string, TechniqueRow>, o: StixObject,
                               rowId: nat, id: string)
    requires TechniqueWritten(rows0, seen, now, tacticsOf, rows, id)
    ensures Usable(o, TECHNIQUE) && ParentBefore(rows, IdOf(o)) == ParentBefore(rows0, IdOf(o)) ==>
              TechniqueWritten(rows0, seen + [o], now, tacticsOf,
                               rows[IdOf(o) := WrittenTechnique(o, rowId, ParentBefore(rows, IdOf(o)), now, tacticsOf(o))], id)
    ensures !Usable(o, TECHNIQUE) ==> TechniqueWritten(rows0, seen + [o], now, tacticsOf, rows, id)
  {
    hide Usable, IdOf, Last, ParentBefore;
    LastSnoc(seen, o, TECHNIQUE, id);
  }

  lemma TechniqueUpsert(s0: Store, seen: seq<StixObject>, now: int, tacticsOf: StixObject -> set<nat>, s: Store, o: StixObject)
    requires TechniquesWritten(s0, seen, now, tacticsOf, s)
    ensures Usable(o, TECHNIQUE) ==>
              TechniquesWritten(s0, seen + [o], now, tacticsOf, UpsertedTechnique(s, o, now, tacticsOf(o)))
    ensures !Usable(o, TECHNIQUE) ==> TechniquesWritten(s0, seen + [o], now, tacticsOf, s)
  {
    hide Usable, IdOf, Last, Grown, WrittenTechnique, TechniqueWritten;
    var k, s' := IdOf(o), UpsertedTechnique(s, o, now, tacticsOf(o));
    var rowId := if k in s.techniques then s.techniques[k].id else s.nextTechnique;
    ParentUnchanged(s0.techniques, seen, now, tacticsOf, s.techniques, k);
    forall id
      ensures Usable(o, TECHNIQUE) ==> TechniqueWritten(s0.techniques, seen + [o], now, tacticsOf, s'.techniques, id)
      ensures !Usable(o, TECHNIQUE) ==> TechniqueWritten(s0.techniques, seen + [o], now, tacticsOf, s.techniques, id)
    {
      TechniqueUpsertWritten(s0.techniques, seen, now, tacticsOf, s.techniques, o, rowId, id);
    }
    WrittenTechniqueIs(o, rowId, ParentBefore(s.techniques, k), now, tacticsOf(o));
    if k in s.techniques {
      assert TechniqueIds(s'.techniques) == TechniqueIds(s.techniques);
    } else {
      GrownNew(TechniqueIds(s0.techniques), s0.nextTechnique, TechniqueIds(s.techniques), s.nextTechnique, k);
      assert TechniqueIds(s'.techniques) == TechniqueIds(s.techniques)[k := s.nextTechnique];
    }
  }

  // ---------------------------------------------------------------- the database

  class AttackDatabase {
    var tactics: map<string, TacticRow>
    var nextTactic: nat
    var techniques: map<string, TechniqueRow>
    var nextTechnique: nat

    ghost function Contents(): Store
      reads this
    {
      Store(tactics, nextTactic, techniques, nextTechnique)
    }

    constructor ()
      ensures Contents() == EMPTY
    {
      tactics, nextTactic, techniques, nextTechnique := map[], 1, map[], 1;
    }

    method SyncTactics(objects: seq<StixObject>) returns (byShortName: map<string, nat>, count: nat)
      modifies this`tactics, this`nextTactic
      ensures TacticsSynced(old(Contents()), objects, Contents())
      ensures ShortNames(objects, tactics, byShortName)
      ensures count == UsableCount(objects, TACTIC)
    {
      hide TacticsSynced, ShortNames, Usable, IdOf, UsableCount;
      byShortName, count := map[], 0;
      ghost var s0 := Contents();
      NothingSynced(s0);
      var i := 0;
      while i < |objects|
        invariant i <= |objects|
        invariant Contents() == s0.(tactics := tactics, nextTactic := nextTactic)
        invariant TacticsSynced(s0, objects[..i], Contents())
        invariant ShortNames(objects[..i], tactics, byShortName)
        invariant count == UsableCount(objects[..i], TACTIC)
      {
        var o := objects[i];
        ghost var before := Contents();
        assert objects[..i + 1] == objects[..i] + [o];
        TacticUpsert(s0, objects[..i], before, o);
        CountSnoc(objects[..i], o, TACTIC);
        i := i + 1;
        if !Usable(o, TACTIC) {
          ShortNameSkip(objects[..i - 1], tactics, byShortName, o);
          continue;
        }
        var attackId := IdOf(o);
        var rowId := nextTactic;
        if attackId in tactics {
          rowId := tactics[attackId].id;
        } else {
          nextTactic := nextTactic + 1;
        }
        tactics := tactics[attackId := TacticRow(rowId, o.name.GetOr(""), ShortNameOf(o), o.description, UrlOf(o))];
        ShortNameUpsert(objects[..i - 1], before.tactics, byShortName, o, tactics);
        byShortName := byShortName[ShortNameOf(o) := rowId];
        count := count + 1;
        assert Contents() == UpsertedTactic(before, o);
      }
      assert objects[..|objects|] == objects;
    }

    method SyncTechniques(objects: seq<StixObject>, now: int, byShortName: map<string, nat>)
      returns (byAttackId: map<string, nat>, count: nat)
      modifies this`techniques, this`nextTechnique
      ensures TechniquesWritten(old(Contents()), objects, now, o => NamedTactics(byShortName, o), Contents())
      ensures forall id :: id in byAttackId <==> Last(objects, TECHNIQUE, id).Some?
      ensures forall id <- byAttackId :: id in techniques && byAttackId[id] == techniques[id].id
      ensures count == UsableCount(objects, TECHNIQUE)
    {
      hide TechniquesWritten, Usable, IdOf, UsableCount, NamedTactics, Last;
      byAttackId, count := map[], 0;
      ghost var s0 := Contents();
      ghost var tacticsOf := o => NamedTactics(byShortName, o);
      NothingWritten(s0, now, tacticsOf);
      var i := 0;
      while i < |objects|
        invariant i <= |objects|
        invariant Contents() == s0.(techniques := techniques, nextTechnique := nextTechnique)
        invariant TechniquesWritten(s0, objects[..i], now, tacticsOf, Contents())
        invariant forall id :: id in byAttackId <==> Last(objects[..i], TECHNIQUE, id).Some?
        invariant forall id <- byAttackId :: id in techniques && byAttackId[id] == techniques[id].id
        invariant count == UsableCount(objects[..i], TECHNIQUE)
      {
        var o := objects[i];
        ghost var before := Contents();
        assert objects[..i + 1] == objects[..i] + [o];
        TechniqueUpsert(s0, objects[..i], now, tacticsOf, before, o);
        CountSnoc(objects[..i], o, TECHNIQUE);
        forall id ensures Last(objects[..i + 1], TECHNIQUE, id) ==
                          if Usable(o, TECHNIQUE) && IdOf(o) == id then Some(o) else Last(objects[..i], TECHNIQUE, id)
        {
          LastSnoc(objects[..i], o, TECHNIQUE, id);
        }
        i := i + 1;
        if !Usable(o, TECHNIQUE) {
          continue;
        }
        var attackId := IdOf(o);
        var rowId, parent := nextTechnique, None;
        if attackId in techniques {
          rowId, parent := techniques[attackId].id, techniques[attackId].parent;
        } else {
          nextTechnique := nextTechnique + 1;
        }
        techniques := techniques[attackId := TechniqueRow(
          rowId, o.name.GetOr(""), o.description, o.isSub, parent, UrlOf(o), now, NamedTactics(byShortName, o))];
        byAttackId := byAttackId[attackId := rowId];
        count := count + 1;
        assert Contents() == UpsertedTechnique(before, o, now, tacticsOf(o));
      }
      assert objects[..|objects|] == objects;
    }

    method LinkParents(byAttackId: map<string, nat>)
      requires byAttackId.Keys <= techniques.Keys
      modifies this`techniques
      ensures techniques.Keys == old(techniques).Keys
      ensures forall id <- techniques :: techniques[id] == Linked(byAttackId, old(techniques), id)
    {
      hide ParentId;
      var todo := byAttackId.Keys;
      while todo != {}
        invariant todo <= byAttackId.Keys && techniques.Keys == old(techniques).Keys
        invariant forall id <- techniques ::
                    techniques[id] == if id in todo then old(techniques)[id] else Linked(byAttackId, old(techniques), id)
        decreases todo
      {
        var attackId :| attackId in todo;
        todo := todo - {attackId};
        var technique := techniques[attackId];
        if technique.isSub && '.' in attackId {
          var parentId := ParentId(attackId);
          var parent := if parentId in byAttackId then Some(byAttackId[parentId]) else None;
          techniques := techniques[attackId := technique.(parent := parent)];
        }
      }
    }

    /** `fetch_and_sync`, the bundle given. */
    method FetchAndSync(objects: seq<StixObject>, now: int) returns (tacticCount: nat, techniqueCount: nat)
      modifies this
      ensures Synced(old(Contents()), objects, now, Contents())
      ensures tacticCount == UsableCount(objects, TACTIC) && techniqueCount == UsableCount(objects, TECHNIQUE)
    {
      hide Synced, TacticsSynced, TechniquesWritten, ShortNames, UsableCount, Last, Linked;
      ghost var s0 := Contents();
      var byShortName, byAttackId;
      byShortName, tacticCount := SyncTactics(objects);
      ghost var s1 := Contents();
      byAttackId, techniqueCount := SyncTechniques(objects, now, byShortName);
      ghost var s2 := Contents();
      LinkParents(byAttackId);
      AllSynced(s0, objects, now, byShortName, byAttackId, s1, s2, Contents());
    }
  }

  // ---------------------------------------------------------------- the loops put together

  /** `[tactic_by_shortname[name] for name in phase_shortnames if name in tactic_by_shortname]` */
  function NamedTactics(byShortName: map<string, nat>, o: StixObject): set<nat> {
    set name | name in PhaseNames(o.phases) && name.Some? && name.value in byShortName :: byShortName[name.value]
  }

  function Linked(byAttackId: map<string, nat>, rows: map<string, TechniqueRow>, id: string): TechniqueRow
    requires id in rows
  {
    if id in byAttackId && rows[id].isSub && '.' in id then
      rows[id].(parent := if ParentId(id) in byAttackId then Some(byAttackId[ParentId(id)]) else None)
    else rows[id]
  }

  lemma NothingSynced(s: Store)
    ensures TacticsSynced(s, [], s) && ShortNames([], s.tactics, map[]) && UsableCount([], TACTIC) == 0
  {
    GrownSame(TacticIds(s.tactics), s.nextTactic);
  }

  lemma NothingWritten(s: Store, now: int, tacticsOf: StixObject -> set<nat>)
    ensures TechniquesWritten(s, [], now, tacticsOf, s) && UsableCount([], TECHNIQUE) == 0
    ensures forall id :: Last([], TECHNIQUE, id).None?
  {
    GrownSame(TechniqueIds(s.techniques), s.nextTechnique);
  }

  lemma NamedAre(objects: seq<StixObject>, tactics: map<string, TacticRow>, byShortName: map<string, nat>, o: StixObject)
    requires ShortNames(objects, tactics, byShortName)
    requires forall id :: Last(objects, TACTIC, id).Some? ==> id in tactics
    ensures NamedTactics(byShortName, o) == PhaseTactics(objects, tactics, o)
  {
    hide Last, PhaseNames;
  }

  lemma LinkedPresent(s0: Store, objects: seq<StixObject>, now: int, tacticsOf: StixObject -> set<nat>, s2: Store,
                      byAttackId: map<string, nat>, s3: Store)
    requires TechniquesWritten(s0, objects, now, tacticsOf, s2)
    requires s3.techniques.Keys == s2.techniques.Keys && s3.nextTechnique == s2.nextTechnique
    requires forall id <- s3.techniques :: s3.techniques[id] == Linked(byAttackId, s2.techniques, id)
    ensures TechniquesPresent(s0, objects, s3)
    ensures TechniqueIds(s3.techniques) == TechniqueIds(s2.techniques)
  {
    hide Last, Grown, ParentId, WrittenTechnique;
    forall id ensures TechniquePresent(s0.techniques, objects, s3.techniques, id) {
      assert TechniqueWritten(s0.techniques, objects, now, tacticsOf, s2.techniques, id);
      assert id in s3.techniques.Keys <==> id in s2.techniques.Keys;
    }
    forall id | id in s3.techniques ensures s3.techniques[id].id == s2.techniques[id].id {
    }
    assert TechniqueIds(s3.techniques) == TechniqueIds(s2.techniques);
  }

  /** A row that the loops wrote and linked is the row a sync owes. */
  lemma LinkedIsSynced(s0: Store, objects: seq<StixObject>, now: int, tacticsOf: StixObject -> set<nat>, s2: Store,
                       byAttackId: map<string, nat>, s3: Store, id: string)
    requires TacticsSynced(s0, objects, s3) && TechniquesPresent(s0, objects, s3)
    requires TechniqueWritten(s0.techniques, objects, now, tacticsOf, s2.techniques, id)
    requires forall o :: Last(objects, TECHNIQUE, id) == Some(o) ==>
               (SyncedKeys(s0, objects, s3); tacticsOf(o) == PhaseTactics(objects, s3.tactics, o))
    requires forall k :: k in byAttackId <==> Last(objects, TECHNIQUE, k).Some?
    requires forall k <- byAttackId :: k in s2.techniques && byAttackId[k] == s2.techniques[k].id
    requires s3.techniques.Keys == s2.techniques.Keys
    requires forall k <- s3.techniques :: s3.techniques[k].id == s2.techniques[k].id
    requires id in s3.techniques ==> s3.techniques[id] == Linked(byAttackId, s2.techniques, id)
    ensures TechniqueSynced(s0, objects, now, s3, id)
  {
    hide Last, PhaseTactics, TacticsSynced, TechniquesPresent, ParentId;
    SyncedKeys(s0, objects, s3);
  }

  lemma AllSynced(s0: Store, objects: seq<StixObject>, now: int, byShortName: map<string, nat>,
                  byAttackId: map<string, nat>, s1: Store, s2: Store, s3: Store)
    requires TacticsSynced(s0, objects, s1) && ShortNames(objects, s1.tactics, byShortName)
    requires s1.techniques == s0.techniques && s1.nextTechnique == s0.nextTechnique
    requires TechniquesWritten(s1, objects, now, o => NamedTactics(byShortName, o), s2)
    requires s2.tactics == s1.tactics && s2.nextTactic == s1.nextTactic
    requires forall id :: id in byAttackId <==> Last(objects, TECHNIQUE, id).Some?
    requires forall id <- byAttackId :: id in s2.techniques && byAttackId[id] == s2.techniques[id].id
    requires s3.tactics == s2.tactics && s3.nextTactic == s2.nextTactic && s3.nextTechnique == s2.nextTechnique
    requires s3.techniques.Keys == s2.techniques.Keys
    requires forall id <- s3.techniques :: s3.techniques[id] == Linked(byAttackId, s2.techniques, id)
    ensures Synced(s0, objects, now, s3)
  {
    hide Last, Grown, ShortNames, PhaseTactics, NamedTactics, TacticDue;
    hide TechniquePresent, TechniqueWritten, TechniqueSynced, Linked;
    var tacticsOf := o => NamedTactics(byShortName, o);
    LinkedPresent(s1, objects, now, tacticsOf, s2, byAttackId, s3);
    assert TacticsSynced(s0, objects, s3);
    assert TechniquesPresent(s0, objects, s3);
    SyncedKeys(s0, objects, s3);
    forall k | k in s3.techniques ensures s3.techniques[k].id == s2.techniques[k].id {
      assert TechniqueIds(s3.techniques)[k] == TechniqueIds(s2.techniques)[k];
    }
    forall id ensures TechniqueSynced(s0, objects, now, s3, id) {
      forall o | Last(objects, TECHNIQUE, id) == Some(o) ensures tacticsOf(o) == PhaseTactics(objects, s3.tactics, o) {
        NamedAre(objects, s3.tactics, byShortName, o);
      }
      LinkedIsSynced(s0, objects, now, tacticsOf, s2, byAttackId, s3, id);
    }
  }
}
