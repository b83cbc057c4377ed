/** What holds of the ATT&CK tables after any sequence of syncs. */
module AttackTheorems {
  import opened Wrappers
  import opened Text
  import opened AttackBundle

  // ---------------------------------------------------------------- the invariant

  /** A linked row is a dotted id under the row of what precedes its first dot, which itself has no parent. */
  predicate WellParented(rows: map<string, TechniqueRow>, id: string) {
    id in rows && rows[id].parent.Some? ==>
      && '.' in id
      && ParentId(id) in rows && rows[id].parent == Some(rows[ParentId(id)].id)
      && rows[ParentId(id)].parent.None?
  }

  predicate TacticIdExists(tactics: map<string, TacticRow>, tacticId: nat) {
    exists k :: k in tactics && tactics[k].id == tacticId
  }

  predicate TacticsExist(tactics: map<string, TacticRow>, techniques: map<string, TechniqueRow>, id: string) {
    id in techniques ==> forall t <- techniques[id].tactics :: TacticIdExists(tactics, t)
  }

  /** Row ids are unique, parents form a forest one level deep, and every tactic link leads to a tactic. */
  ghost predicate StoreOk(s: Store) {
    && Numbered(TacticIds(s.tactics), s.nextTactic)
    && Numbered(TechniqueIds(s.techniques), s.nextTechnique)
    && (forall id :: WellParented(s.techniques, id))
    && (forall id :: TacticsExist(s.tactics, s.techniques, id))
  }

  // ---------------------------------------------------------------- one sync

  lemma GrownNumbered(ids0: map<string, nat>, next0: nat, ids1: map<string, nat>, next1: nat)
    requires Numbered(ids0, next0) && Grown(ids0, next0, ids1, next1)
    ensures Numbered(ids1, next1)
  {
  }

  lemma KeptRow(s0: Store, objects: seq<StixObject>, s1: Store, id: string)
    requires TechniquesPresent(s0, objects, s1) && id in s0.techniques
    ensures id in s1.techniques && s1.techniques[id].id == s0.techniques[id].id
  {
    hide Last;
    assert id in TechniqueIds(s0.techniques);
    assert id in TechniqueIds(s1.techniques);
  }

  lemma KeptTactic(s0: Store, objects: seq<StixObject>, s1: Store, id: string)
    requires TacticsSynced(s0, objects, s1) && id in s0.tactics
    ensures id in s1.tactics && s1.tactics[id].id == s0.tactics[id].id
  {
    hide Last, TacticDue;
    assert id in TacticIds(s0.tactics);
    assert id in TacticIds(s1.tactics);
  }

  lemma ParentHasNoDot(id: string)
    ensures '.' !in ParentId(id)
  {
  }

  /** A technique without a dot in its id keeps the parent it had, which is none. */
  lemma UndottedHasNoParent(s0: Store, objects: seq<StixObject>, now: int, s1: Store, id: string)
    requires Synced(s0, objects, now, s1) && (forall k :: WellParented(s0.techniques, k))
    requires '.' !in id && id in s1.techniques
    ensures s1.techniques[id].parent.None?
  {
    hide Last, TacticsSynced, PhaseTactics, ParentId, Grown;
    assert TechniqueSynced(s0, objects, now, s1, id);
    assert TechniquePresent(s0.techniques, objects, s1.techniques, id);
    assert WellParented(s0.techniques, id);
  }

  lemma StaysWellParented(s0: Store, objects: seq<StixObject>, now: int, s1: Store, id: string)
    requires Synced(s0, objects, now, s1) && (forall k :: WellParented(s0.techniques, k))
    ensures WellParented(s1.techniques, id)
  {
    hide Last, TacticsSynced, PhaseTactics, ParentId, Grown, TechniquesPresent;
    if id in s1.techniques && s1.techniques[id].parent.Some? {
      SyncedKeys(s0, objects, s1);
      ParentHasNoDot(id);
      assert TechniqueSynced(s0, objects, now, s1, id);
      assert WellParented(s0.techniques, id);
      PresentAt(s0, objects, s1, id);
      if ParentId(id) in s0.techniques {
        KeptRow(s0, objects, s1, ParentId(id));
      }
      if ParentId(id) in s1.techniques {
        UndottedHasNoParent(s0, objects, now, s1, ParentId(id));
      }
    }
  }

  lemma PresentAt(s0: Store, objects: seq<StixObject>, s1: Store, id: string)
    requires TechniquesPresent(s0, objects, s1)
    ensures TechniquePresent(s0.techniques, objects, s1.techniques, id)
  {
    hide TechniquePresent, Grown;
  }

  lemma PhaseTacticsExist(s0: Store, objects: seq<StixObject>, s1: Store, o: StixObject, t: nat)
    requires TacticsSynced(s0, objects, s1)
    requires (SyncedKeys(s0, objects, s1); t in PhaseTactics(objects, s1.tactics, o))
    ensures TacticIdExists(s1.tactics, t)
  {
    hide Last, TacticsSynced, PhaseNames;
    SyncedKeys(s0, objects, s1);
  }

  lemma StaysTacticsExist(s0: Store, objects: seq<StixObject>, now: int, s1: Store, id: string)
    requires Synced(s0, objects, now, s1) && TacticsExist(s0.tactics, s0.techniques, id)
    ensures TacticsExist(s1.tactics, s1.techniques, id)
  {
    hide Last, PhaseTactics, TacticsSynced, TechniquesPresent, TacticIdExists, SyncedParent;
    SyncedKeys(s0, objects, s1);
    if id in s1.techniques {
      assert TechniqueSynced(s0, objects, now, s1, id);
      PresentAt(s0, objects, s1, id);
      forall t | t in s1.techniques[id].tactics ensures TacticIdExists(s1.tactics, t) {
        var o := Last(objects, TECHNIQUE, id);
        if o.Some? {
          PhaseTacticsExist(s0, objects, s1, o.value, t);
        } else {
          assert TacticIdExists(s0.tactics, t);
          StillExists(s0, objects, s1, t);
        }
      }
    }
  }

  lemma StillExists(s0: Store, objects: seq<StixObject>, s1: Store, t: nat)
    requires TacticsSynced(s0, objects, s1) && TacticIdExists(s0.tactics, t)
    ensures TacticIdExists(s1.tactics, t)
  {
    hide TacticsSynced;
    var k :| k in s0.tactics && s0.tactics[k].id == t;
    KeptTactic(s0, objects, s1, k);
  }

  /** A sync keeps the invariant, loses no row, and changes no row's id. */
  lemma SyncKeeps(s0: Store, objects: seq<StixObject>, now: int, s1: Store)
    requires Synced(s0, objects, now, s1) && StoreOk(s0)
    ensures StoreOk(s1)
    ensures forall id <- s0.techniques :: id in s1.techniques && s1.techniques[id].id == s0.techniques[id].id
    ensures forall id <- s0.tactics :: id in s1.tactics && s1.tactics[id].id == s0.tactics[id].id
  {
    hide Numbered, Grown, WellParented, TacticsExist, TacticDue, TechniquePresent, TechniqueSynced;
    GrownNumbered(TacticIds(s0.tactics), s0.nextTactic, TacticIds(s1.tactics), s1.nextTactic);
    GrownNumbered(TechniqueIds(s0.techniques), s0.nextTechnique, TechniqueIds(s1.techniques), s1.nextTechnique);
    forall id ensures WellParented(s1.techniques, id) {
      StaysWellParented(s0, objects, now, s1, id);
    }
    forall id ensures TacticsExist(s1.tactics, s1.techniques, id) {
      StaysTacticsExist(s0, objects, now, s1, id);
    }
    forall id | id in s0.techniques ensures id in s1.techniques && s1.techniques[id].id == s0.techniques[id].id {
      KeptRow(s0, objects, s1, id);
    }
    forall id | id in s0.tactics ensures id in s1.tactics && s1.tactics[id].id == s0.tactics[id].id {
      KeptTactic(s0, objects, s1, id);
    }
  }

  // ---------------------------------------------------------------- any sequence of syncs

  datatype SyncRun = SyncRun(objects: seq<StixObject>, now: int)

  /** The stores a sequence of syncs may pass through, from empty tables. */
  ghost predicate History(runs: seq<SyncRun>, stores: seq<Store>) {
    && |stores| == |runs| + 1
    && stores[0] == EMPTY
    && (forall i :: 0 <= i < |runs| ==> Synced(stores[i], runs[i].objects, runs[i].now, stores[i + 1]))
  }

  /** Whatever bundles arrive, the invariant holds all along, and no earlier technique is ever missing or renumbered. */
  lemma {:induction false} HistoryKeeps(runs: seq<SyncRun>, stores: seq<Store>, i: nat, j: nat)
    requires History(runs, stores) && i <= j < |stores|
    ensures StoreOk(stores[j])
    ensures forall id <- stores[i].techniques ::
              id in stores[j].techniques && stores[j].techniques[id].id == stores[i].techniques[id].id
    decreases j
  {
    hide Synced, StoreOk;
    if j == 0 {
      assert StoreOk(EMPTY) by { EmptyOk(); }
    } else {
      var k := j - 1;
      assert Synced(stores[k], runs[k].objects, runs[k].now, stores[k + 1]);
      HistoryKeeps(runs, stores, if i < j then i else k, k);
      SyncKeeps(stores[k], runs[k].objects, runs[k].now, stores[j]);
    }
  }

  lemma EmptyOk()
    ensures StoreOk(EMPTY)
  {
  }

  // ---------------------------------------------------------------- syncing again

  /** The store with a new time stamp on every technique the bundle has. */
  function Restamped(s: Store, objects: seq<StixObject>, now: int): Store {
    s.(techniques := map id | id in s.techniques ::
         if Last(objects, TECHNIQUE, id).Some? then s.techniques[id].(syncedAt := now) else s.techniques[id])
  }

  lemma TacticsAgain(s0: Store, objects: seq<StixObject>, s1: Store, s2: Store)
    requires TacticsSynced(s0, objects, s1) && TacticsSynced(s1, objects, s2)
    ensures s2.tactics == s1.tactics && s2.nextTactic == s1.nextTactic
  {
    hide Last, TacticDue;
    forall id
      ensures id in s2.tactics <==> id in s1.tactics
      ensures id in s1.tactics ==> id in s2.tactics && s2.tactics[id] == s1.tactics[id]
    {
      TacticAgain(s0, objects, s1, s2, id);
    }
    assert s2.tactics == s1.tactics;
  }

  lemma TacticAgain(s0: Store, objects: seq<StixObject>, s1: Store, s2: Store, id: string)
    requires TacticsSynced(s0, objects, s1) && TacticsSynced(s1, objects, s2)
    ensures id in s2.tactics <==> id in s1.tactics
    ensures id in s1.tactics ==> id in s2.tactics && s2.tactics[id] == s1.tactics[id]
  {
    hide Last, Grown, WrittenTactic;
    assert TacticDue(s0.tactics, objects, s1.tactics, id) && TacticDue(s1.tactics, objects, s2.tactics, id);
    if id in s1.tactics {
      KeptTactic(s1, objects, s2, id);
    }
  }

  lemma GrownNowhere(ids0: map<string, nat>, next0: nat, ids1: map<string, nat>, next1: nat)
    requires Grown(ids0, next0, ids1, next1) && (forall id :: id in ids1 <==> id in ids0)
    ensures ids1 == ids0 && next1 == next0
  {
    assert ids1 == ids0;
  }

  lemma TechniqueIdsAgain(s0: Store, objects: seq<StixObject>, s1: Store, s2: Store)
    requires TechniquesPresent(s0, objects, s1) && TechniquesPresent(s1, objects, s2)
    ensures s2.techniques.Keys == s1.techniques.Keys && s2.nextTechnique == s1.nextTechnique
    ensures forall id <- s1.techniques :: s2.techniques[id].id == s1.techniques[id].id
  {
    hide Last, Grown;
    forall id ensures id in s2.techniques <==> id in s1.techniques {
      PresentAt(s0, objects, s1, id);
      PresentAt(s1, objects, s2, id);
    }
    assert s2.techniques.Keys == s1.techniques.Keys;
    GrownNowhere(TechniqueIds(s1.techniques), s1.nextTechnique, TechniqueIds(s2.techniques), s2.nextTechnique);
    forall id | id in s1.techniques ensures s2.techniques[id].id == s1.techniques[id].id {
      assert TechniqueIds(s2.techniques)[id] == TechniqueIds(s1.techniques)[id];
    }
  }

  lemma TechniqueAgain(s0: Store, objects: seq<StixObject>, t1: int, s1: Store, t2: int, s2: Store, id: string)
    requires Synced(s0, objects, t1, s1) && Synced(s1, objects, t2, s2)
    requires s2.tactics == s1.tactics && s2.techniques.Keys == s1.techniques.Keys
    requires forall k <- s1.techniques :: s2.techniques[k].id == s1.techniques[k].id
    requires id in s1.techniques
    ensures s2.techniques[id] ==
            if Last(objects, TECHNIQUE, id).Some? then s1.techniques[id].(syncedAt := t2) else s1.techniques[id]
  {
    hide Last, TacticsSynced, TechniquesPresent, PhaseTactics, ParentId;
    SyncedKeys(s0, objects, s1);
    assert TechniqueSynced(s0, objects, t1, s1, id) && TechniqueSynced(s1, objects, t2, s2, id);
  }

  /** Syncing the same bundle twice changes nothing but the time stamps, whatever ids it repeats. */
  lemma SyncIsIdempotent(s0: Store, objects: seq<StixObject>, t1: int, s1: Store, t2: int, s2: Store)
    requires Synced(s0, objects, t1, s1) && Synced(s1, objects, t2, s2)
    ensures s2 == Restamped(s1, objects, t2)
  {
    hide Last, TacticsSynced, TechniquesPresent, TechniqueSynced;
    TacticsAgain(s0, objects, s1, s2);
    TechniqueIdsAgain(s0, objects, s1, s2);
    forall id | id in s1.techniques
      ensures s2.techniques[id] == Restamped(s1, objects, t2).techniques[id]
    {
      TechniqueAgain(s0, objects, t1, s1, t2, s2, id);
    }
    assert s2.techniques == Restamped(s1, objects, t2).techniques;
  }

  /** After a sync, a dotted sub-technique of the bundle has a parent exactly when the bundle holds that parent. */
  lemma SubTechniqueLinked(s0: Store, objects: seq<StixObject>, now: int, s1: Store, id: string)
    requires Synced(s0, objects, now, s1) && '.' in id
    requires Last(objects, TECHNIQUE, id).Some? && Last(objects, TECHNIQUE, id).value.isSub
    ensures id in s1.techniques
    ensures s1.techniques[id].parent.Some? <==>
            exists o <- objects :: Usable(o, TECHNIQUE) && IdOf(o) == ParentId(id)
  {
    hide TacticsSynced, TechniquesPresent, PhaseTactics, ParentId, Usable, IdOf;
    SyncedKeys(s0, objects, s1);
    assert TechniqueSynced(s0, objects, now, s1, id);
  }
}
