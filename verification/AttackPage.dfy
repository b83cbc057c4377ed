/** The matrix page over the synced tables: whatever bundles were synced, a cell shows its technique and the ids below it. */
module AttackPage {
  import opened Wrappers
  import opened Text
  import opened AttackBundle
  import opened AttackTheorems
  import opened AttackMatrix

  // ---------------------------------------------------------------- loading

  /** A row whose parent column holds the given id. */
  predicate IsSubOf(rows: map<string, TechniqueRow>, x: string, parent: nat) {
    x in rows && rows[x].parent == Some(parent)
  }

  /** A technique as the mapper loads it: its sub-technique list is the rows that name it as parent, in any order. */
  ghost predicate IsLoaded(s: Store, key: string, t: Technique) {
    && key in s.techniques
    && t.id == s.techniques[key].id && t.isSub == s.techniques[key].isSub
    && NoRepeats(t.subs)
    && (forall i :: i in t.subs <==> exists x <- s.techniques :: s.techniques[x].id == i && IsSubOf(s.techniques, x, t.id))
  }

  predicate Occurs(tactics: seq<seq<Technique>>, t: Technique) {
    exists tactic <- tactics :: t in tactic
  }

  /** The tactics of the page list the techniques that have a tactic, each as it is loaded. */
  ghost predicate AreLoaded(s: Store, tactics: seq<seq<Technique>>) {
    && (forall t :: Occurs(tactics, t) ==> exists key <- s.techniques :: s.techniques[key].tactics != {} && IsLoaded(s, key, t))
    && (forall key <- s.techniques :: s.techniques[key].tactics != {} ==> exists t :: Occurs(tactics, t) && IsLoaded(s, key, t))
  }

  lemma SameId(s: Store, a: string, b: string)
    requires StoreOk(s) && a in s.techniques && b in s.techniques && s.techniques[a].id == s.techniques[b].id
    ensures a == b
  {
    hide WellParented, TacticsExist;
    assert TechniqueIds(s.techniques)[a] == TechniqueIds(s.techniques)[b];
  }

  lemma LoadedOnce(s: Store, a: string, b: string, t: Technique)
    requires StoreOk(s) && IsLoaded(s, a, t) && IsLoaded(s, b, t)
    ensures a == b
  {
    hide StoreOk;
    SameId(s, a, b);
  }

  // ---------------------------------------------------------------- cells

  /** The technique itself, and the dotted ids under it that are linked to a parent. */
  predicate Covers(s: Store, key: string, x: string) {
    x in s.techniques && (x == key || ('.' in x && ParentId(x) == key && s.techniques[x].parent.Some?))
  }

  /** In every reachable store the parent column says what the dotted id says. */
  lemma SubsAreDotted(s: Store, key: string, x: string)
    requires StoreOk(s) && key in s.techniques && x in s.techniques
    ensures s.techniques[x].parent == Some(s.techniques[key].id) <==>
            '.' in x && ParentId(x) == key && s.techniques[x].parent.Some?
  {
    assert WellParented(s.techniques, x);
    hide StoreOk, ParentId;
    if s.techniques[x].parent == Some(s.techniques[key].id) {
      SameId(s, ParentId(x), key);
    }
  }

  lemma CoveredIsUsed(s: Store, key: string, t: Technique, mappings: seq<Mapping>, engagements: map<nat, string>, e: nat)
    requires StoreOk(s) && IsLoaded(s, key, t)
    ensures Uses(mappings, engagements, e, t) <==>
            exists x :: Covers(s, key, x) && Maps(mappings, engagements, e, s.techniques[x].id)
  {
    hide StoreOk, Maps, ParentId;
    if Uses(mappings, engagements, e, t) {
      if Maps(mappings, engagements, e, t.id) {
        assert Covers(s, key, key);
      } else {
        var i :| i in t.subs && Maps(mappings, engagements, e, i);
        var x :| x in s.techniques && s.techniques[x].id == i && IsSubOf(s.techniques, x, t.id);
        SubsAreDotted(s, key, x);
        assert Covers(s, key, x);
      }
    }
    if x :| Covers(s, key, x) && Maps(mappings, engagements, e, s.techniques[x].id) {
      if x != key {
        SubsAreDotted(s, key, x);
        assert IsSubOf(s.techniques, x, t.id);
        assert s.techniques[x].id in t.subs;
      }
    }
  }

  /**
    After any sequence of syncs: a cell lists exactly the engagements that
    mapped its technique or a linked technique whose id extends it by a dot.
   */
  lemma CellOverHistory(runs: seq<SyncRun>, stores: seq<Store>, k: nat, key: string, t: Technique,
                        mappings: seq<Mapping>, engagements: map<nat, string>, rows: seq<Listed>, e: nat)
    requires History(runs, stores) && k < |stores| && IsLoaded(stores[k], key, t)
    requires CellOf(mappings, engagements, t, rows)
    ensures ListsEngagement(rows, e) <==>
            exists x :: Covers(stores[k], key, x) && Maps(mappings, engagements, e, stores[k].techniques[x].id)
  {
    HistoryKeeps(runs, stores, k, k);
    hide History, StoreOk, IsLoaded, Covers, Maps, RowOf, SortedByName, EachOnce;
    CoveredIsUsed(stores[k], key, t, mappings, engagements, e);
  }

  lemma CellHasRow(s: Store, tactics: seq<seq<Technique>>, key: string, t: Technique)
    requires StoreOk(s) && AreLoaded(s, tactics) && Occurs(tactics, t) && IsLoaded(s, key, t)
    ensures s.techniques[key].tactics != {} && s.techniques[key].isSub == t.isSub
  {
    hide StoreOk, Occurs;
    var key' :| key' in s.techniques && s.techniques[key'].tactics != {} && IsLoaded(s, key', t);
    LoadedOnce(s, key, key', t);
  }

  lemma RowHasCell(s: Store, tactics: seq<seq<Technique>>, key: string) returns (t: Technique)
    requires AreLoaded(s, tactics) && key in s.techniques && s.techniques[key].tactics != {}
    ensures Occurs(tactics, t) && IsLoaded(s, key, t) && t.isSub == s.techniques[key].isSub
  {
    hide Occurs;
    t :| Occurs(tactics, t) && IsLoaded(s, key, t);
  }

  /** After any sequence of syncs, the page has a cell for each technique that is top-level and has a tactic, and for no other. */
  lemma PageOverHistory(runs: seq<SyncRun>, stores: seq<Store>, k: nat, tactics: seq<seq<Technique>>,
                        cells: map<Technique, seq<Listed>>, key: string)
    requires History(runs, stores) && k < |stores| && AreLoaded(stores[k], tactics)
    requires forall t :: t in cells <==> !t.isSub && Occurs(tactics, t)
    ensures (exists t :: t in cells && IsLoaded(stores[k], key, t)) <==>
            key in stores[k].techniques && !stores[k].techniques[key].isSub && stores[k].techniques[key].tactics != {}
  {
    HistoryKeeps(runs, stores, k, k);
    var s := stores[k];
    hide History, StoreOk, AreLoaded, Occurs;
    if t :| t in cells && IsLoaded(s, key, t) {
      CellHasRow(s, tactics, key, t);
    }
    if key in s.techniques && !s.techniques[key].isSub && s.techniques[key].tactics != {} {
      var t := RowHasCell(s, tactics, key);
      assert t in cells;
    }
  }
}
