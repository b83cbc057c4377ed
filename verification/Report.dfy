/** The kill chain report: an engagement's entries grouped by stage. */
module Report {
  import opened Wrappers
  import opened VaultState
  import opened VaultMachine
  import opened VaultTheorems

  /** An entry with its key. */
  datatype Row = Row(id: nat, entry: Entry)

  /** `coalesce(occurred_at, created_at)`, as the columns hold them. */
  function When(e: Entry): int {
    e.startedAt.GetOr(e.createdAt)
  }

  /** What the query returns: each entry of the engagement once, in order of the stored times. */
  ghost predicate IsQueryResult(v: Vault, e: nat, rows: seq<Row>) {
    && (forall i, j :: 0 <= i < j < |rows| ==> rows[i].id != rows[j].id && When(rows[i].entry) <= When(rows[j].entry))
    && (forall id :: id in EntriesOf(v, e) <==> exists r <- rows :: r.id == id)
    && (forall r <- rows :: r.id in v.entries && r.entry == v.entries[r.id])
  }

  /** The entries of one stage, in their order. */
  function OfStage(rows: seq<Row>, stage: string): seq<Row> {
    if rows == [] then []
    else OfStage(rows[..|rows| - 1], stage) + (if rows[|rows| - 1].entry.stage == stage then [rows[|rows| - 1]] else [])
  }

  /** `entries_by_stage`: a list for each stage of the model, and for any other stage an entry has. */
  method GroupByStage(stages: seq<string>, rows: seq<Row>) returns (groups: map<string, seq<Row>>)
    ensures forall s :: s in groups <==> s in stages || exists r <- rows :: r.entry.stage == s
    ensures forall s <- groups :: groups[s] == OfStage(rows, s)
  {
    groups := map s | s in stages :: [];
    for i := 0 to |rows|
      invariant forall s :: s in groups <==> s in stages || exists r <- rows[..i] :: r.entry.stage == s
      invariant forall s <- groups :: groups[s] == OfStage(rows[..i], s)
    {
      var entry := rows[i].entry;
      assert rows[..i + 1] == rows[..i] + [rows[i]];
      assert rows[..i + 1][..i] == rows[..i];
      assert entry.stage !in groups ==> OfStage(rows[..i], entry.stage) == [] by {
        if entry.stage !in groups {
          NoneOfStage(rows[..i], entry.stage);
        }
      }
      groups := groups[entry.stage := (if entry.stage in groups then groups[entry.stage] else []) + [rows[i]]];
    }
    assert rows[..|rows|] == rows;
  }

  lemma {:induction false} NoneOfStage(rows: seq<Row>, stage: string)
    requires forall r <- rows :: r.entry.stage != stage
    ensures OfStage(rows, stage) == []
  {
    if rows != [] {
      NoneOfStage(rows[..|rows| - 1], stage);
    }
  }

  predicate NoRepeats(rows: seq<Row>) {
    forall i, j :: 0 <= i < j < |rows| ==> rows[i].id != rows[j].id
  }

  /** One entry is not after another: by when they happened, or were written down where that is not known. */
  predicate NotAfter(a: Entry, b: Entry) {
    (if a.startedAt.Some? then a.startedAt.value else a.createdAt)
    <= (if b.startedAt.Some? then b.startedAt.value else b.createdAt)
  }

  predicate InOrder(rows: seq<Row>) {
    forall i, j :: 0 <= i < j < |rows| ==> NotAfter(rows[i].entry, rows[j].entry)
  }

  lemma {:induction false} GroupHolds(rows: seq<Row>, stage: string)
    ensures forall r :: r in OfStage(rows, stage) <==> r in rows && r.entry.stage == stage
  {
    if rows != [] {
      var init, last := rows[..|rows| - 1], rows[|rows| - 1];
      GroupHolds(init, stage);
      assert forall r :: r in rows <==> r in init || r == last;
    }
  }

  lemma OneMore(group: seq<Row>, row: Row)
    requires NoRepeats(group) && InOrder(group)
    requires forall r <- group :: r.id != row.id && NotAfter(r.entry, row.entry)
    ensures NoRepeats(group + [row]) && InOrder(group + [row])
  {
    hide NotAfter;
  }

  /** One stage's group: exactly the rows of that stage, none twice, still in order of the stored times. */
  lemma {:induction false} GroupIs(rows: seq<Row>, stage: string)
    requires NoRepeats(rows) && InOrder(rows)
    ensures forall r :: r in OfStage(rows, stage) <==> r in rows && r.entry.stage == stage
    ensures NoRepeats(OfStage(rows, stage)) && InOrder(OfStage(rows, stage))
  {
    hide NotAfter;
    GroupHolds(rows, stage);
    if rows != [] {
      var init, last := rows[..|rows| - 1], rows[|rows| - 1];
      assert NoRepeats(init) && InOrder(init);
      GroupIs(init, stage);
      forall r | r in init ensures r.id != last.id && NotAfter(r.entry, last.entry) {
        var i :| 0 <= i < |init| && init[i] == r;
        assert rows[i] == r;
      }
      if last.entry.stage == stage {
        OneMore(OfStage(init, stage), last);
      } else {
        assert OfStage(rows, stage) == OfStage(init, stage);
      }
    }
  }

  /**
    In any vault a run reaches: the report's groups are exactly the stages of
    the engagement's model, and every entry of the engagement is in exactly
    one of them, exactly once.
   */
  lemma ReportIsComplete(ops: seq<Op>, vaults: seq<Vault>, k: nat, e: nat, rows: seq<Row>, groups: map<string, seq<Row>>)
    requires IsRun(ops, vaults) && k < |vaults| && e in vaults[k].engagements && IsQueryResult(vaults[k], e, rows)
    requires
      var stages := StagesFor(vaults[k].engagements[e].model);
      && (forall s :: s in groups <==> s in stages || exists r <- rows :: r.entry.stage == s)
      && (forall s <- groups :: groups[s] == OfStage(rows, s))
    ensures groups.Keys == set s | s in StagesFor(vaults[k].engagements[e].model)
    ensures forall id <- EntriesOf(vaults[k], e) ::
              var row := Row(id, vaults[k].entries[id]);
              row.entry.stage in groups && row in groups[row.entry.stage]
              && forall s <- groups :: row in groups[s] ==> s == row.entry.stage
    ensures forall s <- groups :: NoRepeats(groups[s]) && InOrder(groups[s])
                                  && forall r <- groups[s] :: r.id in EntriesOf(vaults[k], e) && r.entry == vaults[k].entries[r.id]
  {
    hide IsRun, GraphOk, LinksOk, UsersOk, RequestsOk, StagesFor;
    var v := vaults[k];
    RunKeeps(ops, vaults, k);
    assert InOrder(rows);
    forall s | s in groups
      ensures (forall r :: r in groups[s] <==> r in rows && r.entry.stage == s) && NoRepeats(groups[s]) && InOrder(groups[s])
    {
      GroupIs(rows, s);
    }
    forall r | r in rows ensures r.id in EntriesOf(v, e) && r.entry.stage in StagesFor(v.engagements[e].model) {
      assert r.id in EntriesOf(v, e);
      assert EntryOk(v.engagements, v.entries[r.id]);
    }
    forall id | id in EntriesOf(v, e) ensures Row(id, v.entries[id]) in rows {
      var r :| r in rows && r.id == id;
    }
  }
}
