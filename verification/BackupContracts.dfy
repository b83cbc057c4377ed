/** What each backup request promises: jobs and snapshots in step, and the effect it was made for. */
module BackupContracts {
  import opened Wrappers
  import opened Text
  import opened BackupSchedule

  /** Jobs are those the destinations ask for, snapshots those of the newest log rows. */
  predicate Agrees(s: Schedule) {
    InSync(s) && LogsOk(s)
  }

  lemma StepAgrees(s: Schedule, op: Op)
    requires Agrees(s) && Enabled(s, op)
    ensures Agrees(Apply(s, op))
  {
    hide Apply, Enabled, InSync, LogsOk;
    StepInSync(s, op);
    StepLogsOk(s, op);
  }

  // ---------------------------------------------------------------- a destination comes and goes

  lemma {:induction false} NothingToDrop(logs: seq<RunLog>, id: nat)
    requires forall log <- logs :: log.destination != id
    ensures LogsWithout(logs, id) == logs
  {
    if logs != [] {
      NothingToDrop(logs[..|logs| - 1], id);
      assert logs == logs[..|logs| - 1] + [logs[|logs| - 1]];
    }
  }

  lemma NoJobWithout(s: Schedule, id: nat)
    requires InSync(s) && id !in s.destinations
    ensures JobId(id) !in s.jobs
  {
    hide JobId, Interval, AllJobs;
    JobAt(s.destinations, id);
  }

  lemma DroppedJobs(s: Schedule, id: nat, d: Destination)
    requires JobId(id) !in s.jobs
    ensures (if s.running then SyncedJobs(s, id, d) - {JobId(id)} else SyncedJobs(s, id, d)) == s.jobs
  {
    hide JobId, Interval;
  }

  /** A destination deleted right after it was created leaves no row, no log and no job behind. */
  lemma DeleteUndoesCreate(s: Schedule, id: nat, form: Form, engagements: set<nat>)
    requires Agrees(s) && id !in s.destinations && CreateBackup(s, id, form, engagements).1 == Done
    ensures DeleteBackup(CreateBackup(s, id, form, engagements).0, id) == (s, Done)
  {
    NoJobWithout(s, id);
    NothingToDrop(s.logs, id);
    hide Agrees, InSync, LogsOk, JobId, AllJobs, FormReply, Filled, SyncedJobs, LogsWithout;
    var d := Filled(form, BLANK);
    DroppedJobs(s, id, d);
    assert s.destinations[id := d] - {id} == s.destinations;
  }

  /** No row, no log and no job of the destination is left, and the others keep their newest rows. */
  ghost predicate IsForgotten(s: Schedule, s': Schedule, id: nat) {
    && s'.destinations == s.destinations - {id}
    && JobId(id) !in s'.jobs
    && (forall log <- s'.logs :: log.destination != id)
    && (forall i: nat, automatic: bool :: i != id ==> Newest(s'.logs, i, automatic) == Newest(s.logs, i, automatic))
  }

  lemma BackupDeleted(s: Schedule, id: nat)
    requires Agrees(s)
    ensures var r := DeleteBackup(s, id); Agrees(r.0) && (r.1 == Done ==> IsForgotten(s, r.0, id))
  {
    StepAgrees(s, OpDelete(id));
    if id in s.destinations {
      var s' := DeleteBackup(s, id).0;
      LogsWithoutIs(s.logs, id);
      forall i: nat, automatic: bool | i != id ensures Newest(s'.logs, i, automatic) == Newest(s.logs, i, automatic) {
        NewestWithout(s.logs, id, i, automatic);
      }
      hide JobId, AllJobs, Newest, LogsWithout, LogsOk;
      NoJobWithout(s', id);
    }
  }

  lemma BackupCreated(s: Schedule, id: nat, form: Form, engagements: set<nat>)
    requires Agrees(s) && id !in s.destinations
    ensures var r := CreateBackup(s, id, form, engagements);
      && Agrees(r.0)
      && (r.1 == Done ==>
            DeleteBackup(r.0, id) == (s, Done) && id in r.0.destinations && IsFilled(form, BLANK, r.0.destinations[id]))
  {
    assert CreateBackup(s, id, form, engagements).1 == Done ==>
      id in CreateBackup(s, id, form, engagements).0.destinations
      && IsFilled(form, BLANK, CreateBackup(s, id, form, engagements).0.destinations[id]) by {
      if CreateBackup(s, id, form, engagements).1 == Done {
        FormFills(form, BLANK, engagements);
      }
      hide Filled, FormReply, SyncedJobs, IsFilled;
    }
    hide Agrees, CreateBackup, DeleteBackup, IsFilled;
    StepAgrees(s, OpCreate(id, form, engagements));
    if CreateBackup(s, id, form, engagements).1 == Done {
      DeleteUndoesCreate(s, id, form, engagements);
    }
  }

  /**
    What the form says is stored, a missing choice keeps what was there, an
    engagement is kept only for the engagement scope, and the run snapshot stays.
   */
  predicate IsFilled(form: Form, was: Destination, now: Destination) {
    && now.name == Strip(form.name) != "" && now.active == form.active
    && now.provider == (if form.provider.Some? then form.provider.value else was.provider)
    && now.storageType == (if form.storageType.Some? then form.storageType.value else was.storageType)
    && now.scope == (if form.scope.Some? then form.scope.value else was.scope)
    && now.frequency == (if form.frequency.Some? then form.frequency.value else was.frequency)
    && now.engagement == (if now.scope == "engagement" then form.engagement else None)
    && now.lastAt == was.lastAt && now.lastStatus == was.lastStatus && now.lastMessage == was.lastMessage
  }

  lemma BackupEdited(s: Schedule, id: nat, form: Form, engagements: set<nat>)
    requires Agrees(s)
    ensures var r := EditBackup(s, id, form, engagements);
      && Agrees(r.0)
      && (r.1 == Done ==>
            && id in s.destinations && id in r.0.destinations && IsFilled(form, s.destinations[id], r.0.destinations[id])
            && r.0.destinations == s.destinations[id := r.0.destinations[id]] && r.0.logs == s.logs)
  {
    assert Agrees(EditBackup(s, id, form, engagements).0) by {
      hide Agrees, EditBackup;
      StepAgrees(s, OpEdit(id, form, engagements));
    }
    if id in s.destinations && FormReply(form, s.destinations[id], engagements) == Done {
      FormFills(form, s.destinations[id], engagements);
    }
    hide Agrees, Filled, FormReply, SyncedJobs, IsFilled;
  }

  lemma FormFills(form: Form, was: Destination, engagements: set<nat>)
    requires FormReply(form, was, engagements) == Done
    ensures IsFilled(form, was, Filled(form, was))
  {
    hide Strip;
  }

  // ---------------------------------------------------------------- runs

  /** The row is the destination's newest, for the snapshot's message unless it was recorded by hand, and no other's. */
  predicate IsNewest(logs: seq<RunLog>, before: seq<RunLog>, log: RunLog) {
    && Newest(logs, log.destination, false) == Some(log)
    && Newest(logs, log.destination, true) ==
         (if log.trigger == MANUAL_LOG then Newest(before, log.destination, true) else Some(log))
  }

  lemma AppendedIsNewest(logs: seq<RunLog>, log: RunLog)
    ensures IsNewest(logs + [log], logs, log)
    ensures forall i: nat, automatic: bool :: i != log.destination ==>
              Newest(logs + [log], i, automatic) == Newest(logs, i, automatic)
  {
    forall i: nat, automatic: bool
      ensures Newest(logs + [log], i, automatic) ==
              if log.destination == i && (automatic ==> log.trigger != MANUAL_LOG) then Some(log)
              else Newest(logs, i, automatic)
    {
      NewestSnoc(logs, log, i, automatic);
    }
  }

  /** A run recorded by hand becomes the newest row, and the message shown stays that of the last real run. */
  lemma RunRecorded(s: Schedule, id: nat, outcome: string, now: int)
    requires Agrees(s)
    ensures var r := RecordRun(s, id, outcome, now);
      && Agrees(r.0)
      && (r.1 == Done ==>
            && IsNewest(r.0.logs, s.logs, RunLog(id, now, outcome, None, MANUAL_LOG))
            && id in s.destinations && id in r.0.destinations
            && r.0.destinations[id].lastMessage == s.destinations[id].lastMessage)
  {
    hide Agrees, IsNewest;
    assert Agrees(RecordRun(s, id, outcome, now).0) by {
      hide RecordRun;
      StepAgrees(s, OpRecord(id, outcome, now));
    }
    AppendedIsNewest(s.logs, RunLog(id, now, outcome, None, MANUAL_LOG));
  }

  /** A run, good or bad, is the newest row and what the snapshot shows; a destination deleted meanwhile gets neither. */
  lemma BackupRan(s: Schedule, id: nat, attempt: Attempt, now: int, trigger: string)
    requires Agrees(s)
    ensures var s' := RunBackup(s, id, attempt, now, trigger);
      var status := if attempt.Ok? then "success" else "failed";
      var message := if attempt.Ok? then "Uploaded " + attempt.value else attempt.error;
      && InSync(s') && (trigger != MANUAL_LOG ==> LogsOk(s'))
      && (id !in s.destinations ==> s' == s)
      && (id in s.destinations ==>
            && IsNewest(s'.logs, s.logs, RunLog(id, now, status, Some(message), trigger))
            && s'.destinations == s.destinations[id := s.destinations[id].(
                 lastAt := Some(now), lastStatus := Some(status), lastMessage := Some(message))])
  {
    RunIs(attempt);
    var status, message := RunStatus(attempt), Some(RunMessage(attempt));
    var log := RunLog(id, now, status, message, trigger);
    hide InSync, LogsOk, IsNewest, RunStatus, RunMessage, AllJobs;
    AppendedIsNewest(s.logs, log);
    if id in s.destinations {
      var d := s.destinations[id].(lastAt := Some(now), lastStatus := Some(status), lastMessage := message);
      RunInSync(s, id, d, log);
      if trigger != MANUAL_LOG {
        Logged(s, id, d, log);
      }
    }
  }

  /** A run is logged as started by hand or by the schedule. */
  lemma TriggerIsLogged(s: Schedule, id: nat, attempt: Attempt, now: int, manually: bool)
    requires id in s.destinations
    ensures var s' := Apply(s, OpRun(id, attempt, now, manually));
      && s'.logs != [] && s'.logs[..|s'.logs| - 1] == s.logs
      && s'.logs[|s.logs|].trigger == (if manually then "manual_run" else "scheduled")
  {
    hide RunStatus, RunMessage;
  }

  lemma RunIs(attempt: Attempt)
    ensures RunStatus(attempt) == if attempt.Ok? then "success" else "failed"
    ensures RunMessage(attempt) == if attempt.Ok? then "Uploaded " + attempt.value else attempt.error
  {
  }

  lemma RunInSync(s: Schedule, id: nat, d: Destination, log: RunLog)
    requires InSync(s) && id in s.destinations
    requires d.active == s.destinations[id].active && d.frequency == s.destinations[id].frequency
    ensures InSync(s.(destinations := s.destinations[id := d], logs := s.logs + [log]))
  {
    SameWish(s.destinations, id, d);
    hide AllJobs;
  }
}
