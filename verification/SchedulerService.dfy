/**
  The scheduler service and the backup routes that call it, updating tables and
  jobs in place.  Every one of them keeps the jobs those the destinations ask
  for and the snapshots those of the newest log rows.
 */
module SchedulerService {
  import opened Wrappers
  import opened Text
  import opened BackupSchedule
  import opened BackupContracts

  class Backups {
    var destinations: map<nat, Destination>
    var logs: seq<RunLog>
    var running: bool
    var jobs: map<string, Job>

    ghost function State(): Schedule
      reads this
    {
      Schedule(destinations, logs, running, jobs)
    }

    constructor ()
      ensures State() == EMPTY && Agrees(State())
    {
      destinations, logs, running, jobs := map[], [], false, map[];
      new;
      EmptyAgrees();
    }

    /** `init_scheduler`: in a serving process, a new scheduler with a job for each active destination. */
    method InitScheduler(testing: bool, watcher: bool)
      requires !running && Agrees(State())
      modifies this`running, this`jobs
      ensures State() == Apply(old(State()), OpInit(testing, watcher)) && Agrees(State())
    {
      StepAgrees(State(), OpInit(testing, watcher));
      hide Agrees;
      FillScheduler(testing, watcher);
    }

    method FillScheduler(testing: bool, watcher: bool)
      requires !running
      modifies this`running, this`jobs
      ensures State() == Apply(old(State()), OpInit(testing, watcher))
    {
      hide JobId, AllJobs, Interval;
      if testing || watcher {
        return;
      }
      running, jobs := true, map[];
      var todo := set id | id in destinations && destinations[id].active;
      ghost var done: map<nat, Destination> := map[];
      NoJobs();
      while todo != {}
        invariant todo <= destinations.Keys && running
        invariant forall id <- todo :: destinations[id].active && id !in done
        invariant forall id <- done :: id in destinations && done[id] == destinations[id]
        invariant forall id <- destinations :: destinations[id].active ==> id in todo || id in done
        invariant jobs == AllJobs(done)
        decreases todo
      {
        var id :| id in todo;
        todo := todo - {id};
        SyncingOne(done, id, destinations[id]);
        NotScheduledYet(done, id);
        ScheduleJob(id, destinations[id]);
        done := done[id := destinations[id]];
      }
      AllScheduled(done, destinations);
    }

    /** `_schedule_job` */
    method ScheduleJob(id: nat, d: Destination)
      modifies this`jobs
      ensures jobs == Scheduled(old(jobs), id, d.frequency)
    {
      var seconds := Interval(d.frequency);
      if seconds == 0 {
        return;
      }
      jobs := jobs[JobId(id) := Job(seconds, id)];
    }

    /** `remove_job` */
    method RemoveJob(id: nat)
      modifies this`jobs
      ensures jobs == if running then old(jobs) - {JobId(id)} else old(jobs)
    {
      if !running {
        return;
      }
      if JobId(id) in jobs {
        jobs := jobs - {JobId(id)};
      }
    }

    /** `sync_job` */
    method SyncJob(id: nat, d: Destination)
      modifies this`jobs
      ensures jobs == SyncedJobs(old(State()), id, d)
    {
      hide JobId, Interval, Scheduled;
      if !running {
        return;
      }
      RemoveJob(id);
      if d.active {
        ScheduleJob(id, d);
      }
    }

    method StoreBackup(id: nat, form: Form, engagements: set<nat>) returns (reply: Reply)
      requires id !in destinations
      modifies this`destinations, this`jobs
      ensures (State(), reply) == BackupSchedule.CreateBackup(old(State()), id, form, engagements)
    {
      hide SyncedJobs, ChoicesFit, Strip;
      if Strip(form.name) == "" {
        return Flashed;
      }
      if !ChoicesFit(form, BLANK) {
        return Aborted(400);
      }
      var scope := form.scope.GetOr(BLANK.scope);
      var engagement := form.engagement;
      if scope != SCOPE_ENGAGEMENT {
        engagement := None;
      } else if engagement.Some? && engagement.value !in engagements {
        return Aborted(404);
      }
      var d := BLANK.(name := Strip(form.name), provider := form.provider.GetOr(BLANK.provider),
                      storageType := form.storageType.GetOr(BLANK.storageType), scope := scope, engagement := engagement,
                      frequency := form.frequency.GetOr(BLANK.frequency), active := form.active);
      ghost var s := State();
      destinations := destinations[id := d];
      SyncJob(id, d);
      assert SyncedJobs(s.(destinations := destinations), id, d) == SyncedJobs(s, id, d) by {
        SyncIgnoresTable(s, destinations, id, d);
      }
      return Done;
    }

    method CreateBackup(id: nat, form: Form, engagements: set<nat>) returns (reply: Reply)
      requires id !in destinations
      requires Agrees(State())
      modifies this`destinations, this`jobs
      ensures (State(), reply) == BackupSchedule.CreateBackup(old(State()), id, form, engagements)
      ensures Agrees(State())
      ensures reply == Done ==>
        && BackupSchedule.DeleteBackup(State(), id) == (old(State()), Done)
        && id in destinations && IsFilled(form, BLANK, destinations[id])
    {
      hide Agrees, BackupSchedule.CreateBackup, BackupSchedule.DeleteBackup, IsFilled;
      BackupCreated(State(), id, form, engagements);
      reply := StoreBackup(id, form, engagements);
    }

    method StoreEdited(id: nat, form: Form, engagements: set<nat>) returns (reply: Reply)
      modifies this`destinations, this`jobs
      ensures (State(), reply) == BackupSchedule.EditBackup(old(State()), id, form, engagements)
    {
      hide SyncedJobs, ChoicesFit, Strip;
      if id !in destinations {
        return Aborted(404);
      }
      var d := destinations[id];
      if Strip(form.name) == "" {
        return Flashed;
      }
      if !ChoicesFit(form, d) {
        return Aborted(400);
      }
      var scope := form.scope.GetOr(d.scope);
      var engagement := form.engagement;
      if scope != SCOPE_ENGAGEMENT {
        engagement := None;
      } else if engagement.Some? && engagement.value !in engagements {
        return Aborted(404);
      }
      d := d.(name := Strip(form.name), provider := form.provider.GetOr(d.provider),
              storageType := form.storageType.GetOr(d.storageType), scope := scope, engagement := engagement,
              frequency := form.frequency.GetOr(d.frequency), active := form.active);
      ghost var s := State();
      destinations := destinations[id := d];
      SyncJob(id, d);
      assert SyncedJobs(s.(destinations := destinations), id, d) == SyncedJobs(s, id, d) by {
        SyncIgnoresTable(s, destinations, id, d);
      }
      return Done;
    }

    method EditBackup(id: nat, form: Form, engagements: set<nat>) returns (reply: Reply)
      requires Agrees(State())
      modifies this`destinations, this`jobs
      ensures (State(), reply) == BackupSchedule.EditBackup(old(State()), id, form, engagements)
      ensures Agrees(State())
      ensures reply == Done ==>
        && id in old(destinations) && id in destinations && IsFilled(form, old(destinations)[id], destinations[id])
        && destinations == old(destinations)[id := destinations[id]] && logs == old(logs)
    {
      hide Agrees, BackupSchedule.EditBackup, IsFilled;
      BackupEdited(State(), id, form, engagements);
      reply := StoreEdited(id, form, engagements);
    }

    method DropBackup(id: nat) returns (reply: Reply)
      modifies this`destinations, this`logs, this`jobs
      ensures (State(), reply) == BackupSchedule.DeleteBackup(old(State()), id)
    {
      hide JobId, LogsWithout;
      if id !in destinations {
        return Aborted(404);
      }
      logs := LogsWithout(logs, id);
      destinations := destinations - {id};
      RemoveJob(id);
      return Done;
    }

    method DeleteBackup(id: nat) returns (reply: Reply)
      requires Agrees(State())
      modifies this`destinations, this`logs, this`jobs
      ensures (State(), reply) == BackupSchedule.DeleteBackup(old(State()), id)
      ensures Agrees(State())
      ensures reply == Done ==> IsForgotten(old(State()), State(), id)
    {
      hide Agrees, BackupSchedule.DeleteBackup, IsForgotten;
      BackupDeleted(State(), id);
      reply := DropBackup(id);
    }

    method StoreRecord(id: nat, outcome: string, now: int) returns (reply: Reply)
      modifies this`destinations, this`logs
      ensures (State(), reply) == RecordRun(old(State()), id, outcome, now)
    {
      if id !in destinations {
        return Aborted(404);
      }
      if outcome != SUCCESS && outcome != FAILED {
        return Aborted(400);
      }
      var d := destinations[id];
      d := d.(lastAt := Some(now));
      d := d.(lastStatus := Some(outcome));
      destinations := destinations[id := d];
      logs := logs + [RunLog(id, now, outcome, None, MANUAL_LOG)];
      return Done;
    }

    method RecordBackupRun(id: nat, outcome: string, now: int) returns (reply: Reply)
      requires Agrees(State())
      modifies this`destinations, this`logs
      ensures (State(), reply) == RecordRun(old(State()), id, outcome, now)
      ensures Agrees(State())
      ensures reply == Done ==> IsNewest(logs, old(logs), RunLog(id, now, outcome, None, MANUAL_LOG))
      ensures reply == Done ==>
        id in old(destinations) && id in destinations && destinations[id].lastMessage == old(destinations)[id].lastMessage
    {
      hide Agrees, RecordRun, IsNewest;
      RunRecorded(State(), id, outcome, now);
      reply := StoreRecord(id, outcome, now);
    }

    /** The try branch commits a success; the except branch rolls back, reads the destination again and commits the failure. */
    method StoreRun(id: nat, attempt: Attempt, now: int, trigger: string)
      modifies this`destinations, this`logs
      ensures State() == BackupSchedule.RunBackup(old(State()), id, attempt, now, trigger)
    {
      if id !in destinations {
        return;
      }
      var d := destinations[id];
      if attempt.Ok? {
        var message := "Uploaded " + attempt.value;
        d := d.(lastAt := Some(now), lastStatus := Some(SUCCESS), lastMessage := Some(message));
        logs := logs + [RunLog(id, now, SUCCESS, Some(message), trigger)];
        destinations := destinations[id := d];
      } else {
        var message := attempt.error;
        d := d.(lastAt := Some(now), lastStatus := Some(FAILED), lastMessage := Some(message));
        logs := logs + [RunLog(id, now, FAILED, Some(message), trigger)];
        destinations := destinations[id := d];
      }
    }

    method RunBackup(id: nat, attempt: Attempt, now: int, trigger: string)
      requires Agrees(State())
      modifies this`destinations, this`logs
      ensures State() == BackupSchedule.RunBackup(old(State()), id, attempt, now, trigger)
      ensures InSync(State()) && (trigger != MANUAL_LOG ==> LogsOk(State()))
      ensures id !in old(destinations) ==> State() == old(State())
      ensures id in old(destinations) ==>
        var status := if attempt.Ok? then "success" else "failed";
        var message := if attempt.Ok? then "Uploaded " + attempt.value else attempt.error;
        && IsNewest(logs, old(logs), RunLog(id, now, status, Some(message), trigger))
        && destinations == old(destinations)[id := old(destinations)[id].(
             lastAt := Some(now), lastStatus := Some(status), lastMessage := Some(message))]
    {
      hide Agrees, BackupSchedule.RunBackup, IsNewest, InSync, LogsOk, RunStatus, RunMessage;
      BackupRan(State(), id, attempt, now, trigger);
      StoreRun(id, attempt, now, trigger);
    }
  }

  lemma SyncIgnoresTable(s: Schedule, destinations: map<nat, Destination>, id: nat, d: Destination)
    ensures SyncedJobs(s.(destinations := destinations), id, d) == SyncedJobs(s, id, d)
  {
  }

  lemma NoJobs()
    ensures AllJobs(map[]) == map[]
  {
  }

  lemma NotScheduledYet(done: map<nat, Destination>, id: nat)
    requires id !in done
    ensures AllJobs(done) - {JobId(id)} == AllJobs(done)
  {
    hide JobId, AllJobs, Interval;
    JobAt(done, id);
  }

  /** Inactive destinations make no difference. */
  lemma AllScheduled(done: map<nat, Destination>, destinations: map<nat, Destination>)
    requires forall id <- done :: id in destinations && done[id] == destinations[id]
    requires forall id <- destinations :: destinations[id].active ==> id in done
    ensures AllJobs(done) == AllJobs(destinations)
  {
    hide JobId, AllJobs, Interval;
    forall k
      ensures k in AllJobs(done) <==> k in AllJobs(destinations)
      ensures k in AllJobs(done) ==> AllJobs(done)[k] == AllJobs(destinations)[k]
    {
      if k in AllJobs(done) {
        var i := JobOwner(done, k);
        JobAt(done, i);
        JobAt(destinations, i);
      }
      if k in AllJobs(destinations) {
        var i := JobOwner(destinations, k);
        JobAt(done, i);
        JobAt(destinations, i);
      }
    }
  }
}
