/** Backup destinations, their run logs and their scheduled jobs, as a state machine. */
module BackupSchedule {
  import opened Wrappers
  import opened Text

  // ---------------------------------------------------------------- state

  datatype Destination = Destination(
    name: string, provider: string, storageType: string, scope: string, engagement: Option<nat>,
    frequency: string, active: bool,
    lastAt: Option<int>, lastStatus: Option<string>, lastMessage: Option<string>)

  datatype RunLog = RunLog(destination: nat, ranAt: int, status: string, message: Option<string>, trigger: string)

  datatype Job = Job(seconds: nat, destination: nat)

  /** The tables, the log in the order it was written, and the scheduler of the running process, if it has one. */
  datatype Schedule = Schedule(destinations: map<nat, Destination>, logs: seq<RunLog>, running: bool, jobs: map<string, Job>)

  const EMPTY := Schedule(map[], [], false, map[])

  const PROVIDERS: set<string> := {"aws", "azure", "gcp", "oci", "self_hosted", "other"}
  const STORAGE_TYPES: set<string> := {"object_storage", "managed_database", "filesystem"}
  const SCOPE_ENGAGEMENT := "engagement"
  const SCOPES: set<string> := {"full_vault", "database_only", "loot_files", SCOPE_ENGAGEMENT}
  const FREQUENCIES: set<string> := {"manual", "hourly", "daily", "weekly", "monthly"}
  const SUCCESS := "success"
  const FAILED := "failed"
  const MANUAL_LOG := "manual_log"

  /** `FREQUENCY_INTERVAL_SECONDS`; zero for a frequency that is not in it. */
  function Interval(frequency: string): nat {
    match frequency
    case "hourly" => 60 * 60
    case "daily" => 60 * 60 * 24
    case "weekly" => 60 * 60 * 24 * 7
    case "monthly" => 60 * 60 * 24 * 30
    case _ => 0
  }

  function JobId(id: nat): string {
    "backup-" + ToDecimal(id)
  }

  lemma JobIdsDiffer()
    ensures forall a: nat, b: nat :: JobId(a) == JobId(b) ==> a == b
  {
    forall a: nat, b: nat | JobId(a) == JobId(b) ensures a == b {
      assert JobId(a)[7..] == ToDecimal(a) && JobId(b)[7..] == ToDecimal(b);
      DecimalRoundTrip(a);
      DecimalRoundTrip(b);
    }
  }

  // ---------------------------------------------------------------- the invariant

  /** Which destinations run on a schedule. */
  predicate Wanted(d: Destination) {
    d.active && Interval(d.frequency) != 0
  }

  /** One job for each of them, at its frequency's interval. */
  function AllJobs(destinations: map<nat, Destination>): map<string, Job> {
    JobIdsDiffer();
    map id | id in destinations && Wanted(destinations[id]) :: JobId(id) := Job(Interval(destinations[id].frequency), id)
  }

  /** The newest log row of a destination that satisfies `automatic`, if asked. */
  function Newest(logs: seq<RunLog>, id: nat, automatic: bool): Option<RunLog> {
    if logs == [] then None
    else
      var log := logs[|logs| - 1];
      if log.destination == id && (automatic ==> log.trigger != MANUAL_LOG) then Some(log)
      else Newest(logs[..|logs| - 1], id, automatic)
  }

  /** The last-run snapshot: time and status of the newest log row, message of the newest that the program wrote itself. */
  predicate SnapshotOk(logs: seq<RunLog>, id: nat, d: Destination) {
    && (match Newest(logs, id, false)
        case None => d.lastAt.None? && d.lastStatus.None?
        case Some(log) => d.lastAt == Some(log.ranAt) && d.lastStatus == Some(log.status))
    && (match Newest(logs, id, true)
        case None => d.lastMessage.None?
        case Some(log) => d.lastMessage == log.message)
  }

  predicate InSync(s: Schedule) {
    s.jobs == if s.running then AllJobs(s.destinations) else map[]
  }

  predicate LogsOk(s: Schedule) {
    && (forall id <- s.destinations :: SnapshotOk(s.logs, id, s.destinations[id]))
    && (forall log <- s.logs :: log.destination in s.destinations)
  }

  // ---------------------------------------------------------------- the scheduler's jobs

  function Scheduled(jobs: map<string, Job>, id: nat, frequency: string): map<string, Job> {
    if Interval(frequency) == 0 then jobs else jobs[JobId(id) := Job(Interval(frequency), id)]
  }

  /** `sync_job`: whatever job there was goes, and an active destination is scheduled anew. */
  function SyncedJobs(s: Schedule, id: nat, d: Destination): map<string, Job> {
    if !s.running then s.jobs
    else if d.active then Scheduled(s.jobs - {JobId(id)}, id, d.frequency)
    else s.jobs - {JobId(id)}
  }

  lemma JobAt(destinations: map<nat, Destination>, id: nat)
    ensures JobId(id) in AllJobs(destinations) <==> id in destinations && Wanted(destinations[id])
    ensures JobId(id) in AllJobs(destinations) ==>
              AllJobs(destinations)[JobId(id)] == Job(Interval(destinations[id].frequency), id)
  {
    JobIdsDiffer();
    hide JobId, Interval;
  }

  lemma JobOwner(destinations: map<nat, Destination>, k: string) returns (id: nat)
    requires k in AllJobs(destinations)
    ensures k == JobId(id) && id in destinations
  {
    hide JobId, Interval;
    id :| id in destinations && Wanted(destinations[id]) && JobId(id) == k;
  }

  /** Tables that agree except at one destination have the same jobs except that one's. */
  lemma SameJobs(one: map<nat, Destination>, other: map<nat, Destination>, id: nat, k: string)
    requires forall i :: i != id ==> (i in one <==> i in other) && (i in one ==> other[i] == one[i])
    requires k != JobId(id)
    ensures k in AllJobs(one) <==> k in AllJobs(other)
    ensures k in AllJobs(one) ==> AllJobs(other)[k] == AllJobs(one)[k]
  {
    hide JobId, Interval, AllJobs;
    if k in AllJobs(one) {
      var i := JobOwner(one, k);
      JobAt(one, i);
      JobAt(other, i);
    }
    if k in AllJobs(other) {
      var i := JobOwner(other, k);
      JobAt(one, i);
      JobAt(other, i);
    }
  }

  lemma SyncingOne(destinations: map<nat, Destination>, id: nat, d: Destination)
    ensures AllJobs(destinations[id := d]) ==
            if Wanted(d) then AllJobs(destinations)[JobId(id) := Job(Interval(d.frequency), id)]
            else AllJobs(destinations) - {JobId(id)}
  {
    hide JobId, Interval, AllJobs, Wanted;
    JobAt(destinations[id := d], id);
    forall k | k != JobId(id)
      ensures k in AllJobs(destinations) <==> k in AllJobs(destinations[id := d])
      ensures k in AllJobs(destinations) ==> AllJobs(destinations[id := d])[k] == AllJobs(destinations)[k]
    {
      SameJobs(destinations, destinations[id := d], id, k);
    }
  }

  lemma RemovingOne(destinations: map<nat, Destination>, id: nat)
    ensures AllJobs(destinations - {id}) == AllJobs(destinations) - {JobId(id)}
  {
    hide JobId, Interval, AllJobs, Wanted;
    JobAt(destinations - {id}, id);
    forall k | k != JobId(id)
      ensures k in AllJobs(destinations) <==> k in AllJobs(destinations - {id})
      ensures k in AllJobs(destinations) ==> AllJobs(destinations - {id})[k] == AllJobs(destinations)[k]
    {
      SameJobs(destinations, destinations - {id}, id, k);
    }
  }

  /** An hour, a day, a week or thirty days. */
  lemma IntervalIs(frequency: string)
    ensures Interval(frequency) ==
      if frequency == "hourly" then 3600 else if frequency == "daily" then 86400
      else if frequency == "weekly" then 604800 else if frequency == "monthly" then 2592000 else 0
  {
  }

  /** What `InSync` says of one destination and of one job. */
  lemma JobsAreExact(s: Schedule, id: nat)
    requires InSync(s) && s.running
    ensures JobId(id) in s.jobs <==>
      id in s.destinations && s.destinations[id].active
      && s.destinations[id].frequency in {"hourly", "daily", "weekly", "monthly"}
    ensures JobId(id) in s.jobs ==>
      var frequency := s.destinations[id].frequency;
      s.jobs[JobId(id)] == Job(if frequency == "hourly" then 3600 else if frequency == "daily" then 86400
                               else if frequency == "weekly" then 604800 else 2592000, id)
    ensures forall k <- s.jobs :: k == "backup-" + ToDecimal(s.jobs[k].destination) && s.jobs[k].destination in s.destinations
  {
    JobIdsDiffer();
    if id in s.destinations {
      IntervalIs(s.destinations[id].frequency);
    }
    JobNames(s);
    hide JobId, Interval;
  }

  lemma JobNames(s: Schedule)
    requires InSync(s) && s.running
    ensures forall k <- s.jobs :: k == "backup-" + ToDecimal(s.jobs[k].destination) && s.jobs[k].destination in s.destinations
  {
    JobIdsDiffer();
    hide Interval;
    forall k | k in s.jobs
      ensures k == JobId(s.jobs[k].destination) && s.jobs[k].destination in s.destinations
    {
    }
  }

  // ---------------------------------------------------------------- requests

  datatype Reply = Done | Aborted(code: int) | Flashed

  /** The submitted form; a missing choice falls back to the default or to what was stored. */
  datatype Form = Form(name: string, provider: Option<string>, storageType: Option<string>, scope: Option<string>,
                       frequency: Option<string>, engagement: Option<nat>, active: bool)

  predicate ChoicesFit(form: Form, was: Destination) {
    && form.provider.GetOr(was.provider) in PROVIDERS
    && form.storageType.GetOr(was.storageType) in STORAGE_TYPES
    && form.scope.GetOr(was.scope) in SCOPES
    && form.frequency.GetOr(was.frequency) in FREQUENCIES
  }

  function EngagementFor(form: Form, was: Destination): Option<nat> {
    if form.scope.GetOr(was.scope) == SCOPE_ENGAGEMENT then form.engagement else None
  }

  function Filled(form: Form, was: Destination): Destination {
    was.(name := Strip(form.name), provider := form.provider.GetOr(was.provider),
         storageType := form.storageType.GetOr(was.storageType), scope := form.scope.GetOr(was.scope),
         engagement := EngagementFor(form, was), frequency := form.frequency.GetOr(was.frequency), active := form.active)
  }

  const BLANK := Destination("", "other", "object_storage", "full_vault", None, "manual", true, None, None, None)

  /** What the form's checks answer, given the engagements that exist. */
  function FormReply(form: Form, was: Destination, engagements: set<nat>): Reply {
    if Strip(form.name) == "" then Flashed
    else if !ChoicesFit(form, was) then Aborted(400)
    else if EngagementFor(form, was).Some? && EngagementFor(form, was).value !in engagements then Aborted(404)
    else Done
  }

  function Stored(s: Schedule, id: nat, d: Destination): Schedule {
    s.(destinations := s.destinations[id := d], jobs := SyncedJobs(s, id, d))
  }

  function CreateBackup(s: Schedule, id: nat, form: Form, engagements: set<nat>): (r: (Schedule, Reply))
    requires id !in s.destinations
    ensures r.1 != Done ==> r.0 == s
  {
    var reply := FormReply(form, BLANK, engagements);
    if reply != Done then (s, reply) else (Stored(s, id, Filled(form, BLANK)), Done)
  }

  function EditBackup(s: Schedule, id: nat, form: Form, engagements: set<nat>): (r: (Schedule, Reply))
    ensures r.1 != Done ==> r.0 == s
  {
    if id !in s.destinations then (s, Aborted(404))
    else
      var reply := FormReply(form, s.destinations[id], engagements);
      if reply != Done then (s, reply) else (Stored(s, id, Filled(form, s.destinations[id])), Done)
  }

  /** The logs go with their destination, then the job. */
  function LogsWithout(logs: seq<RunLog>, id: nat): seq<RunLog> {
    if logs == [] then []
    else LogsWithout(logs[..|logs| - 1], id) + (if logs[|logs| - 1].destination == id then [] else [logs[|logs| - 1]])
  }

  function DeleteBackup(s: Schedule, id: nat): (r: (Schedule, Reply))
    ensures r.1 != Done ==> r.0 == s
  {
    if id !in s.destinations then (s, Aborted(404))
    else
      (Schedule(s.destinations - {id}, LogsWithout(s.logs, id), s.running,
                if s.running then s.jobs - {JobId(id)} else s.jobs), Done)
  }

  function RecordRun(s: Schedule, id: nat, outcome: string, now: int): (r: (Schedule, Reply))
    ensures r.1 != Done ==> r.0 == s
  {
    if id !in s.destinations then (s, Aborted(404))
    else if outcome != SUCCESS && outcome != FAILED then (s, Aborted(400))
    else
      var d := s.destinations[id].(lastAt := Some(now), lastStatus := Some(outcome));
      (s.(destinations := s.destinations[id := d], logs := s.logs + [RunLog(id, now, outcome, None, MANUAL_LOG)]), Done)
  }

  // ---------------------------------------------------------------- runs

  predicate IsSafe(c: char, alnum: char -> bool) {
    alnum(c) || c == '-' || c == '_'
  }

  function DashesStripped(s: string): (r: string)
    ensures r != [] ==> r[0] != '-' && r[|r| - 1] != '-'
    ensures forall c <- r :: c in s
  {
    if s != [] && s[0] == '-' then DashesStripped(s[1..])
    else if s != [] && s[|s| - 1] == '-' then DashesStripped(s[..|s| - 1])
    else s
  }

  /** `_safe_name`: never empty, only letters, digits, dashes and underscores, no dash at either end. */
  function SafeName(name: string, alnum: char -> bool): (r: string)
    requires forall c <- "backup" :: alnum(c)
    ensures r != [] && r[0] != '-' && r[|r| - 1] != '-'
    ensures forall c <- r :: IsSafe(c, alnum)
  {
    var replaced := seq(|name|, i requires 0 <= i < |name| => if IsSafe(name[i], alnum) then name[i] else '-');
    var stripped := DashesStripped(replaced);
    if stripped == [] then "backup" else stripped
  }

  /** Every character that is not safe as a dash. */
  function Dashed(name: string, alnum: char -> bool): (r: string)
    ensures |r| == |name|
    ensures forall i :: 0 <= i < |name| ==> r[i] == if alnum(name[i]) || name[i] in "-_" then name[i] else '-'
  {
    seq(|name|, i requires 0 <= i < |name| => if alnum(name[i]) || name[i] in "-_" then name[i] else '-')
  }

  predicate AllDashes(s: string) {
    forall c <- s :: c == '-'
  }

  lemma {:induction false} DashesStrippedIs(s: string) returns (left: string, right: string)
    ensures s == left + DashesStripped(s) + right && AllDashes(left) && AllDashes(right)
    decreases |s|
  {
    if s != [] && s[0] == '-' {
      left, right := DashesStrippedIs(s[1..]);
      assert s == [s[0]] + s[1..];
      assert s == ([s[0]] + left) + DashesStripped(s) + right;
      left := [s[0]] + left;
    } else if s != [] && s[|s| - 1] == '-' {
      left, right := DashesStrippedIs(s[..|s| - 1]);
      assert s == s[..|s| - 1] + [s[|s| - 1]];
      assert s == left + DashesStripped(s) + (right + [s[|s| - 1]]);
      right := right + [s[|s| - 1]];
    } else {
      left, right := [], [];
    }
  }

  /** A safe name is the name with dashes for what is not safe, without dashes at its ends; "backup" if nothing is left. */
  lemma SafeNameIs(name: string, alnum: char -> bool) returns (left: string, right: string)
    requires forall c <- "backup" :: alnum(c)
    ensures AllDashes(left) && AllDashes(right)
    ensures var dashed := Dashed(name, alnum); var safe := SafeName(name, alnum);
      if AllDashes(dashed) then safe == "backup" else dashed == left + safe + right
  {
    var dashed := Dashed(name, alnum);
    left, right := DashesStrippedIs(dashed);
    ReplacedIsDashed(name, alnum);
    OnlyDashes(dashed);
    hide DashesStripped, Dashed;
    if DashesStripped(dashed) == [] {
      assert dashed == left + right;
    }
  }

  lemma ReplacedIsDashed(name: string, alnum: char -> bool)
    requires forall c <- "backup" :: alnum(c)
    ensures SafeName(name, alnum) ==
      if DashesStripped(Dashed(name, alnum)) == [] then "backup" else DashesStripped(Dashed(name, alnum))
  {
    hide DashesStripped;
    var replaced := seq(|name|, i requires 0 <= i < |name| => if IsSafe(name[i], alnum) then name[i] else '-');
    assert replaced == Dashed(name, alnum);
  }

  lemma {:induction false} OnlyDashes(s: string)
    ensures AllDashes(s) ==> DashesStripped(s) == []
  {
    if AllDashes(s) && s != [] {
      assert s[0] in s;
      forall i | 0 <= i < |s[1..]| ensures s[1..][i] == '-' {
        assert s[i + 1] in s;
      }
      OnlyDashes(s[1..]);
    }
  }

  /** How building and uploading the archive went: the uploaded file's name, or the exception's text. */
  type Attempt = Result<string, string>

  function RunStatus(attempt: Attempt): string {
    if attempt.Ok? then SUCCESS else FAILED
  }

  function RunMessage(attempt: Attempt): string {
    if attempt.Ok? then "Uploaded " + attempt.value else attempt.error
  }

  /** `run_backup`: the outcome, good or bad, goes to the snapshot and the log together. */
  function RunBackup(s: Schedule, id: nat, attempt: Attempt, now: int, trigger: string): Schedule {
    if id !in s.destinations then s
    else
      var status, message := RunStatus(attempt), Some(RunMessage(attempt));
      var d := s.destinations[id].(lastAt := Some(now), lastStatus := Some(status), lastMessage := message);
      s.(destinations := s.destinations[id := d], logs := s.logs + [RunLog(id, now, status, message, trigger)])
  }

  // ---------------------------------------------------------------- steps

  datatype Op =
    | OpRestart
    | OpInit(testing: bool, watcher: bool)
    | OpCreate(id: nat, form: Form, engagements: set<nat>)
    | OpEdit(id: nat, form: Form, engagements: set<nat>)
    | OpDelete(id: nat)
    | OpRecord(id: nat, outcome: string, now: int)
    | OpRun(id: nat, attempt: Attempt, now: int, manually: bool)

  predicate Enabled(s: Schedule, op: Op) {
    match op
    case OpInit(_, _) => !s.running
    case OpCreate(id, _, _) => id !in s.destinations
    case _ => true
  }

  /**
    A process that restarts loses its jobs; one that initialises schedules the
    active destinations, except in tests and reloader watchers.
   */
  function Apply(s: Schedule, op: Op): Schedule
    requires Enabled(s, op)
  {
    match op
    case OpRestart => s.(running := false, jobs := map[])
    case OpInit(testing, watcher) =>
      if testing || watcher then s else s.(running := true, jobs := AllJobs(s.destinations))
    case OpCreate(id, form, engagements) => CreateBackup(s, id, form, engagements).0
    case OpEdit(id, form, engagements) => EditBackup(s, id, form, engagements).0
    case OpDelete(id) => DeleteBackup(s, id).0
    case OpRecord(id, outcome, now) => RecordRun(s, id, outcome, now).0
    case OpRun(id, attempt, now, manually) => RunBackup(s, id, attempt, now, if manually then "manual_run" else "scheduled")
  }

  predicate IsRun(ops: seq<Op>, states: seq<Schedule>) {
    && |states| == |ops| + 1
    && states[0] == EMPTY
    && (forall i :: 0 <= i < |ops| ==> Enabled(states[i], ops[i]) && states[i + 1] == Apply(states[i], ops[i]))
  }

  // ---------------------------------------------------------------- jobs stay in step

  lemma StoredInSync(s: Schedule, id: nat, d: Destination)
    requires InSync(s)
    ensures InSync(Stored(s, id, d))
  {
    hide JobId, Interval, AllJobs;
    SyncingOne(s.destinations, id, d);
    var jobs := AllJobs(s.destinations);
    var job := Job(Interval(d.frequency), id);
    assert (jobs - {JobId(id)})[JobId(id) := job] == jobs[JobId(id) := job];
  }

  /** A change that touches neither the flag nor the frequency concerns no job. */
  lemma SameWish(destinations: map<nat, Destination>, id: nat, d: Destination)
    requires id in destinations && d.active == destinations[id].active && d.frequency == destinations[id].frequency
    ensures AllJobs(destinations[id := d]) == AllJobs(destinations)
  {
    JobIdsDiffer();
    hide JobId, Interval;
    SyncingOne(destinations, id, d);
    SyncingOne(destinations, id, destinations[id]);
    assert destinations[id := destinations[id]] == destinations;
  }

  lemma StepInSync(s: Schedule, op: Op)
    requires InSync(s) && Enabled(s, op)
    ensures InSync(Apply(s, op))
  {
    hide JobId, Interval, AllJobs, Stored, FormReply, Filled, LogsWithout, RunMessage, RunStatus;
    match op {
      case OpCreate(id, form, engagements) =>
        StoredInSync(s, id, Filled(form, BLANK));
      case OpEdit(id, form, engagements) =>
        if id in s.destinations {
          StoredInSync(s, id, Filled(form, s.destinations[id]));
        }
      case OpDelete(id) =>
        RemovingOne(s.destinations, id);
      case OpRecord(id, outcome, now) =>
        if id in s.destinations {
          SameWish(s.destinations, id, s.destinations[id].(lastAt := Some(now), lastStatus := Some(outcome)));
        }
      case OpRun(id, attempt, now, manually) =>
        if id in s.destinations {
          SameWish(s.destinations, id,
                   s.destinations[id].(lastAt := Some(now), lastStatus := Some(RunStatus(attempt)),
                                       lastMessage := Some(RunMessage(attempt))));
        }
      case _ =>
    }
  }

  // ---------------------------------------------------------------- the snapshot stays true

  lemma NewestSnoc(logs: seq<RunLog>, log: RunLog, id: nat, automatic: bool)
    ensures Newest(logs + [log], id, automatic) ==
            if log.destination == id && (automatic ==> log.trigger != MANUAL_LOG) then Some(log)
            else Newest(logs, id, automatic)
  {
    assert (logs + [log])[..|logs + [log]| - 1] == logs;
  }

  lemma {:induction false} NewestWithout(logs: seq<RunLog>, gone: nat, id: nat, automatic: bool)
    requires id != gone
    ensures Newest(LogsWithout(logs, gone), id, automatic) == Newest(logs, id, automatic)
    decreases |logs|
  {
    if logs != [] {
      var init, log := logs[..|logs| - 1], logs[|logs| - 1];
      NewestWithout(init, gone, id, automatic);
      if log.destination != gone {
        NewestSnoc(LogsWithout(init, gone), log, id, automatic);
      } else {
        assert LogsWithout(logs, gone) == LogsWithout(init, gone);
      }
    }
  }

  lemma {:induction false} LogsWithoutIs(logs: seq<RunLog>, id: nat)
    ensures forall log :: log in LogsWithout(logs, id) <==> log in logs && log.destination != id
  {
    if logs != [] {
      LogsWithoutIs(logs[..|logs| - 1], id);
      assert forall log :: log in logs <==> log in logs[..|logs| - 1] || log == logs[|logs| - 1];
    }
  }

  lemma {:induction false} NoLogsNoNewest(logs: seq<RunLog>, id: nat, automatic: bool)
    requires forall log <- logs :: log.destination != id
    ensures Newest(logs, id, automatic).None?
  {
    if logs != [] {
      NoLogsNoNewest(logs[..|logs| - 1], id, automatic);
    }
  }

  /** A row written together with the snapshot it describes. */
  lemma Logged(s: Schedule, id: nat, d: Destination, log: RunLog)
    requires LogsOk(s) && id in s.destinations && log.destination == id
    requires d.lastAt == Some(log.ranAt) && d.lastStatus == Some(log.status)
    requires d.lastMessage == if log.trigger == MANUAL_LOG then s.destinations[id].lastMessage else log.message
    ensures LogsOk(s.(destinations := s.destinations[id := d], logs := s.logs + [log]))
  {
    hide Newest;
    var s' := s.(destinations := s.destinations[id := d], logs := s.logs + [log]);
    forall i | i in s'.destinations ensures SnapshotOk(s'.logs, i, s'.destinations[i]) {
      assert SnapshotOk(s.logs, i, s.destinations[i]);
      NewestSnoc(s.logs, log, i, false);
      NewestSnoc(s.logs, log, i, true);
    }
  }

  lemma StoredLogs(s: Schedule, id: nat, d: Destination)
    requires LogsOk(s) && SnapshotOk(s.logs, id, d)
    ensures LogsOk(Stored(s, id, d))
  {
    hide SnapshotOk, SyncedJobs;
  }

  lemma DeletedLogs(s: Schedule, id: nat)
    requires LogsOk(s)
    ensures LogsOk(DeleteBackup(s, id).0)
  {
    hide JobId, Newest, LogsWithout;
    if id in s.destinations {
      var s' := DeleteBackup(s, id).0;
      LogsWithoutIs(s.logs, id);
      forall i | i in s'.destinations ensures SnapshotOk(s'.logs, i, s'.destinations[i]) {
        assert SnapshotOk(s.logs, i, s.destinations[i]);
        NewestWithout(s.logs, id, i, false);
        NewestWithout(s.logs, id, i, true);
      }
    }
  }

  lemma StepLogsOk(s: Schedule, op: Op)
    requires LogsOk(s) && Enabled(s, op)
    ensures LogsOk(Apply(s, op))
  {
    hide JobId, Interval, AllJobs, Newest, LogsOk, FormReply, RunMessage, RunStatus, Strip, Stored, DeleteBackup;
    match op {
      case OpCreate(id, form, engagements) =>
        FreshSnapshot(s, id, Filled(form, BLANK));
        StoredLogs(s, id, Filled(form, BLANK));
      case OpEdit(id, form, engagements) =>
        if id in s.destinations {
          SameSnapshot(s, id, Filled(form, s.destinations[id]));
          StoredLogs(s, id, Filled(form, s.destinations[id]));
        }
      case OpDelete(id) =>
        DeletedLogs(s, id);
      case OpRecord(id, outcome, now) =>
        if id in s.destinations {
          Logged(s, id, s.destinations[id].(lastAt := Some(now), lastStatus := Some(outcome)),
                 RunLog(id, now, outcome, None, MANUAL_LOG));
        }
      case OpRun(id, attempt, now, manually) =>
        if id in s.destinations {
          RunTriggers();
          var status, message := RunStatus(attempt), Some(RunMessage(attempt));
          Logged(s, id, s.destinations[id].(lastAt := Some(now), lastStatus := Some(status), lastMessage := message),
                 RunLog(id, now, status, message, if manually then "manual_run" else "scheduled"));
        }
      case _ => OtherLogs(s, Apply(s, op));
    }
  }

  lemma RunTriggers()
    ensures "manual_run" != MANUAL_LOG && "scheduled" != MANUAL_LOG
  {
    assert "manual_run"[7] == 'r' && MANUAL_LOG[7] == 'l';
    assert "scheduled"[0] == 's' && MANUAL_LOG[0] == 'm';
  }

  lemma FreshSnapshot(s: Schedule, id: nat, d: Destination)
    requires LogsOk(s) && id !in s.destinations && d.lastAt.None? && d.lastStatus.None? && d.lastMessage.None?
    ensures SnapshotOk(s.logs, id, d)
  {
    NoLogsNoNewest(s.logs, id, false);
    NoLogsNoNewest(s.logs, id, true);
  }

  lemma SameSnapshot(s: Schedule, id: nat, d: Destination)
    requires LogsOk(s) && id in s.destinations && d.lastAt == s.destinations[id].lastAt
    requires d.lastStatus == s.destinations[id].lastStatus && d.lastMessage == s.destinations[id].lastMessage
    ensures SnapshotOk(s.logs, id, d)
  {
    hide Newest;
    assert SnapshotOk(s.logs, id, s.destinations[id]);
  }

  lemma OtherLogs(s: Schedule, s': Schedule)
    requires LogsOk(s) && s'.destinations == s.destinations && s'.logs == s.logs
    ensures LogsOk(s')
  {
  }

  // ---------------------------------------------------------------- every run

  /**
    Whatever happens - restarts, edits, deletes with ids used again, runs that
    fail - a running scheduler's jobs are exactly those the destinations ask
    for, and every destination's snapshot is its newest log row.
   */
  lemma {:induction false} ScheduleAgrees(ops: seq<Op>, states: seq<Schedule>, k: nat)
    requires IsRun(ops, states) && k < |states|
    ensures InSync(states[k]) && LogsOk(states[k])
  {
    hide Apply, Enabled, InSync, LogsOk;
    if k == 0 {
      assert InSync(EMPTY) && LogsOk(EMPTY) by { EmptyAgrees(); }
    } else {
      ScheduleAgrees(ops, states, k - 1);
      StepInSync(states[k - 1], ops[k - 1]);
      StepLogsOk(states[k - 1], ops[k - 1]);
    }
  }

  lemma EmptyAgrees()
    ensures InSync(EMPTY) && LogsOk(EMPTY)
  {
  }

  /** When the clock never runs backwards, the newest row is also the one with the latest time. */
  lemma {:induction false} NewestIsLatest(logs: seq<RunLog>, id: nat, automatic: bool)
    requires forall i, j :: 0 <= i <= j < |logs| ==> logs[i].ranAt <= logs[j].ranAt
    ensures Newest(logs, id, automatic).Some? ==>
              forall log <- logs :: log.destination == id && (automatic ==> log.trigger != MANUAL_LOG) ==>
                log.ranAt <= Newest(logs, id, automatic).value.ranAt
  {
    if logs != [] {
      var init, last := logs[..|logs| - 1], logs[|logs| - 1];
      NewestIsLatest(init, id, automatic);
      assert forall log <- logs :: log in init || log == last;
      assert forall log <- logs :: log.ranAt <= last.ranAt;
    }
  }
}
