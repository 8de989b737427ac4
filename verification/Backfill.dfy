/** Filling in missing secret digests: several server processes, each with its
    own stale row cache, requests under way, in-flight set and background tasks,
    write to one table by compare-and-set (gpustack/api/auth.py:377-482, 520-546;
    gpustack/server/services.py:468-494). */
module Backfill {
  import opened Lists
  import opened SecretDigest
  import Traces

  /** A row of the key table, without what this protocol never looks at. */
  datatype Row = Row(accessKey: string, isCustom: bool, digest: Option<string>)

  /** A row read from the table that is not in the cache yet. */
  datatype Copy = Copy(key: nat, row: Row)

  /** A request under way, with the row it was given; `slow` once its digest was
      found unusable and the slow verifier is at work. */
  datatype Held = Held(key: nat, row: Row, secret: string, slow: bool)

  /** A task has yet to write, has written, or is over. */
  datatype Stage = Pending | Written | Over

  datatype Task = Task(key: nat, digest: string, expected: Option<string>, stage: Stage)

  datatype Process = Process(allowCustom: bool, cache: map<nat, Row>, fetched: seq<Copy>, held: seq<Held>,
                             inFlight: set<nat>, tasks: seq<Task>, warned: set<nat>, warnings: seq<nat>)

  /** The table, the processes, and a tally of the updates that took effect. */
  datatype State = State(rows: map<nat, Row>, procs: seq<Process>, updates: seq<nat>)

  /** The hash, and the true secret behind each key. */
  datatype World = World(hash: Hash, secretOf: nat -> string)

  // ----- one process -------------------------------------------------------

  /** A list without its element at `i`. */
  function Without<T>(s: seq<T>, i: nat): (rest: seq<T>)
    requires i < |s|
    ensures |rest| == |s| - 1
    ensures forall a :: 0 <= a < |rest| ==> rest[a] == s[if a < i then a else a + 1]
  {
    s[..i] + s[i + 1..]
  }

  /** `_schedule_secret_key_digest_backfill`. */
  function Schedule(w: World, p: Process, h: Held, salt: Salt): Process {
    if !Eligible(h.secret, h.row.isCustom, h.row.accessKey, p.allowCustom) || h.key in p.inFlight then p
    else p.(inFlight := p.inFlight + {h.key},
            tasks := p.tasks + [Task(h.key, NewDigest(w.hash, salt, h.secret), h.row.digest, Pending)])
  }

  /** A digest that is there but cannot be checked is reported once per key. */
  function Warn(p: Process, key: nat, row: Row): Process {
    if row.digest.Some? && row.digest.value != "" && key !in p.warned
    then p.(warned := p.warned + {key}, warnings := p.warnings + [key]) else p
  }

  /** The slow verifier: argon2 accepts exactly the true secret. */
  predicate SlowVerify(w: World, key: nat, secret: string) { secret == w.secretOf(key) }

  /** The verdict on a request. */
  predicate Accepts(w: World, h: Held) {
    if Usable(h.row.digest) then Verify(w.hash, h.row.digest, h.secret) else SlowVerify(w, h.key, h.secret)
  }

  /** A request looks at the digest of its row: a usable one decides at once, else
      the slow verifier is started. */
  function CheckRequest(p: Process, i: nat): Process
    requires i < |p.held|
  {
    var h := p.held[i];
    if Usable(h.row.digest) then p.(held := Without(p.held, i))
    else Warn(p, h.key, h.row).(held := p.held[i := h.(slow := true)])
  }

  /** The slow verifier is done; other steps may have come in between. */
  function ResolveRequest(w: World, p: Process, i: nat, salt: Salt): Process
    requires i < |p.held|
  {
    var done := p.(held := Without(p.held, i));
    if SlowVerify(w, p.held[i].key, p.held[i].secret) then Schedule(w, done, p.held[i], salt) else done
  }

  /** The compare-and-set: the row must still hold what the task expected. */
  predicate Matches(rows: map<nat, Row>, t: Task) { t.key in rows && rows[t.key].digest == t.expected }

  function CompareAndSet(rows: map<nat, Row>, t: Task): map<nat, Row> {
    if Matches(rows, t) then rows[t.key := rows[t.key].(digest := Some(t.digest))] else rows
  }

  function AtStage(p: Process, i: nat, stage: Stage): Process
    requires i < |p.tasks|
  {
    p.(tasks := p.tasks[i := p.tasks[i].(stage := stage)])
  }

  /** The end of a task, failed or not: the cached row goes if the task got that
      far, and the key leaves the in-flight set either way. */
  function EndTask(p: Process, i: nat, invalidate: bool): Process
    requires i < |p.tasks|
  {
    var key := p.tasks[i].key;
    AtStage(p, i, Over).(cache := if invalidate then p.cache - {key} else p.cache, inFlight := p.inFlight - {key})
  }

  // ----- the steps of the whole system -------------------------------------

  /** A step of one process, between two of its awaits. */
  datatype Event =
    | Fetch(proc: nat, key: nat)
    | Fill(proc: nat, copy: nat)
    | Evict(proc: nat, key: nat)
    | Begin(proc: nat, key: nat, secret: string)
    | Check(proc: nat, request: nat)
    | Resolve(proc: nat, request: nat, salt: Salt)
    | Abandon(proc: nat, request: nat)
    | Write(proc: nat, task: nat)
    | Finish(proc: nat, task: nat, invalidate: bool)
    | Fail(proc: nat, task: nat)
    | Reap(proc: nat, task: nat)

  predicate HasTask(p: Process, i: nat, stage: Stage) { i < |p.tasks| && p.tasks[i].stage == stage }

  predicate HasRequest(p: Process, i: nat, slow: bool) { i < |p.held| && p.held[i].slow == slow }

  /** What a step does to its process; one that cannot happen does nothing. */
  function OnProcess(w: World, rows: map<nat, Row>, p: Process, e: Event): Process {
    match e
    case Fetch(_, key) => if key in rows then p.(fetched := p.fetched + [Copy(key, rows[key])]) else p
    case Fill(_, i) =>
      if i < |p.fetched|
      then p.(cache := p.cache[p.fetched[i].key := p.fetched[i].row], fetched := Without(p.fetched, i)) else p
    case Evict(_, key) => p.(cache := p.cache - {key})
    case Begin(_, key, secret) =>
      if key in p.cache then p.(held := p.held + [Held(key, p.cache[key], secret, false)]) else p
    case Check(_, i) => if HasRequest(p, i, false) then CheckRequest(p, i) else p
    case Resolve(_, i, salt) => if HasRequest(p, i, true) then ResolveRequest(w, p, i, salt) else p
    case Abandon(_, i) => if i < |p.held| then p.(held := Without(p.held, i)) else p
    case Write(_, i) => if HasTask(p, i, Pending) then AtStage(p, i, Written) else p
    case Finish(_, i, invalidate) => if HasTask(p, i, Written) then EndTask(p, i, invalidate) else p
    case Fail(_, i) => if HasTask(p, i, Pending) then EndTask(p, i, false) else p
    case Reap(_, i) => if HasTask(p, i, Over) then p.(tasks := Without(p.tasks, i)) else p
  }

  /** The table after a step: only a task's write touches it. */
  function OnTable(rows: map<nat, Row>, p: Process, e: Event): map<nat, Row> {
    if e.Write? && HasTask(p, e.task, Pending) then CompareAndSet(rows, p.tasks[e.task]) else rows
  }

  /** The keys whose rows a step updates: at most one. */
  function Updated(rows: map<nat, Row>, p: Process, e: Event): seq<nat> {
    if e.Write? && HasTask(p, e.task, Pending) && Matches(rows, p.tasks[e.task]) then [p.tasks[e.task].key] else []
  }

  function Next(w: World, s: State, e: Event): State {
    if e.proc >= |s.procs| then s else
    var p := s.procs[e.proc];
    State(OnTable(s.rows, p, e), s.procs[e.proc := OnProcess(w, s.rows, p, e)],
          s.updates + Updated(s.rows, p, e))
  }

  function Step(w: World): (State, Event) -> State { (s, e) => Next(w, s, e) }

  // ----- what every step keeps ---------------------------------------------

  /** The digest verifies the true secret of the key and nothing else. */
  ghost predicate Genuine(w: World, key: nat, digest: Option<string>) {
    Usable(digest) && forall x :: Verify(w.hash, digest, x) <==> x == w.secretOf(key)
  }

  /** A version a row may take: the one it started with, or the same with a
      genuine digest in place of an unusable one. */
  ghost predicate VersionOf(w: World, start: map<nat, Row>, key: nat, row: Row) {
    && key in start
    && row.accessKey == start[key].accessKey && row.isCustom == start[key].isCustom
    && (row.digest == start[key].digest || (!Usable(start[key].digest) && Genuine(w, key, row.digest)))
  }

  ghost predicate GoodTable(w: World, rows: map<nat, Row>) {
    forall key :: key in rows && Usable(rows[key].digest) ==> Genuine(w, key, rows[key].digest)
  }

  /** A task that is not over: it carries a genuine digest for a row that started
      without a usable one, and expects just what that row started with. */
  ghost predicate GoodTask(w: World, start: map<nat, Row>, t: Task) {
    t.stage != Over ==>
      && t.key in start && !Usable(start[t.key].digest) && t.expected == start[t.key].digest
      && Genuine(w, t.key, Some(t.digest))
  }

  predicate Live(t: Task) { t.stage != Over }

  ghost predicate GoodCache(w: World, start: map<nat, Row>, cache: map<nat, Row>) {
    forall key :: key in cache ==> VersionOf(w, start, key, cache[key])
  }

  ghost predicate UnderWay(tasks: seq<Task>, key: nat) {
    exists i :: 0 <= i < |tasks| && Live(tasks[i]) && tasks[i].key == key
  }

  ghost predicate OneEach(tasks: seq<Task>) {
    forall i, j :: 0 <= i < j < |tasks| && Live(tasks[i]) && Live(tasks[j]) ==> tasks[i].key != tasks[j].key
  }

  /** The tasks are good, at most one is under way per key, and the in-flight set
      is exactly the keys under way. */
  ghost predicate GoodTasks(w: World, start: map<nat, Row>, tasks: seq<Task>, inFlight: set<nat>) {
    && (forall i :: 0 <= i < |tasks| ==> GoodTask(w, start, tasks[i]))
    && OneEach(tasks)
    && (forall key :: key in inFlight <==> UnderWay(tasks, key))
  }

  ghost predicate GoodWarnings(warnings: seq<nat>, warned: set<nat>) {
    && (forall key :: key in warnings <==> key in warned)
    && (forall i, j :: 0 <= i < j < |warnings| ==> warnings[i] != warnings[j])
  }

  ghost predicate GoodCopies(w: World, start: map<nat, Row>, fetched: seq<Copy>) {
    forall i :: 0 <= i < |fetched| ==> VersionOf(w, start, fetched[i].key, fetched[i].row)
  }

  ghost predicate GoodRequests(w: World, start: map<nat, Row>, held: seq<Held>) {
    forall i :: 0 <= i < |held| ==>
      VersionOf(w, start, held[i].key, held[i].row) && (held[i].slow ==> !Usable(held[i].row.digest))
  }

  /** Nothing a process holds on to need be current: a cached row, a copy, the row
      of a request may be any version of the real one. */
  ghost predicate GoodProcess(w: World, start: map<nat, Row>, p: Process) {
    && GoodCache(w, start, p.cache) && GoodCopies(w, start, p.fetched) && GoodRequests(w, start, p.held)
    && GoodTasks(w, start, p.tasks, p.inFlight) && GoodWarnings(p.warnings, p.warned)
  }

  ghost predicate GoodUpdates(start: map<nat, Row>, s: State)
    requires s.rows.Keys == start.Keys
  {
    && (forall key :: key in s.updates ==> key in s.rows && Usable(s.rows[key].digest) && !Usable(start[key].digest))
    && (forall i, j :: 0 <= i < j < |s.updates| ==> s.updates[i] != s.updates[j])
    && (forall key :: key in s.rows && s.rows[key] != start[key] ==> key in s.updates)
  }

  ghost predicate WrittenAreUsable(rows: map<nat, Row>, tasks: seq<Task>) {
    forall i :: 0 <= i < |tasks| && tasks[i].stage == Written ==>
      tasks[i].key in rows && Usable(rows[tasks[i].key].digest)
  }

  ghost predicate GoodRows(w: World, start: map<nat, Row>, rows: map<nat, Row>) {
    rows.Keys == start.Keys && forall key :: key in rows ==> VersionOf(w, start, key, rows[key])
  }

  ghost predicate Inv(w: World, start: map<nat, Row>, s: State) {
    && GoodHash(w.hash) && GoodTable(w, start) && GoodRows(w, start, s.rows) && GoodUpdates(start, s)
    && (forall q :: 0 <= q < |s.procs| ==>
          GoodProcess(w, start, s.procs[q]) && WrittenAreUsable(s.rows, s.procs[q].tasks))
  }

  // ----- one task more, one stage on, one task less ------------------------

  lemma TaskAdded(w: World, start: map<nat, Row>, tasks: seq<Task>, inFlight: set<nat>, t: Task)
    requires GoodTasks(w, start, tasks, inFlight) && GoodTask(w, start, t) && t.stage == Pending && t.key !in inFlight
    ensures GoodTasks(w, start, tasks + [t], inFlight + {t.key})
  {
    var after := tasks + [t];
    forall key ensures UnderWay(after, key) <==> UnderWay(tasks, key) || key == t.key {
      if UnderWay(tasks, key) {
        var i :| 0 <= i < |tasks| && Live(tasks[i]) && tasks[i].key == key;
        assert after[i] == tasks[i];
      }
      assert after[|tasks|] == t;
    }
    forall i | 0 <= i < |tasks| && Live(tasks[i]) ensures tasks[i].key != t.key {
      assert UnderWay(tasks, tasks[i].key);
    }
  }

  lemma TaskStaged(w: World, start: map<nat, Row>, tasks: seq<Task>, inFlight: set<nat>, i: nat, stage: Stage)
    requires GoodTasks(w, start, tasks, inFlight) && i < |tasks| && Live(tasks[i])
    ensures var after := tasks[i := tasks[i].(stage := stage)];
      GoodTasks(w, start, after, if stage == Over then inFlight - {tasks[i].key} else inFlight)
  {
    var after := tasks[i := tasks[i].(stage := stage)];
    forall key ensures UnderWay(after, key) <==> UnderWay(tasks, key) && !(stage == Over && key == tasks[i].key) {
      if UnderWay(tasks, key) {
        var j :| 0 <= j < |tasks| && Live(tasks[j]) && tasks[j].key == key;
        assert j != i ==> after[j] == tasks[j];
        assert after[i].key == tasks[i].key;
      }
      if UnderWay(after, key) {
        var j :| 0 <= j < |after| && Live(after[j]) && after[j].key == key;
        assert tasks[j].key == key && Live(tasks[j]);
      }
    }
  }

  lemma TaskReaped(w: World, start: map<nat, Row>, tasks: seq<Task>, inFlight: set<nat>, i: nat)
    requires GoodTasks(w, start, tasks, inFlight) && i < |tasks| && tasks[i].stage == Over
    ensures GoodTasks(w, start, Without(tasks, i), inFlight)
  {
    var after := Without(tasks, i);
    forall key ensures UnderWay(after, key) <==> UnderWay(tasks, key) {
      if UnderWay(tasks, key) {
        var j :| 0 <= j < |tasks| && Live(tasks[j]) && tasks[j].key == key;
        assert tasks[j] == if j < i then after[j] else after[j - 1];
      }
    }
  }

  // ----- the steps keep the invariant --------------------------------------

  lemma NewDigestGenuine(w: World, key: nat, salt: Salt)
    requires GoodHash(w.hash)
    ensures Genuine(w, key, Some(NewDigest(w.hash, salt, w.secretOf(key))))
  {
    var d := Some(NewDigest(w.hash, salt, w.secretOf(key)));
    NewDigestVerifies(w.hash, salt, w.secretOf(key), "");
    forall x ensures Usable(d) && (Verify(w.hash, d, x) <==> x == w.secretOf(key)) {
      NewDigestVerifies(w.hash, salt, w.secretOf(key), x);
    }
  }

  /** What a process does once the slow verifier is done depends only on the held
      row being a version of the real one, not on its being current. */
  lemma RequestKeeps(w: World, start: map<nat, Row>, p: Process, i: nat, salt: Salt)
    requires GoodHash(w.hash) && GoodProcess(w, start, p) && HasRequest(p, i, true)
    ensures GoodProcess(w, start, ResolveRequest(w, p, i, salt))
    ensures ResolveRequest(w, p, i, salt).tasks == p.tasks ||
      exists t :: ResolveRequest(w, p, i, salt).tasks == p.tasks + [t] && t.stage == Pending
  {
    var h := p.held[i];
    if SlowVerify(w, h.key, h.secret) && h.key !in p.inFlight &&
       Eligible(h.secret, h.row.isCustom, h.row.accessKey, p.allowCustom)
    {
      var t := Task(h.key, NewDigest(w.hash, salt, h.secret), h.row.digest, Pending);
      NewDigestGenuine(w, h.key, salt);
      assert GoodTask(w, start, t);
      TaskAdded(w, start, p.tasks, p.inFlight, t);
      assert ResolveRequest(w, p, i, salt).tasks == p.tasks + [t];
    }
  }

  lemma CheckKeeps(w: World, start: map<nat, Row>, p: Process, i: nat)
    requires GoodProcess(w, start, p) && HasRequest(p, i, false)
    ensures GoodProcess(w, start, CheckRequest(p, i))
  {
    var h := p.held[i];
    if !Usable(h.row.digest) {
      var warned := Warn(p, h.key, h.row);
      assert GoodWarnings(warned.warnings, warned.warned);
    }
  }

  lemma ReadingKeeps(w: World, start: map<nat, Row>, rows: map<nat, Row>, p: Process, e: Event)
    requires GoodRows(w, start, rows) && GoodProcess(w, start, p)
    requires e.Fetch? || e.Fill? || e.Evict? || e.Begin? || e.Abandon?
    ensures GoodProcess(w, start, OnProcess(w, rows, p, e))
  {
    match e {
      case Fetch(_, key) =>
        assert key in rows ==> VersionOf(w, start, key, rows[key]);
      case Begin(_, key, _) =>
        assert key in p.cache ==> VersionOf(w, start, key, p.cache[key]);
      case Fill(_, i) =>
        assert i < |p.fetched| ==> VersionOf(w, start, p.fetched[i].key, p.fetched[i].row);
      case _ =>
    }
  }

  lemma TaskStepKeeps(w: World, start: map<nat, Row>, p: Process, i: nat, stage: Stage, cache: map<nat, Row>)
    requires GoodProcess(w, start, p) && i < |p.tasks| && Live(p.tasks[i]) && GoodCache(w, start, cache)
    ensures GoodProcess(w, start, AtStage(p, i, stage).(cache := cache,
      inFlight := if stage == Over then p.inFlight - {p.tasks[i].key} else p.inFlight))
  {
    TaskStaged(w, start, p.tasks, p.inFlight, i, stage);
  }

  /** Every step of a process keeps what holds of it. */
  lemma ProcessKeeps(w: World, start: map<nat, Row>, rows: map<nat, Row>, p: Process, e: Event)
    requires GoodHash(w.hash) && GoodRows(w, start, rows) && GoodProcess(w, start, p)
    ensures GoodProcess(w, start, OnProcess(w, rows, p, e))
  {
    match e {
      case Check(_, i) =>
        if HasRequest(p, i, false) { CheckKeeps(w, start, p, i); }
      case Resolve(_, i, salt) =>
        if HasRequest(p, i, true) { RequestKeeps(w, start, p, i, salt); }
      case Write(_, i) =>
        if HasTask(p, i, Pending) { TaskStepKeeps(w, start, p, i, Written, p.cache); }
      case Finish(_, i, _) =>
        if HasTask(p, i, Written) { TaskStepKeeps(w, start, p, i, Over, OnProcess(w, rows, p, e).cache); }
      case Fail(_, i) =>
        if HasTask(p, i, Pending) { TaskStepKeeps(w, start, p, i, Over, p.cache); }
      case Reap(_, i) =>
        if HasTask(p, i, Over) { TaskReaped(w, start, p.tasks, p.inFlight, i); }
      case _ =>
        ReadingKeeps(w, start, rows, p, e);
    }
  }

  /** The write of a task: whatever the table has become since the task was
      scheduled, afterwards its row has a usable digest. */
  lemma WriteMakesUsable(w: World, start: map<nat, Row>, rows: map<nat, Row>, t: Task)
    requires GoodRows(w, start, rows) && GoodTask(w, start, t) && Live(t)
    ensures t.key in rows && Usable(CompareAndSet(rows, t)[t.key].digest)
    ensures GoodRows(w, start, CompareAndSet(rows, t))
    ensures forall key :: key in rows && Usable(rows[key].digest) ==> CompareAndSet(rows, t)[key] == rows[key]
  {
    assert VersionOf(w, start, t.key, rows[t.key]);
  }

  lemma UpdateCounted(start: map<nat, Row>, s: State, t: Task)
    requires s.rows.Keys == start.Keys && GoodUpdates(start, s) && Matches(s.rows, t)
    requires !Usable(s.rows[t.key].digest) && !Usable(start[t.key].digest) && Usable(Some(t.digest))
    ensures GoodUpdates(start, s.(rows := CompareAndSet(s.rows, t), updates := s.updates + [t.key]))
  {
    assert t.key !in s.updates;
  }

  /** What the table and the tally are after a step. */
  lemma TableKeeps(w: World, start: map<nat, Row>, s: State, e: Event)
    requires Inv(w, start, s) && e.proc < |s.procs|
    ensures GoodRows(w, start, Next(w, s, e).rows) && GoodUpdates(start, Next(w, s, e))
    ensures forall key :: key in s.rows && Usable(s.rows[key].digest) ==> Next(w, s, e).rows[key] == s.rows[key]
  {
    var p := s.procs[e.proc];
    if e.Write? && HasTask(p, e.task, Pending) {
      var t := p.tasks[e.task];
      assert GoodProcess(w, start, p) && GoodTask(w, start, t);
      WriteMakesUsable(w, start, s.rows, t);
      if Matches(s.rows, t) {
        UpdateCounted(start, s, t);
      }
    }
  }

  lemma WriteLeavesUsable(w: World, start: map<nat, Row>, rows: map<nat, Row>, p: Process, i: nat)
    requires GoodRows(w, start, rows) && HasTask(p, i, Pending) && GoodTask(w, start, p.tasks[i]) && WrittenAreUsable(rows, p.tasks)
    ensures WrittenAreUsable(CompareAndSet(rows, p.tasks[i]), AtStage(p, i, Written).tasks)
  {
    WriteMakesUsable(w, start, rows, p.tasks[i]);
  }

  /** Apart from a write, no step makes a task a written one. */
  lemma WrittenWereWritten(w: World, rows: map<nat, Row>, p: Process, e: Event, i: nat)
    requires !e.Write? && HasTask(OnProcess(w, rows, p, e), i, Written)
    ensures OnProcess(w, rows, p, e).tasks[i] in p.tasks
  {
    var after := OnProcess(w, rows, p, e);
    if e.Reap? && HasTask(p, e.task, Over) {
      assert after.tasks[i] == p.tasks[if i < e.task then i else i + 1];
    } else if e.Resolve? && HasRequest(p, e.request, true) {
      ResolveAddsPending(w, p, e.request, e.salt);
      assert after.tasks[i] == p.tasks[i];
    } else {
      assert after.tasks[i] == p.tasks[i];
    }
  }

  lemma ResolveAddsPending(w: World, p: Process, i: nat, salt: Salt)
    requires i < |p.held|
    ensures var after := ResolveRequest(w, p, i, salt).tasks;
      |p.tasks| <= |after| && forall k :: 0 <= k < |after| ==> if k < |p.tasks| then after[k] == p.tasks[k] else after[k].stage == Pending
  {
  }

  lemma WrittenStayUsable(w: World, start: map<nat, Row>, rows: map<nat, Row>, p: Process, e: Event)
    requires GoodRows(w, start, rows) && GoodTasks(w, start, p.tasks, p.inFlight) && WrittenAreUsable(rows, p.tasks)
    ensures WrittenAreUsable(OnTable(rows, p, e), OnProcess(w, rows, p, e).tasks)
  {
    if !e.Write? {
      var after := OnProcess(w, rows, p, e).tasks;
      forall i | 0 <= i < |after| && after[i].stage == Written ensures after[i].key in rows && Usable(rows[after[i].key].digest) {
        WrittenWereWritten(w, rows, p, e, i);
      }
    } else if HasTask(p, e.task, Pending) {
      WriteLeavesUsable(w, start, rows, p, e.task);
    }
  }

  /** Every step keeps the invariant and every usable digest. */
  lemma StepKeeps(w: World, start: map<nat, Row>, s: State, e: Event)
    requires Inv(w, start, s)
    ensures Inv(w, start, Next(w, s, e))
    ensures forall key :: key in s.rows && Usable(s.rows[key].digest) ==> Next(w, s, e).rows[key] == s.rows[key]
  {
    if e.proc < |s.procs| {
      var next := Next(w, s, e);
      ProcessKeeps(w, start, s.rows, s.procs[e.proc], e);
      TableKeeps(w, start, s, e);
      WrittenStayUsable(w, start, s.rows, s.procs[e.proc], e);
      forall q | 0 <= q < |next.procs|
        ensures GoodProcess(w, start, next.procs[q]) && WrittenAreUsable(next.rows, next.procs[q].tasks)
      {
        if q != e.proc {
          assert next.procs[q] == s.procs[q] && WrittenAreUsable(s.rows, s.procs[q].tasks);
        }
      }
    }
  }

  // ----- over whole runs ---------------------------------------------------

  /** A start: the table's usable digests are genuine, every process holds at
      most current rows, and nothing is under way. */
  ghost predicate Start(w: World, s: State) {
    && GoodHash(w.hash) && GoodTable(w, s.rows) && s.updates == []
    && (forall q :: 0 <= q < |s.procs| ==> Idle(s.procs[q]) && CurrentCache(s.rows, s.procs[q].cache))
  }

  predicate Idle(p: Process) {
    p.fetched == [] && p.held == [] && p.tasks == [] && p.inFlight == {} && p.warned == {} && p.warnings == []
  }

  ghost predicate CurrentCache(rows: map<nat, Row>, cache: map<nat, Row>) {
    forall key :: key in cache ==> key in rows && cache[key] == rows[key]
  }

  function Run(w: World, s: State, events: seq<Event>): State { Traces.Run(Step(w), s, events) }

  lemma {:induction false} RunKeeps(w: World, start: map<nat, Row>, s: State, events: seq<Event>)
    requires Inv(w, start, s)
    ensures Inv(w, start, Run(w, s, events))
    ensures forall key :: key in s.rows && Usable(s.rows[key].digest) ==> Run(w, s, events).rows[key] == s.rows[key]
    decreases |events|
  {
    if events != [] {
      StepKeeps(w, start, s, events[0]);
      RunKeeps(w, start, Next(w, s, events[0]), events[1..]);
    }
  }

  lemma StartIsGood(w: World, s: State)
    requires Start(w, s)
    ensures Inv(w, s.rows, s)
  {
  }

  /** Safety of the protocol: under any interleaving of processes, stale reads
      and failing tasks,
      - the table keeps its rows, and a row that ever has a usable digest keeps it;
      - a row that started without one is updated at most once, one that started
        with one never;
      - a process has at most one task under way per key, and its in-flight set
        is exactly the keys of those tasks;
      - no process reports a key twice. */
  lemma BackfillIsSafe(w: World, s: State, before: seq<Event>, after: seq<Event>)
    requires Start(w, s)
    ensures var mid, end := Run(w, s, before), Run(w, s, before + after);
      && end.rows.Keys == mid.rows.Keys == s.rows.Keys
      && (forall key :: key in s.rows && Usable(mid.rows[key].digest) ==> end.rows[key] == mid.rows[key])
      && (forall key :: key in s.rows ==> multiset(end.updates)[key] <= if Usable(s.rows[key].digest) then 0 else 1)
      && (forall key :: key in s.rows && end.rows[key] != s.rows[key] ==>
            multiset(end.updates)[key] == 1 && Genuine(w, key, end.rows[key].digest))
      && (forall q :: 0 <= q < |end.procs| ==>
            && OneEach(end.procs[q].tasks)
            && (forall key :: key in end.procs[q].inFlight <==> UnderWay(end.procs[q].tasks, key))
            && (forall i, j :: 0 <= i < j < |end.procs[q].warnings| ==> end.procs[q].warnings[i] != end.procs[q].warnings[j]))
  {
    StartIsGood(w, s);
    RunKeeps(w, s.rows, s, before);
    var mid := Run(w, s, before);
    RunKeeps(w, s.rows, mid, after);
    Traces.RunConcat(Step(w), s, before, after);
    var end := Run(w, mid, after);
    forall key | key in s.rows
      ensures multiset(end.updates)[key] <= (if Usable(s.rows[key].digest) then 0 else 1)
      ensures end.rows[key] != s.rows[key] ==> multiset(end.updates)[key] == 1
    {
      DistinctCount(end.updates, key);
    }
  }

  lemma {:induction false} DistinctCount(s: seq<nat>, x: nat)
    requires forall i, j :: 0 <= i < j < |s| ==> s[i] != s[j]
    ensures multiset(s)[x] == if x in s then 1 else 0
  {
    if s != [] {
      DistinctCount(s[1..], x);
      assert s == [s[0]] + s[1..];
      assert s[0] !in s[1..];
    }
  }

  lemma VerdictIsRight(w: World, start: map<nat, Row>, h: Held)
    requires GoodTable(w, start) && VersionOf(w, start, h.key, h.row)
    ensures Accepts(w, h) <==> h.secret == w.secretOf(h.key)
  {
  }

  /** The verdict on any request, at any time, on a row however stale, is the right
      one: accept exactly the true secret. */
  lemma DecisionIsRight(w: World, s: State, events: seq<Event>, q: nat, i: nat)
    requires Start(w, s)
    requires q < |Run(w, s, events).procs| && i < |Run(w, s, events).procs[q].held|
    ensures var h := Run(w, s, events).procs[q].held[i];
      && (Accepts(w, h) <==> h.secret == w.secretOf(h.key))
      && (h.slow ==> (SlowVerify(w, h.key, h.secret) <==> Accepts(w, h)))
  {
    StartIsGood(w, s);
    RunKeeps(w, s.rows, s, events);
    var p := Run(w, s, events).procs[q];
    assert GoodProcess(w, s.rows, p);
    VerdictIsRight(w, s.rows, p.held[i]);
  }

  /** Convergence: whenever a task gets to write, its key has a usable digest
      from then on, so the next load of the row takes the fast path. */
  lemma WrittenKeysConverge(w: World, s: State, before: seq<Event>, e: Event, after: seq<Event>)
    requires Start(w, s) && e.Write? && e.proc < |Run(w, s, before).procs| &&
      HasTask(Run(w, s, before).procs[e.proc], e.task, Pending)
    ensures var key := Run(w, s, before).procs[e.proc].tasks[e.task].key;
      var end := Run(w, Next(w, Run(w, s, before), e), after);
      key in end.rows && Usable(end.rows[key].digest)
  {
    StartIsGood(w, s);
    RunKeeps(w, s.rows, s, before);
    var mid := Run(w, s, before);
    assert GoodProcess(w, s.rows, mid.procs[e.proc]);
    assert GoodTask(w, s.rows, mid.procs[e.proc].tasks[e.task]);
    WriteMakesUsable(w, s.rows, mid.rows, mid.procs[e.proc].tasks[e.task]);
    StepKeeps(w, s.rows, mid, e);
    RunKeeps(w, s.rows, Next(w, mid, e), after);
  }

  /** A request that finds its digest unusable is not lost, and neither is the
      finding: it goes on to the slow verifier with the same row and secret,
      and a digest that is there is reported, now or before, a missing one
      never. */
  lemma UnusableGoesSlow(w: World, s: State, events: seq<Event>, q: nat, i: nat)
    requires Start(w, s) && q < |Run(w, s, events).procs| && HasRequest(Run(w, s, events).procs[q], i, false)
    requires !Usable(Run(w, s, events).procs[q].held[i].row.digest)
    ensures var h := Run(w, s, events).procs[q].held[i];
      var after := Next(w, Run(w, s, events), Check(q, i)).procs[q];
      && HasRequest(after, i, true) && after.held[i].key == h.key && after.held[i].row == h.row && after.held[i].secret == h.secret
      && (h.row.digest.Some? && h.row.digest.value != "" ==> h.key in after.warnings)
      && (h.row.digest == None || h.row.digest == Some("") ==> after.warnings == Run(w, s, events).procs[q].warnings)
  {
    StartIsGood(w, s);
    RunKeeps(w, s.rows, s, events);
    var p := Run(w, s, events).procs[q];
    assert GoodProcess(w, s.rows, p) && GoodWarnings(p.warnings, p.warned);
  }

  /** `i` is the one task under way for the key. */
  ghost predicate OnlyTask(tasks: seq<Task>, key: nat, i: nat) {
    && i < |tasks| && Live(tasks[i]) && tasks[i].key == key
    && forall j :: 0 <= j < |tasks| && Live(tasks[j]) && tasks[j].key == key ==> j == i
  }

  lemma RequestSchedules(w: World, start: map<nat, Row>, p: Process, i: nat, salt: Salt)
    requires GoodHash(w.hash) && GoodProcess(w, start, p) && HasRequest(p, i, true)
    requires p.held[i].secret == w.secretOf(p.held[i].key)
    requires Eligible(p.held[i].secret, p.held[i].row.isCustom, p.held[i].row.accessKey, p.allowCustom)
    ensures exists k :: OnlyTask(ResolveRequest(w, p, i, salt).tasks, p.held[i].key, k)
  {
    RequestKeeps(w, start, p, i, salt);
    var after, key := ResolveRequest(w, p, i, salt), p.held[i].key;
    assert key in after.inFlight;
    assert UnderWay(after.tasks, key);
    var k :| 0 <= k < |after.tasks| && Live(after.tasks[k]) && after.tasks[k].key == key;
    assert OnlyTask(after.tasks, key, k);
  }

  lemma LiveTaskWrites(w: World, start: map<nat, Row>, s: State, q: nat, i: nat)
    requires Inv(w, start, s) && q < |s.procs| && i < |s.procs[q].tasks| && Live(s.procs[q].tasks[i])
    ensures s.procs[q].tasks[i].key in Next(w, s, Write(q, i)).rows
    ensures Usable(Next(w, s, Write(q, i)).rows[s.procs[q].tasks[i].key].digest)
  {
    var t := s.procs[q].tasks[i];
    assert GoodProcess(w, start, s.procs[q]) && WrittenAreUsable(s.rows, s.procs[q].tasks);
    assert GoodTask(w, start, t);
    if t.stage == Pending {
      WriteMakesUsable(w, start, s.rows, t);
    }
  }

  lemma UsableStaysGenuine(w: World, start: map<nat, Row>, s: State, key: nat, after: seq<Event>)
    requires Inv(w, start, s) && key in s.rows && Usable(s.rows[key].digest)
    ensures key in Run(w, s, after).rows && Genuine(w, key, Run(w, s, after).rows[key].digest)
  {
    RunKeeps(w, start, s, after);
    assert VersionOf(w, start, key, Run(w, s, after).rows[key]);
  }

  /** Progress: after any run, when the slow verifier accepts a request for a key
      with an access key, generated or custom while those are allowed, however stale the row it holds, exactly one task of this
      process is then under way for the key; and once that task has written,
      whatever else happens, the key has a digest that verifies its true
      secret. */
  lemma RequestLeadsToDigest(w: World, s: State, before: seq<Event>, q: nat, i: nat, salt: Salt, after: seq<Event>)
    requires Start(w, s) && q < |Run(w, s, before).procs| && HasRequest(Run(w, s, before).procs[q], i, true)
    requires var p := Run(w, s, before).procs[q];
      var h := p.held[i];
      && h.secret == w.secretOf(h.key) && h.row.accessKey != ""
      && (if h.row.isCustom then p.allowCustom else IsGenerated(h.secret))
    ensures var key := Run(w, s, before).procs[q].held[i].key;
      var mid := Next(w, Run(w, s, before), Resolve(q, i, salt));
      exists k :: OnlyTask(mid.procs[q].tasks, key, k) &&
        var end := Run(w, Next(w, mid, Write(q, k)), after);
        key in end.rows && Genuine(w, key, end.rows[key].digest)
  {
    StartIsGood(w, s);
    RunKeeps(w, s.rows, s, before);
    AcceptedLeadsToDigest(w, s.rows, Run(w, s, before), q, i, salt, after);
  }

  lemma AcceptedLeadsToDigest(w: World, start: map<nat, Row>, s: State, q: nat, i: nat, salt: Salt, after: seq<Event>)
    requires Inv(w, start, s) && q < |s.procs| && HasRequest(s.procs[q], i, true)
    requires var h := s.procs[q].held[i];
      h.secret == w.secretOf(h.key) && Eligible(h.secret, h.row.isCustom, h.row.accessKey, s.procs[q].allowCustom)
    ensures var key := s.procs[q].held[i].key;
      var mid := Next(w, s, Resolve(q, i, salt));
      exists k :: OnlyTask(mid.procs[q].tasks, key, k) &&
        var end := Run(w, Next(w, mid, Write(q, k)), after);
        key in end.rows && Genuine(w, key, end.rows[key].digest)
  {
    var p, key := s.procs[q], s.procs[q].held[i].key;
    assert GoodProcess(w, start, p);
    RequestSchedules(w, start, p, i, salt);
    StepKeeps(w, start, s, Resolve(q, i, salt));
    var mid := Next(w, s, Resolve(q, i, salt));
    var k :| OnlyTask(mid.procs[q].tasks, key, k);
    LiveTaskWrites(w, start, mid, q, k);
    StepKeeps(w, start, mid, Write(q, k));
    UsableStaysGenuine(w, start, Next(w, mid, Write(q, k)), key, after);
  }

  // ----- the fast path afterwards ------------------------------------------

  /** The end of a written task drops its key from the cache and leaves every other
      cached row alone. */
  lemma FinishDropsRow(w: World, s: State, q: nat, i: nat, k: nat)
    requires q < |s.procs| && HasTask(s.procs[q], i, Written)
    ensures var p, after := s.procs[q], Next(w, s, Finish(q, i, true)).procs[q];
      && (k in after.cache <==> k in p.cache && k != p.tasks[i].key)
      && (k in after.cache ==> after.cache[k] == p.cache[k])
      && after.fetched == p.fetched && after.held == p.held
  {
  }

  /** No row of the key without a usable digest is in the cache or on its way. */
  ghost predicate Refreshed(p: Process, key: nat) {
    (key in p.cache ==> Usable(p.cache[key].digest)) && NoStaleCopy(p, key)
  }

  ghost predicate NoStaleCopy(p: Process, key: nat) {
    forall i :: 0 <= i < |p.fetched| && p.fetched[i].key == key ==> Usable(p.fetched[i].row.digest)
  }

  lemma ProcessStaysRefreshed(w: World, rows: map<nat, Row>, p: Process, e: Event, key: nat)
    requires Refreshed(p, key) && key in rows && Usable(rows[key].digest)
    ensures Refreshed(OnProcess(w, rows, p, e), key)
  {
    var after := OnProcess(w, rows, p, e);
    if e.Fill? && e.copy < |p.fetched| {
      assert after.fetched == Without(p.fetched, e.copy);
    }
  }

  lemma {:induction false} RunStaysRefreshed(w: World, start: map<nat, Row>, s: State, events: seq<Event>, q: nat, key: nat)
    requires Inv(w, start, s) && q < |s.procs| && key in s.rows && Usable(s.rows[key].digest) && Refreshed(s.procs[q], key)
    ensures q < |Run(w, s, events).procs| && Refreshed(Run(w, s, events).procs[q], key)
    decreases |events|
  {
    if events != [] {
      var e := events[0];
      StepKeeps(w, start, s, e);
      if e.proc == q {
        ProcessStaysRefreshed(w, s.rows, s.procs[q], e, key);
      }
      assert Refreshed(Next(w, s, e).procs[q], key);
      RunStaysRefreshed(w, start, Next(w, s, e), events[1..], q, key);
    }
  }

  /** From now on, whatever happens, this process's cache never holds a row of the
      key without a usable digest. */
  ghost predicate FastForGood(w: World, s: State, q: nat, key: nat) {
    forall events :: q < |Run(w, s, events).procs| &&
      (key in Run(w, s, events).procs[q].cache ==> Usable(Run(w, s, events).procs[q].cache[key].digest))
  }

  /** The backfill takes effect: when a written task ends after any run, its process
      never again caches the row as it was, if and only if no copy of the row
      read before the write is still on its way into the cache. */
  lemma FastForGoodIff(w: World, s: State, before: seq<Event>, q: nat, i: nat)
    requires Start(w, s) && q < |Run(w, s, before).procs| && HasTask(Run(w, s, before).procs[q], i, Written)
    ensures var p := Run(w, s, before).procs[q];
      FastForGood(w, Next(w, Run(w, s, before), Finish(q, i, true)), q, p.tasks[i].key) <==> NoStaleCopy(p, p.tasks[i].key)
  {
    StartIsGood(w, s);
    RunKeeps(w, s.rows, s, before);
    var was := Run(w, s, before);
    var p, key := was.procs[q], was.procs[q].tasks[i].key;
    var e := Finish(q, i, true);
    var mid := Next(w, was, e);
    StepKeeps(w, s.rows, was, e);
    assert WrittenAreUsable(was.rows, p.tasks);
    FinishDropsRow(w, was, q, i, key);
    if NoStaleCopy(p, key) {
      forall events ensures q < |Run(w, mid, events).procs| &&
        (key in Run(w, mid, events).procs[q].cache ==> Usable(Run(w, mid, events).procs[q].cache[key].digest))
      {
        RunStaysRefreshed(w, s.rows, mid, events, q, key);
      }
    } else {
      var c :| 0 <= c < |p.fetched| && p.fetched[c].key == key && !Usable(p.fetched[c].row.digest);
      StaleCopyArrives(w, mid, q, key, c);
    }
  }

  lemma StaleCopyArrives(w: World, s: State, q: nat, key: nat, c: nat)
    requires q < |s.procs| && c < |s.procs[q].fetched|
    requires s.procs[q].fetched[c].key == key && !Usable(s.procs[q].fetched[c].row.digest)
    ensures !FastForGood(w, s, q, key)
  {
    var events := [Fill(q, c)];
    assert events[1..] == [];
    assert Run(w, s, events) == Run(w, Step(w)(s, events[0]), events[1..]) == Next(w, s, Fill(q, c));
    assert key in Run(w, s, events).procs[q].cache && !Usable(Run(w, s, events).procs[q].cache[key].digest);
  }

  /** Fetching a row and filling it in gives the cache the row the table has, and
      changes nothing else. */
  lemma LoadCaches(w: World, s: State, q: nat, key: nat)
    requires q < |s.procs| && key in s.rows
    ensures var loaded := Next(w, Next(w, s, Fetch(q, key)), Fill(q, |s.procs[q].fetched|));
      && loaded.rows == s.rows && loaded.updates == s.updates
      && loaded.procs == s.procs[q := s.procs[q].(cache := s.procs[q].cache[key := s.rows[key]])]
  {
    var p, i := s.procs[q], |s.procs[q].fetched|;
    var fetched := Next(w, s, Fetch(q, key));
    assert fetched.procs[q].fetched == p.fetched + [Copy(key, s.rows[key])];
    assert Without(fetched.procs[q].fetched, i) == p.fetched;
  }

  /** A request on a cached row with a usable digest is answered at once, by a
      genuine digest, and leaves the process as it was: no task, no report. */
  lemma FastRequest(w: World, s: State, before: seq<Event>, q: nat, key: nat, secret: string)
    requires Start(w, s) && q < |Run(w, s, before).procs| && key in Run(w, s, before).procs[q].cache
    requires Usable(Run(w, s, before).procs[q].cache[key].digest)
    ensures var was := Run(w, s, before);
      var begun := Next(w, was, Begin(q, key, secret));
      var i := |was.procs[q].held|;
      && HasRequest(begun.procs[q], i, false) && begun.procs[q].held[i].secret == secret
      && Genuine(w, key, begun.procs[q].held[i].row.digest)
      && Next(w, begun, Check(q, i)) == was
  {
    StartIsGood(w, s);
    RunKeeps(w, s.rows, s, before);
    var was := Run(w, s, before);
    assert GoodProcess(w, s.rows, was.procs[q]);
    assert VersionOf(w, s.rows, key, was.procs[q].cache[key]);
    BeginThenCheck(w, was, q, key, secret);
  }

  lemma BeginThenCheck(w: World, s: State, q: nat, key: nat, secret: string)
    requires q < |s.procs| && key in s.procs[q].cache && Usable(s.procs[q].cache[key].digest)
    ensures var begun, i := Next(w, s, Begin(q, key, secret)), |s.procs[q].held|;
      && begun.procs[q].held == s.procs[q].held + [Held(key, s.procs[q].cache[key], secret, false)]
      && Next(w, begun, Check(q, i)) == s
  {
    var p, i := s.procs[q], |s.procs[q].held|;
    var begun := Next(w, s, Begin(q, key, secret));
    assert begun.procs[q].held == p.held + [Held(key, p.cache[key], secret, false)];
    assert Without(begun.procs[q].held, i) == p.held;
    var done := Next(w, begun, Check(q, i));
    assert done.procs[q] == p;
    assert done.procs == s.procs;
  }

  /** No task for the key, and no process that may store its secret's digest. */
  ghost predicate Excluded(w: World, row: Row, key: nat, p: Process) {
    && !Eligible(w.secretOf(key), row.isCustom, row.accessKey, p.allowCustom)
    && forall i :: 0 <= i < |p.tasks| ==> p.tasks[i].key != key
  }

  lemma ResolveExcludes(w: World, start: map<nat, Row>, p: Process, i: nat, salt: Salt, key: nat)
    requires key in start && i < |p.held| && VersionOf(w, start, p.held[i].key, p.held[i].row)
    requires Excluded(w, start[key], key, p)
    ensures Excluded(w, start[key], key, ResolveRequest(w, p, i, salt))
  {
  }

  lemma ProcessExcludes(w: World, start: map<nat, Row>, rows: map<nat, Row>, p: Process, e: Event, key: nat)
    requires key in start && GoodRequests(w, start, p.held) && Excluded(w, start[key], key, p)
    ensures Excluded(w, start[key], key, OnProcess(w, rows, p, e))
  {
    var r := OnProcess(w, rows, p, e);
    if e.Resolve? {
      if HasRequest(p, e.request, true) {
        ResolveExcludes(w, start, p, e.request, e.salt, key);
      }
    } else if e.Reap? {
      assert HasTask(p, e.task, Over) ==> r.tasks == Without(p.tasks, e.task);
    } else {
      assert |r.tasks| == |p.tasks| && forall i :: 0 <= i < |p.tasks| ==> r.tasks[i].key == p.tasks[i].key;
    }
  }

  lemma TableExcludes(w: World, row: Row, rows: map<nat, Row>, p: Process, e: Event, key: nat)
    requires Excluded(w, row, key, p) && key in rows
    ensures key in OnTable(rows, p, e) && OnTable(rows, p, e)[key] == rows[key]
  {
  }

  lemma StepExcludes(w: World, start: map<nat, Row>, s: State, e: Event, key: nat)
    requires Inv(w, start, s) && key in s.rows
    requires forall q :: 0 <= q < |s.procs| ==> Excluded(w, start[key], key, s.procs[q])
    ensures forall q :: 0 <= q < |Next(w, s, e).procs| ==> Excluded(w, start[key], key, Next(w, s, e).procs[q])
    ensures key in Next(w, s, e).rows && Next(w, s, e).rows[key] == s.rows[key]
  {
    if e.proc < |s.procs| {
      var p := s.procs[e.proc];
      assert GoodProcess(w, start, p) && Excluded(w, start[key], key, p);
      ProcessExcludes(w, start, s.rows, p, e, key);
      TableExcludes(w, start[key], s.rows, p, e, key);
      var next := Next(w, s, e);
      forall q | 0 <= q < |next.procs| ensures Excluded(w, start[key], key, next.procs[q]) {
        if q != e.proc {
          assert next.procs[q] == s.procs[q];
        }
      }
    }
  }

  lemma {:induction false} RunExcludes(w: World, start: map<nat, Row>, s: State, events: seq<Event>, key: nat)
    requires Inv(w, start, s) && key in s.rows
    requires forall q :: 0 <= q < |s.procs| ==> Excluded(w, start[key], key, s.procs[q])
    ensures key in Run(w, s, events).rows && Run(w, s, events).rows[key] == s.rows[key]
    decreases |events|
  {
    if events != [] {
      StepKeeps(w, start, s, events[0]);
      StepExcludes(w, start, s, events[0], key);
      RunExcludes(w, start, Next(w, s, events[0]), events[1..], key);
    }
  }

  /** A secret no process finds eligible, such as the legacy token with its empty
      access key or a custom key while all processes refuse custom keys, never
      gets a digest. */
  lemma IneligibleStaysSlow(w: World, s: State, events: seq<Event>, key: nat)
    requires Start(w, s) && key in s.rows
    requires forall q :: 0 <= q < |s.procs| ==>
      !Eligible(w.secretOf(key), s.rows[key].isCustom, s.rows[key].accessKey, s.procs[q].allowCustom)
    ensures key in Run(w, s, events).rows && Run(w, s, events).rows[key] == s.rows[key]
  {
    StartIsGood(w, s);
    RunExcludes(w, s.rows, s, events, key);
  }

  /** In the deployment's terms: a key with an empty access key, a custom key while
      every process refuses custom keys, and a key whose secret is not of the
      generated form never get a digest, over any run. */
  lemma UnfitKeysStaySlow(w: World, s: State, events: seq<Event>, key: nat)
    requires Start(w, s) && key in s.rows
    requires
      || s.rows[key].accessKey == ""
      || (s.rows[key].isCustom && forall q :: 0 <= q < |s.procs| ==> !s.procs[q].allowCustom)
      || (!s.rows[key].isCustom && !IsGenerated(w.secretOf(key)))
    ensures key in Run(w, s, events).rows && Run(w, s, events).rows[key] == s.rows[key]
  {
    IneligibleStaysSlow(w, s, events, key);
  }
}
