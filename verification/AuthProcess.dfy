/** The module-level sets of one server process and the key table, as the code
    changes them step by step, and a cluster of such processes on one table
    (gpustack/api/auth.py:377-482, 520-546). */
module AuthProcess {
  import opened Lists
  import opened SecretDigest
  import opened Backfill

  /** The step that answers a request: the check of a usable digest, or the end of a
      slow verification. */
  predicate Answers(p: Process, e: Event) {
    || (e.Check? && HasRequest(p, e.request, false) && Usable(p.held[e.request].row.digest))
    || (e.Resolve? && HasRequest(p, e.request, true))
  }

  class KeyTable {
    var rows: map<nat, Row>

    constructor (rows: map<nat, Row>)
      ensures this.rows == rows
    {
      this.rows := rows;
    }

    /** The guarded update statement: no row, or another value, and nothing
        happens; of the row only the digest changes. */
    method UpdateWhere(t: Task) returns (updated: bool)
      modifies this
      ensures rows == Backfill.CompareAndSet(old(rows), t)
      ensures updated <==> Matches(old(rows), t)
    {
      updated := t.key in rows && rows[t.key].digest == t.expected;
      if updated {
        rows := rows[t.key := rows[t.key].(digest := Some(t.digest))];
      }
    }
  }

  class Server {
    const allowCustom: bool
    var cache: map<nat, Row>
    var fetched: seq<Copy>
    var held: seq<Held>
    var inFlight: set<nat>
    var tasks: seq<Task>
    var warned: set<nat>
    var warnings: seq<nat>

    constructor (allowCustom: bool)
      ensures Snapshot() == Process(allowCustom, map[], [], [], {}, [], {}, [])
    {
      this.allowCustom, cache, fetched, held, inFlight, tasks, warned, warnings := allowCustom, map[], [], [], {}, [], {}, [];
    }

    ghost function Snapshot(): Process
      reads this
    {
      Process(allowCustom, cache, fetched, held, inFlight, tasks, warned, warnings)
    }

    method ScheduleBackfill(w: World, h: Held, salt: Salt)
      modifies this
      ensures Snapshot() == Schedule(w, old(Snapshot()), h, salt)
    {
      if !Eligible(h.secret, h.row.isCustom, h.row.accessKey, allowCustom) {
        return;
      }
      if h.key in inFlight {
        return;
      }
      var task := Task(h.key, NewDigest(w.hash, salt, h.secret), h.row.digest, Pending);
      inFlight := inFlight + {h.key};
      tasks := tasks + [task];
    }

    /** A request looks at the digest of its row. The verdict, if it is given at
        once, is the right one on any version of the row. */
    method CheckDigest(w: World, i: nat, ghost start: map<nat, Row>) returns (verdict: Option<bool>)
      requires HasRequest(Snapshot(), i, false) && GoodTable(w, start) && GoodProcess(w, start, Snapshot())
      modifies this
      ensures Snapshot() == CheckRequest(old(Snapshot()), i) && GoodProcess(w, start, Snapshot())
      ensures verdict.Some? <==> Usable(old(held)[i].row.digest)
      ensures verdict.Some? ==> (verdict.value <==> old(held)[i].secret == w.secretOf(old(held)[i].key))
    {
      CheckKeeps(w, start, Snapshot(), i);
      var h := held[i];
      if Usable(h.row.digest) {
        VerdictIsRight(w, start, h);
        verdict := Some(Verify(w.hash, h.row.digest, h.secret));
        held := Without(held, i);
      } else {
        if h.row.digest.Some? && h.row.digest.value != "" && h.key !in warned {
          warned := warned + {h.key};
          warnings := warnings + [h.key];
        }
        held := held[i := h.(slow := true)];
        verdict := None;
      }
    }

    /** The slow verifier comes back: an accepted secret is what a digest can be
        made from. */
    method FinishRequest(w: World, i: nat, salt: Salt, ghost start: map<nat, Row>) returns (verified: bool)
      requires HasRequest(Snapshot(), i, true) && GoodHash(w.hash) && GoodProcess(w, start, Snapshot())
      modifies this
      ensures Snapshot() == ResolveRequest(w, old(Snapshot()), i, salt) && GoodProcess(w, start, Snapshot())
      ensures verified <==> old(held)[i].secret == w.secretOf(old(held)[i].key)
    {
      RequestKeeps(w, start, Snapshot(), i, salt);
      var h := held[i];
      held := Without(held, i);
      verified := SlowVerify(w, h.key, h.secret);
      if verified {
        ScheduleBackfill(w, h, salt);
      }
    }

    /** The first half of a backfill task: its guarded update. */
    method WriteDigest(table: KeyTable, i: nat) returns (updated: bool)
      requires HasTask(Snapshot(), i, Pending)
      modifies this, table
      ensures table.rows == Backfill.CompareAndSet(old(table.rows), old(tasks)[i])
      ensures Snapshot() == AtStage(old(Snapshot()), i, Written)
      ensures updated <==> Matches(old(table.rows), old(tasks)[i])
    {
      updated := table.UpdateWhere(tasks[i]);
      tasks := tasks[i := tasks[i].(stage := Written)];
    }

    /** The rest of it, after the write or after a failure before it: drop the
        cached row if it gets that far, and always leave the in-flight set. */
    method FinishTask(i: nat, invalidate: bool)
      requires HasTask(Snapshot(), i, Written) || (HasTask(Snapshot(), i, Pending) && !invalidate)
      modifies this
      ensures Snapshot() == EndTask(old(Snapshot()), i, invalidate)
    {
      var key := tasks[i].key;
      if invalidate {
        cache := cache - {key};
      }
      inFlight := inFlight - {key};
      tasks := tasks[i := tasks[i].(stage := Over)];
    }

    /** The steps around the cache: reading a row, filling it in later, losing it,
        and starting a request on it or giving one up. */
    method Look(table: KeyTable, e: Event)
      requires e.Fetch? || e.Fill? || e.Evict? || e.Begin? || e.Abandon?
      modifies this
      ensures forall w :: Snapshot() == OnProcess(w, table.rows, old(Snapshot()), e)
    {
      match e {
        case Fetch(_, key) =>
          if key in table.rows { fetched := fetched + [Copy(key, table.rows[key])]; }
        case Fill(_, i) =>
          if i < |fetched| {
            cache := cache[fetched[i].key := fetched[i].row];
            fetched := Without(fetched, i);
          }
        case Evict(_, key) =>
          cache := cache - {key};
        case Begin(_, key, secret) =>
          if key in cache { held := held + [Held(key, cache[key], secret, false)]; }
        case Abandon(_, i) =>
          if i < |held| { held := Without(held, i); }
      }
    }

    /** The steps of the background tasks. */
    method Work(table: KeyTable, e: Event) returns (updated: seq<nat>)
      requires e.Write? || e.Finish? || e.Fail? || e.Reap?
      modifies this, table
      ensures forall w :: Snapshot() == OnProcess(w, old(table.rows), old(Snapshot()), e)
      ensures table.rows == OnTable(old(table.rows), old(Snapshot()), e)
      ensures updated == Updated(old(table.rows), old(Snapshot()), e)
    {
      updated := [];
      if e.task < |tasks| {
        match e {
          case Write(_, i) =>
            if tasks[i].stage == Pending {
              var effective := WriteDigest(table, i);
              updated := if effective then [tasks[i].key] else [];
            }
          case Finish(_, i, invalidate) =>
            if tasks[i].stage == Written { FinishTask(i, invalidate); }
          case Fail(_, i) =>
            if tasks[i].stage == Pending { FinishTask(i, false); }
          case Reap(_, i) =>
            if tasks[i].stage == Over { tasks := Without(tasks, i); }
        }
      }
    }

    /** Any step of this process. */
    method Do(w: World, table: KeyTable, e: Event, ghost start: map<nat, Row>) returns (verdict: Option<bool>, updated: seq<nat>)
      requires GoodHash(w.hash) && GoodTable(w, start) && GoodProcess(w, start, Snapshot())
      modifies this, table
      ensures Snapshot() == OnProcess(w, old(table.rows), old(Snapshot()), e)
      ensures table.rows == OnTable(old(table.rows), old(Snapshot()), e)
      ensures updated == Updated(old(table.rows), old(Snapshot()), e)
      ensures verdict.Some? <==> Answers(old(Snapshot()), e)
      ensures verdict.Some? ==> (verdict.value <==> old(held)[e.request].secret == w.secretOf(old(held)[e.request].key))
    {
      verdict, updated := None, [];
      match e {
        case Check(_, i) =>
          if i < |held| && !held[i].slow { verdict := CheckDigest(w, i, start); }
        case Resolve(_, i, salt) =>
          if i < |held| && held[i].slow {
            var verified := FinishRequest(w, i, salt, start);
            verdict := Some(verified);
          }
        case Fetch(_, _) => Look(table, e);
        case Fill(_, _) => Look(table, e);
        case Evict(_, _) => Look(table, e);
        case Begin(_, _, _) => Look(table, e);
        case Abandon(_, _) => Look(table, e);
        case Write(_, _) => updated := Work(table, e);
        case Finish(_, _, _) => updated := Work(table, e);
        case Fail(_, _) => updated := Work(table, e);
        case Reap(_, _) => updated := Work(table, e);
      }
    }
  }

  /** The processes of an installation and their table. */
  class Cluster {
    const world: World
    const table: KeyTable
    const servers: seq<Server>
    var updates: seq<nat>
    ghost const start: map<nat, Row>

    ghost function View(): State
      reads this, table, servers
    {
      State(table.rows, seq(|servers|, i requires 0 <= i < |servers| reads servers => servers[i].Snapshot()), updates)
    }

    ghost predicate Distinct() {
      forall i, j :: 0 <= i < j < |servers| ==> servers[i] != servers[j]
    }

    /** The processes are different objects, and the protocol's invariant holds. */
    ghost predicate Valid()
      reads this, table, servers
    {
      Distinct() && Inv(world, start, View())
    }

    constructor (world: World, rows: map<nat, Row>, servers: seq<Server>)
      requires GoodHash(world.hash) && GoodTable(world, rows)
      requires forall i, j :: 0 <= i < j < |servers| ==> servers[i] != servers[j]
      requires forall i :: 0 <= i < |servers| ==> Idle(servers[i].Snapshot()) && CurrentCache(rows, servers[i].cache)
      ensures Valid() && start == rows && fresh(table) && this.servers == servers && this.world == world
      ensures Start(world, View())
    {
      this.world, this.servers, start, updates := world, servers, rows, [];
      table := new KeyTable(rows);
      new;
      assert Start(world, View());
      StartIsGood(world, View());
    }

    /** One step of one process changes that process, the table and the tally as
        the protocol says, and no other process. */
    method Advance(e: Event) returns (verdict: Option<bool>)
      requires Distinct() && e.proc < |servers|
      requires GoodHash(world.hash) && GoodTable(world, start) && GoodProcess(world, start, servers[e.proc].Snapshot())
      modifies this, table, servers
      ensures View() == Next(world, old(View()), e)
      ensures verdict.Some? <==> Answers(old(servers[e.proc].Snapshot()), e)
      ensures verdict.Some? ==> RightVerdict(old(servers[e.proc].held), e, verdict.value)
    {
      ghost var was := View();
      var server := servers[e.proc];
      var updated;
      verdict, updated := server.Do(world, table, e, start);
      updates := updates + updated;
      forall i | 0 <= i < |servers| && i != e.proc ensures servers[i].Snapshot() == was.procs[i] {
        assert servers[i] != server;
      }
      assert View().procs == was.procs[e.proc := server.Snapshot()];
    }

    /** The step is one that answers a request, and the answer is whether the
        secret presented is the true one. */
    ghost predicate RightVerdict(requests: seq<Held>, e: Event, verdict: bool) {
      && (e.Check? || e.Resolve?) && e.request < |requests|
      && (verdict <==> requests[e.request].secret == world.secretOf(requests[e.request].key))
    }

    /** So every step of every process keeps the invariant, and it answers a request
        exactly if it checks a usable digest or ends a slow verification, and
        then by the true secret. */
    method Perform(e: Event) returns (verdict: Option<bool>)
      requires Valid()
      modifies this, table, servers
      ensures Valid()
      ensures View() == Next(world, old(View()), e)
      ensures verdict.Some? <==> e.proc < |servers| && Answers(old(View()).procs[e.proc], e)
      ensures verdict.Some? ==> RightVerdict(old(View()).procs[e.proc].held, e, verdict.value)
    {
      StepKeeps(world, start, View(), e);
      verdict := None;
      if e.proc < |servers| {
        assert View().procs[e.proc] == servers[e.proc].Snapshot();
        verdict := Advance(e);
      }
    }
  }
}
