/** Cron firings on several instances: a timed lease on the task row and a dedupe key per task and database minute. */
module CronFiring {
  import opened Base
  import opened Text
  import opened SendJobs
  import QueueRuns

  const LEASE_SECONDS := 60

  datatype Task = Task(enabled: bool, deleted: bool, lockedBy: Option<string>, lockedAt: Option<int>)

  predicate Runnable(tasks: map<int, Task>, id: int) {
    id in tasks && tasks[id].enabled && !tasks[id].deleted
  }

  /** Nobody holds the lease, or it was taken more than 60 seconds ago. */
  predicate FreeAt(t: Task, now: int) {
    t.lockedBy == None || (t.lockedAt.Some? && t.lockedAt.value < now - LEASE_SECONDS)
  }

  predicate CanAcquire(tasks: map<int, Task>, id: int, now: int) { Runnable(tasks, id) && FreeAt(tasks[id], now) }

  function Locked(tasks: map<int, Task>, id: int, inst: string, now: int): map<int, Task> {
    if CanAcquire(tasks, id, now) then tasks[id := tasks[id].(lockedBy := Some(inst), lockedAt := Some(now))] else tasks
  }

  function Unlocked(tasks: map<int, Task>, id: int, inst: string): map<int, Task> {
    if id in tasks && tasks[id].lockedBy == Some(inst)
    then tasks[id := tasks[id].(lockedBy := None, lockedAt := None)]
    else tasks
  }

  /** "task:minute", the minute as Unix seconds. */
  function DedupeKey(task: int, now: int): string {
    Decimal(task) + [':'] + Decimal(now / 60 * 60)
  }

  /** The second half of the key is the start of the minute that `now` lies in. */
  lemma DedupeKeyNamesTheMinute(task: int, now: int) returns (start: int)
    ensures DedupeKey(task, now) == Decimal(task) + ":" + Decimal(start)
    ensures start <= now < start + 60 && start % 60 == 0
  {
    start := now / 60 * 60;
  }

  lemma DedupeKeyIsInjective(task: int, now: int, task': int, now': int)
    requires DedupeKey(task, now) == DedupeKey(task', now')
    ensures task == task' && now / 60 == now' / 60
  {
    CutAtSeparator(Decimal(task), Decimal(now / 60 * 60), Decimal(task'), Decimal(now' / 60 * 60), ':');
    DecimalIsInjective(task, task');
    DecimalIsInjective(now / 60 * 60, now' / 60 * 60);
  }

  class TaskRepo {
    var tasks: map<int, Task>

    constructor (tasks: map<int, Task>)
      ensures this.tasks == tasks
    {
      this.tasks := tasks;
    }

    method AcquireLease(id: int, inst: string, now: int) returns (ok: bool)
      modifies this
      ensures ok <==> id in old(tasks) && old(tasks)[id].enabled && !old(tasks)[id].deleted
                      && FreeAt(old(tasks)[id], now)
      ensures tasks == Locked(old(tasks), id, inst, now)
      ensures ok ==> id in tasks && tasks[id] == old(tasks)[id].(lockedBy := Some(inst), lockedAt := Some(now))
      // who gets the lease keeps everybody, itself included, from getting it for the next 60 seconds, and no longer
      ensures ok ==> forall later :: CanAcquire(tasks, id, later) <==> later > now + 60
      ensures tasks.Keys == old(tasks).Keys && forall k :: k in tasks && (k != id || !ok) ==> tasks[k] == old(tasks)[k]
    {
      ok := CanAcquire(tasks, id, now);
      if ok {
        tasks := tasks[id := tasks[id].(lockedBy := Some(inst), lockedAt := Some(now))];
      }
    }

    method ReleaseLease(id: int, inst: string)
      modifies this
      ensures tasks == Unlocked(old(tasks), id, inst)
      // afterwards the lease is free if the caller held it, and as free as before if it did not
      ensures forall now :: CanAcquire(tasks, id, now)
                            <==> CanAcquire(old(tasks), id, now)
                                 || (Runnable(old(tasks), id) && old(tasks)[id].lockedBy == Some(inst))
      ensures tasks.Keys == old(tasks).Keys && forall k :: k in tasks && k != id ==> tasks[k] == old(tasks)[k]
    {
      if id in tasks && tasks[id].lockedBy == Some(inst) {
        tasks := tasks[id := tasks[id].(lockedBy := None, lockedAt := None)];
      }
    }
  }

  class Scheduler {
    const repo: TaskRepo
    const queue: SendJobRepo
    const inst: string

    constructor (repo: TaskRepo, queue: SendJobRepo, inst: string)
      ensures this.repo == repo && this.queue == queue && this.inst == inst
    {
      this.repo, this.queue, this.inst := repo, queue, inst;
    }

    /** One firing of makeJob's closure with nothing else running: `read` is the clock used for the key. */
    method Fire(id: int, read: int, now: int) returns (fired: bool)
      requires queue.Valid()
      modifies repo, queue
      ensures queue.Valid()
      // only a task that is there, enabled and not deleted fires, and only while its lease can be had
      ensures fired <==> id in old(repo.tasks) && old(repo.tasks)[id].enabled && !old(repo.tasks)[id].deleted
                         && FreeAt(old(repo.tasks)[id], now)
      // one job per key: a new row exactly when the lease was free and the key was unused
      ensures fired && !HasKey(old(queue.jobs), DedupeKey(id, read)) ==>
                exists job :: job !in old(queue.jobs)
                              && queue.jobs == old(queue.jobs)[job := NewJob(id, 0, "null", DedupeKey(id, read))]
      ensures !fired || HasKey(old(queue.jobs), DedupeKey(id, read)) ==> queue.jobs == old(queue.jobs)
      // the lease is free again for every instance
      ensures if fired then
                repo.tasks == old(repo.tasks)[id := old(repo.tasks)[id].(lockedBy := None, lockedAt := None)]
              else repo.tasks == old(repo.tasks)
    {
      fired := repo.AcquireLease(id, inst, now);
      if fired {
        if Runnable(repo.tasks, id) {
          var job := queue.Create(id, 0, "null", DedupeKey(id, read));
        }
        repo.ReleaseLease(id, inst);
      }
    }
  }

  // ---- firings interleaved step by step ----

  datatype Firing = Firing(inst: string, task: int, read: int, leased: bool)

  datatype Sys = Sys(tasks: map<int, Task>, jobs: Table, firings: map<int, Firing>)

  datatype Action =
    | ReadClock(f: int, inst: string, task: int, now: int)
    | Acquire(f: int, now: int)
    | Enqueue(f: int, job: int)
    | Release(f: int)
    | Stop(f: int)                         // the instance dies
    | EditTask(task: int, enabled: bool, deleted: bool)
    | OnQueue(call: QueueRuns.Call)        // any queue call; other producers pass no key

  predicate HasFiring(s: Sys, f: int, leased: bool) { f in s.firings && s.firings[f].leased == leased }

  function Step(s: Sys, a: Action, cfg: Config): Sys {
    match a
    case ReadClock(f, inst, task, now) =>
      if f in s.firings then s else s.(firings := s.firings[f := Firing(inst, task, now, false)])
    case Acquire(f, now) =>
      if !HasFiring(s, f, false) then s
      else if !CanAcquire(s.tasks, s.firings[f].task, now) then s.(firings := s.firings - {f})
      else s.(tasks := Locked(s.tasks, s.firings[f].task, s.firings[f].inst, now),
              firings := s.firings[f := s.firings[f].(leased := true)])
    case Enqueue(f, job) =>
      if Inserts(s, a) then s.(jobs := s.jobs[job := NewJob(s.firings[f].task, 0, "null", KeyOf(s.firings[f]))]) else s
    case Release(f) =>
      if !HasFiring(s, f, true) then s
      else s.(tasks := Unlocked(s.tasks, s.firings[f].task, s.firings[f].inst), firings := s.firings - {f})
    case Stop(f) => s.(firings := s.firings - {f})
    case EditTask(task, enabled, deleted) =>
      var lock := if task in s.tasks then s.tasks[task] else Task(enabled, deleted, None, None);
      s.(tasks := s.tasks[task := lock.(enabled := enabled, deleted := deleted)])
    case OnQueue(call) => s.(jobs := QueueRuns.Step(s.jobs, call, cfg))
  }

  function KeyOf(f: Firing): string { DedupeKey(f.task, f.read) }

  /** The enqueue step of a firing adds a row. */
  predicate Inserts(s: Sys, a: Action) {
    a.Enqueue? && HasFiring(s, a.f, true) && Runnable(s.tasks, s.firings[a.f].task)
    && a.job !in s.jobs && !HasKey(s.jobs, KeyOf(s.firings[a.f]))
  }

  ghost predicate Allowed(run: seq<Action>) {
    forall a :: a in run && a.OnQueue? && a.call.Create? ==> a.call.key == ""
  }

  function Exec(s: Sys, run: seq<Action>, cfg: Config): Sys {
    if run == [] then s else Step(Exec(s, run[..|run| - 1], cfg), run[|run| - 1], cfg)
  }

  /** The task and database minute of every row the firings have inserted, in order. */
  function Log(s: Sys, run: seq<Action>, cfg: Config): seq<(int, int)> {
    if run == [] then []
    else
      var before := run[..|run| - 1];
      var t, a := Exec(s, before, cfg), run[|run| - 1];
      Log(s, before, cfg) + if Inserts(t, a) then [MinuteOf(t.firings[a.f])] else []
  }

  function MinuteOf(f: Firing): (int, int) { (f.task, f.read / 60) }

  function KeysOf(log: seq<(int, int)>): seq<string> {
    seq(|log|, i requires 0 <= i < |log| => DedupeKey(log[i].0, log[i].1 * 60))
  }

  /** The keys in the table are exactly `keys`, one row each. */
  ghost predicate KeyLaw(jobs: Table, keys: seq<string>) {
    && UniqueKeys(jobs)
    && (forall key :: key in keys ==> HasKey(jobs, key))
    && (forall id :: id in jobs && jobs[id].dedupeKey != "" ==> jobs[id].dedupeKey in keys)
    && (forall i, k :: 0 <= i < k < |keys| ==> keys[i] != keys[k])
  }

  lemma KeyHolder(t: Table, key: string) returns (id: int)
    requires HasKey(t, key)
    ensures id in t && t[id].dedupeKey == key
  {
    id :| id in t && t[id].dedupeKey == key;
  }

  lemma QueueCallKeepsKeys(t: Table, c: QueueRuns.Call, cfg: Config, keys: seq<string>)
    requires KeyLaw(t, keys) && (c.Create? ==> c.key == "")
    ensures KeyLaw(QueueRuns.Step(t, c, cfg), keys)
  {
    var t' := QueueRuns.Step(t, c, cfg);
    forall id | id in t ensures id in t' && t'[id].dedupeKey == t[id].dedupeKey { QueueRuns.RowAfter(t, c, cfg, id); }
    assert forall id :: id in t' && id !in t ==> t'[id].dedupeKey == "";
    forall key | key in keys ensures HasKey(t', key) {
      var id := KeyHolder(t, key);
      assert id in t' && t'[id].dedupeKey == key;
    }
  }

  lemma InsertKeepsKeys(t: Table, job: int, row: Job, keys: seq<string>)
    requires KeyLaw(t, keys) && job !in t && !HasKey(t, row.dedupeKey) && row.dedupeKey != ""
    ensures KeyLaw(t[job := row], keys + [row.dedupeKey])
    ensures row.dedupeKey !in keys
  {
    var t', keys' := t[job := row], keys + [row.dedupeKey];
    forall key | key in keys' ensures HasKey(t', key) {
      if key in keys {
        var id := KeyHolder(t, key);
        assert id in t' && t'[id].dedupeKey == key;
      } else {
        assert job in t' && t'[job].dedupeKey == key;
      }
    }
    assert forall id :: id in t && t[id].dedupeKey != "" ==> t[id].dedupeKey in keys;
  }

  lemma JobsAfter(s: Sys, a: Action, cfg: Config, keys: seq<string>)
    requires KeyLaw(s.jobs, keys) && (a.OnQueue? && a.call.Create? ==> a.call.key == "")
    ensures KeyLaw(Step(s, a, cfg).jobs, if Inserts(s, a) then keys + [KeyOf(s.firings[a.f])] else keys)
  {
    if Inserts(s, a) {
      InsertKeepsKeys(s.jobs, a.job, NewJob(s.firings[a.f].task, 0, "null", KeyOf(s.firings[a.f])), keys);
    } else if a.OnQueue? {
      QueueCallKeepsKeys(s.jobs, a.call, cfg, keys);
    }
  }

  lemma KeysOfAppend(log: seq<(int, int)>, f: Firing)
    ensures KeysOf(log + [MinuteOf(f)]) == KeysOf(log) + [KeyOf(f)]
  {
  }

  lemma {:induction false} TableKeysAreTheLog(s: Sys, run: seq<Action>, cfg: Config)
    requires s.jobs == map[] && Allowed(run)
    ensures KeyLaw(Exec(s, run, cfg).jobs, KeysOf(Log(s, run, cfg)))
  {
    if run != [] {
      var before, a := run[..|run| - 1], run[|run| - 1];
      TableKeysAreTheLog(s, before, cfg);
      assert a in run;
      var t, log := Exec(s, before, cfg), Log(s, before, cfg);
      JobsAfter(t, a, cfg, KeysOf(log));
      if Inserts(t, a) {
        KeysOfAppend(log, t.firings[a.f]);
      } else {
        assert Log(s, run, cfg) == log;
      }
    }
  }

  /** However firings, lease expiries, crashes, task edits and queue calls interleave, each task gets at most one job
      per database minute. */
  lemma OncePerMinute(s: Sys, run: seq<Action>, cfg: Config)
    requires s.jobs == map[] && Allowed(run)
    ensures forall i, k :: 0 <= i < k < |Log(s, run, cfg)| ==> Log(s, run, cfg)[i] != Log(s, run, cfg)[k]
  {
    var log := Log(s, run, cfg);
    TableKeysAreTheLog(s, run, cfg);
    forall i, k | 0 <= i < k < |log| ensures log[i] != log[k] {
      assert KeysOf(log)[i] != KeysOf(log)[k];
    }
  }

  /** Nothing is suppressed by mistake: a leased firing of a runnable task adds its job exactly when no firing of the
      same task and minute has. */
  lemma OnlyRepeatsAreDropped(s: Sys, run: seq<Action>, cfg: Config, f: int, job: int)
    requires s.jobs == map[] && Allowed(run)
    requires var t := Exec(s, run, cfg);
             HasFiring(t, f, true) && Runnable(t.tasks, t.firings[f].task) && job !in t.jobs
    ensures Inserts(Exec(s, run, cfg), Enqueue(f, job)) <==> MinuteOf(Exec(s, run, cfg).firings[f]) !in Log(s, run, cfg)
  {
    TableKeysAreTheLog(s, run, cfg);
    KeyInLog(Exec(s, run, cfg).jobs, Exec(s, run, cfg).firings[f], Log(s, run, cfg));
  }

  lemma KeyInLog(t: Table, f: Firing, log: seq<(int, int)>)
    requires KeyLaw(t, KeysOf(log))
    ensures HasKey(t, KeyOf(f)) <==> MinuteOf(f) in log
  {
    KeyIsRow(t, KeyOf(f), KeysOf(log));
    if KeyOf(f) in KeysOf(log) { var i := KeyToMinute(f, log); }
    if MinuteOf(f) in log { var i := MinuteToKey(f, log); }
  }

  lemma KeyIsRow(t: Table, key: string, keys: seq<string>)
    requires KeyLaw(t, keys)
    ensures key != "" ==> (HasKey(t, key) <==> key in keys)
  {
    if HasKey(t, key) { var id := KeyHolder(t, key); }
  }

  /** The key of a firing is that of its minute. */
  lemma KeyOfMinute(f: Firing)
    ensures DedupeKey(f.task, MinuteOf(f).1 * 60) == KeyOf(f)
  {
    assert MinuteOf(f).1 * 60 / 60 == f.read / 60;
  }

  lemma MinuteOfKey(f: Firing, m: (int, int))
    requires DedupeKey(m.0, m.1 * 60) == KeyOf(f)
    ensures m == MinuteOf(f)
  {
    DedupeKeyIsInjective(m.0, m.1 * 60, f.task, f.read);
    assert m.1 * 60 / 60 == m.1;
  }

  lemma KeyToMinute(f: Firing, log: seq<(int, int)>) returns (i: nat)
    requires KeyOf(f) in KeysOf(log)
    ensures i < |log| && log[i] == MinuteOf(f)
  {
    i :| 0 <= i < |KeysOf(log)| && KeysOf(log)[i] == KeyOf(f);
    MinuteOfKey(f, log[i]);
  }

  lemma MinuteToKey(f: Firing, log: seq<(int, int)>) returns (i: nat)
    requires MinuteOf(f) in log
    ensures i < |log| && KeysOf(log)[i] == KeyOf(f)
  {
    i :| 0 <= i < |log| && log[i] == MinuteOf(f);
    KeyOfMinute(f);
  }

  // ---- what fires ----

  /** Step k adds a job: its firing holds the lease, and the task is there, enabled and not deleted at that moment. */
  ghost predicate AddsJobOf(s: Sys, run: seq<Action>, cfg: Config, k: nat, task: int, minute: int)
    requires k < |run|
  {
    var t, a := Exec(s, run[..k], cfg), run[k];
    && a.Enqueue? && a.f in t.firings && t.firings[a.f].leased
    && t.firings[a.f].task == task && t.firings[a.f].read / 60 == minute
    && task in t.tasks && t.tasks[task].enabled && !t.tasks[task].deleted
    && a.job !in t.jobs && a.job in Step(t, a, cfg).jobs && Step(t, a, cfg).jobs[a.job].taskId == task
  }

  /** Every logged firing has such a step. */
  lemma {:induction false} OnlyEnabledTasksFire(s: Sys, run: seq<Action>, cfg: Config, j: nat) returns (k: nat)
    requires j < |Log(s, run, cfg)|
    ensures k < |run| && AddsJobOf(s, run, cfg, k, Log(s, run, cfg)[j].0, Log(s, run, cfg)[j].1)
  {
    var n := |run| - 1;
    assert run != [];
    if j < |Log(s, run[..n], cfg)| {
      k := OnlyEnabledTasksFire(s, run[..n], cfg, j);
      assert run[..n][..k] == run[..k];
    } else {
      k := n;
    }
  }

  /** And every such step is logged. */
  lemma {:induction false} FiringStepIsLogged(s: Sys, run: seq<Action>, cfg: Config, k: nat, task: int, minute: int)
    requires k < |run| && AddsJobOf(s, run, cfg, k, task, minute)
    ensures (task, minute) in Log(s, run, cfg)
    decreases |run|
  {
    var n := |run| - 1;
    if k == n {
      LastFiringIsLogged(s, run, cfg, task, minute);
    } else {
      assert run[..n][..k] == run[..k];
      FiringStepIsLogged(s, run[..n], cfg, k, task, minute);
      LogGrows(s, run, cfg);
    }
  }

  lemma LogGrows(s: Sys, run: seq<Action>, cfg: Config)
    requires run != []
    ensures forall x :: x in Log(s, run[..|run| - 1], cfg) ==> x in Log(s, run, cfg)
  {
  }

  lemma LastFiringIsLogged(s: Sys, run: seq<Action>, cfg: Config, task: int, minute: int)
    requires run != [] && AddsJobOf(s, run, cfg, |run| - 1, task, minute)
    ensures (task, minute) in Log(s, run, cfg)
  {
    assert Inserts(Exec(s, run[..|run| - 1], cfg), run[|run| - 1]);
    assert Log(s, run, cfg)[|Log(s, run, cfg)| - 1] == (task, minute);
  }

  // ---- the lease ----

  ghost predicate HoldsLease(s: Sys, task: int, inst: string, at: int) {
    task in s.tasks && s.tasks[task].lockedBy == Some(inst) && s.tasks[task].lockedAt == Some(at)
  }

  ghost predicate ReleasesOwn(s: Sys, a: Action, task: int, inst: string) {
    a.Release? && HasFiring(s, a.f, true) && s.firings[a.f].task == task && s.firings[a.f].inst == inst
  }

  lemma LeaseStep(s: Sys, a: Action, cfg: Config, task: int, inst: string, at: int)
    requires HoldsLease(s, task, inst, at) && !ReleasesOwn(s, a, task, inst)
    requires a.Acquire? ==> a.now <= at + LEASE_SECONDS
    ensures HoldsLease(Step(s, a, cfg), task, inst, at)
  {
    if a.OnQueue? {
      assert Step(s, a, cfg).tasks == s.tasks;
    }
  }

  /** While a lease is at most 60 seconds old and its holder has not released it, nobody else gets it: not through
      late releases by former holders, crashes or edits of the task. */
  lemma {:induction false} LeaseIsExclusive(s: Sys, run: seq<Action>, cfg: Config, task: int, inst: string, at: int)
    requires HoldsLease(s, task, inst, at)
    requires forall a :: a in run && a.Acquire? ==> a.now <= at + LEASE_SECONDS
    requires forall k :: 0 <= k < |run| ==> !ReleasesOwn(Exec(s, run[..k], cfg), run[k], task, inst)
    ensures HoldsLease(Exec(s, run, cfg), task, inst, at)
    ensures forall now :: now <= at + LEASE_SECONDS ==> !CanAcquire(Exec(s, run, cfg).tasks, task, now)
  {
    if run != [] {
      var n := |run| - 1;
      forall k | 0 <= k < n ensures !ReleasesOwn(Exec(s, run[..n][..k], cfg), run[..n][k], task, inst) {
        assert run[..n][..k] == run[..k];
      }
      LeaseIsExclusive(s, run[..n], cfg, task, inst, at);
      assert run[n] in run;
      LeaseStep(Exec(s, run[..n], cfg), run[n], cfg, task, inst, at);
    }
  }
}
