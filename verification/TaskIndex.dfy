/** The task table and the cron registrations that must follow it, on one instance. */
module TaskIndex {
  import opened Base

  datatype Task = Task(name: string, cron: bool, expr: string, enabled: bool, deleted: bool)

  type Parser = string -> bool

  predicate Live(tasks: map<int, Task>, id: int) { id in tasks && !tasks[id].deleted }

  predicate Runs(t: Task, parses: Parser) { !t.deleted && t.enabled && t.cron && parses(t.expr) }

  /** What should be registered: the expression of every live, enabled cron task that parses. */
  function Wanted(tasks: map<int, Task>, parses: Parser): map<int, string> {
    map id | id in tasks && Runs(tasks[id], parses) :: tasks[id].expr
  }

  datatype CronEntry = CronEntry(task: int, expr: string)

  /** Every entry belongs to exactly one registered task: none is leaked. */
  ghost predicate Paired(entries: map<int, CronEntry>, taskEntries: map<int, int>) {
    && (forall id :: id in taskEntries ==> taskEntries[id] in entries && entries[taskEntries[id]].task == id)
    && (forall e :: e in entries ==> entries[e].task in taskEntries && taskEntries[entries[e].task] == e)
  }

  ghost function ExprsOf(entries: map<int, CronEntry>, taskEntries: map<int, int>): (r: map<int, string>)
    requires Paired(entries, taskEntries)
    ensures forall id :: id in r <==> id in taskEntries
    ensures forall id :: id in r ==> r[id] == entries[taskEntries[id]].expr
  {
    map id | id in taskEntries :: entries[taskEntries[id]].expr
  }

  lemma PairAdded(entries: map<int, CronEntry>, taskEntries: map<int, int>, eid: int, id: int, expr: string)
    requires Paired(entries, taskEntries) && eid !in entries && id !in taskEntries
    ensures var entries', taskEntries' := entries[eid := CronEntry(id, expr)], taskEntries[id := eid];
            Paired(entries', taskEntries')
            && ExprsOf(entries', taskEntries') == ExprsOf(entries, taskEntries)[id := expr]
  {
    var entries', taskEntries' := entries[eid := CronEntry(id, expr)], taskEntries[id := eid];
    forall k | k in taskEntries
      ensures taskEntries'[k] in entries && entries'[taskEntries'[k]] == entries[taskEntries[k]]
    {
      assert taskEntries[k] != eid;
    }
    SameMap(ExprsOf(entries', taskEntries'), ExprsOf(entries, taskEntries)[id := expr]);
  }

  lemma PairRemoved(entries: map<int, CronEntry>, taskEntries: map<int, int>, id: int)
    requires Paired(entries, taskEntries) && id in taskEntries
    ensures var entries', taskEntries' := entries - {taskEntries[id]}, taskEntries - {id};
            Paired(entries', taskEntries') && ExprsOf(entries', taskEntries') == ExprsOf(entries, taskEntries) - {id}
  {
    var entries', taskEntries' := entries - {taskEntries[id]}, taskEntries - {id};
    forall k | k in taskEntries'
      ensures taskEntries'[k] in entries' && entries'[taskEntries'[k]] == entries[taskEntries[k]]
    {
      assert taskEntries[k] != taskEntries[id];
    }
    SameMap(ExprsOf(entries', taskEntries'), ExprsOf(entries, taskEntries) - {id});
  }

  /** As many cron entries as registered tasks. */
  lemma {:induction false} NoEntryIsLeaked(entries: map<int, CronEntry>, taskEntries: map<int, int>)
    requires Paired(entries, taskEntries)
    ensures |entries| == |taskEntries|
    decreases |taskEntries|
  {
    if taskEntries.Keys != {} {
      var id := Pick(taskEntries.Keys);
      PairRemoved(entries, taskEntries, id);
      assert (entries - {taskEntries[id]}).Keys == entries.Keys - {taskEntries[id]};
      assert (taskEntries - {id}).Keys == taskEntries.Keys - {id};
      NoEntryIsLeaked(entries - {taskEntries[id]}, taskEntries - {id});
    } else {
      assert forall e :: e in entries ==> entries[e].task in taskEntries.Keys;
      assert entries.Keys == {};
    }
  }

  class Scheduler {
    const parses: Parser
    var entries: map<int, CronEntry> // the cron engine's own list, by entry id
    var nextEntry: int
    var taskEntries: map<int, int>

    constructor (parses: Parser)
      requires !parses("")
      ensures Valid() && Registrations() == map[] && this.parses == parses
    {
      this.parses, entries, nextEntry, taskEntries := parses, map[], 1, map[];
    }

    ghost predicate Valid() reads this {
      Paired(entries, taskEntries) && !parses("") && forall e :: e in entries ==> e < nextEntry
    }

    ghost function Registrations(): map<int, string>
      requires Valid()
      reads this
    {
      ExprsOf(entries, taskEntries)
    }

    /** A failed parse is only logged. Registering a task that is registered leaks its old entry. */
    method RegisterTask(id: int, expr: string)
      requires Valid()
      modifies this
      ensures Valid() <==> id !in old(Registrations()) || !parses(expr)
      ensures Valid() ==>
                Registrations() == if parses(expr) then old(Registrations())[id := expr] else old(Registrations())
    {
      if parses(expr) {
        var eid := nextEntry;
        if id !in taskEntries { PairAdded(entries, taskEntries, eid, id, expr); }
        ghost var leaked := if id in taskEntries then taskEntries[id] else eid;
        entries, nextEntry := entries[eid := CronEntry(id, expr)], nextEntry + 1;
        taskEntries := taskEntries[id := eid];
        assert leaked in entries && entries[leaked].task == id;
      }
    }

    method UnregisterTask(id: int)
      requires Valid()
      modifies this
      ensures Valid()
      ensures Registrations() == old(Registrations()) - {id}
    {
      if id in taskEntries {
        PairRemoved(entries, taskEntries, id);
        entries := entries - {taskEntries[id]};
        taskEntries := taskEntries - {id};
      } else {
        NothingToRemove(Registrations(), id);
      }
    }
  }

  // ---- how the wanted registrations change ----

  function Rescheduled(w: map<int, string>, id: int, t: Task, parses: Parser): map<int, string> {
    if Runs(t, parses) then (w - {id})[id := t.expr] else w - {id}
  }

  lemma NothingToRemove(w: map<int, string>, id: int)
    requires id !in w
    ensures w - {id} == w
  {
  }

  function WantedAmong(tasks: map<int, Task>, ids: seq<int>, parses: Parser): map<int, string> {
    map id | id in tasks && id in ids && Runs(tasks[id], parses) :: tasks[id].expr
  }

  lemma WantedGrows(tasks: map<int, Task>, ids: seq<int>, id: int, parses: Parser)
    requires id in tasks && id !in ids
    ensures id !in WantedAmong(tasks, ids, parses)
    ensures WantedAmong(tasks, ids + [id], parses)
            == if Runs(tasks[id], parses) then WantedAmong(tasks, ids, parses)[id := tasks[id].expr]
                else WantedAmong(tasks, ids, parses)
  {
  }

  lemma WantedAfterWrite(tasks: map<int, Task>, id: int, t: Task, parses: Parser)
    ensures Wanted(tasks[id := t], parses)
            == Rescheduled(Wanted(tasks, parses), id, t, parses)
  {
  }

  function EnabledCron(tasks: map<int, Task>): set<int> {
    set id | id in tasks && tasks[id].enabled && tasks[id].cron && tasks[id].expr != "" && !tasks[id].deleted
  }

  /** ListEnabledCron: the ids of those tasks, in order. */
  ghost predicate Lists(ids: seq<int>, tasks: map<int, Task>) {
    && (forall id :: id in ids <==> id in EnabledCron(tasks))
    && forall j, k :: 0 <= j < k < |ids| ==> ids[j] < ids[k]
  }

  lemma EnabledCronIsEnough(tasks: map<int, Task>, ids: seq<int>, parses: Parser)
    requires !parses("") && Lists(ids, tasks)
    ensures WantedAmong(tasks, ids, parses) == Wanted(tasks, parses)
  {
    forall id | id in tasks && Runs(tasks[id], parses) ensures id in ids { assert id in EnabledCron(tasks); }
  }

  lemma NextRegistration(tasks: map<int, Task>, ids: seq<int>, i: nat, parses: Parser)
    requires i < |ids| && Lists(ids, tasks)
    ensures ids[i] in tasks
    ensures var w, t := WantedAmong(tasks, ids[..i], parses), tasks[ids[i]];
            && ids[i] !in w
            && WantedAmong(tasks, ids[..i + 1], parses) == if parses(t.expr) then w[ids[i] := t.expr] else w
  {
    var id := ids[i];
    assert ids[..i + 1] == ids[..i] + [id];
    assert id in ids && id in EnabledCron(tasks) && id !in ids[..i];
    WantedGrows(tasks, ids[..i], id, parses);
  }

  method RegisterAll(sched: Scheduler, tasks: map<int, Task>)
    requires sched.Valid() && sched.Registrations() == map[]
    modifies sched
    ensures sched.Valid() && sched.Registrations() == Wanted(tasks, sched.parses)
  {
    var ids := Ascending(EnabledCron(tasks));
    assert Lists(ids, tasks);
    for i := 0 to |ids|
      invariant sched.Valid() && sched.Registrations() == WantedAmong(tasks, ids[..i], sched.parses)
    {
      NextRegistration(tasks, ids, i, sched.parses);
      sched.RegisterTask(ids[i], tasks[ids[i]].expr);
    }
    assert ids[..|ids|] == ids;
    EnabledCronIsEnough(tasks, ids, sched.parses);
  }

  /** The change every operation makes to one task's registration. */
  method Reschedule(sched: Scheduler, id: int, t: Task)
    requires sched.Valid() && t.cron && !t.deleted
    modifies sched
    ensures sched.Valid() && sched.Registrations() == Rescheduled(old(sched.Registrations()), id, t, sched.parses)
  {
    sched.UnregisterTask(id);
    if t.enabled {
      sched.RegisterTask(id, t.expr);
    }
  }

  class TaskService {
    const sched: Scheduler
    var tasks: map<int, Task>
    var nextId: int

    /** The agreement: registered exactly when live, enabled, cron and parseable, with the current expression. */
    ghost predicate Valid() reads this, sched {
      && sched.Valid() && sched.Registrations() == Wanted(tasks, sched.parses)
      && forall id :: id in tasks ==> id < nextId
    }

    /** Start-up: the empty scheduler is filled from the stored tasks. */
    constructor Load(sched: Scheduler, tasks: map<int, Task>, nextId: int)
      requires sched.Valid() && sched.Registrations() == map[] && forall id :: id in tasks ==> id < nextId
      modifies sched
      ensures Valid() && this.sched == sched && this.tasks == tasks
    {
      this.sched, this.tasks, this.nextId := sched, tasks, nextId;
      new;
      RegisterAll(sched, tasks);
    }

    method Create(t: Task) returns (id: int)
      requires Valid() && !t.deleted
      modifies this, sched
      ensures Valid()
      ensures id !in old(tasks) && tasks == old(tasks)[id := t]
    {
      id := nextId;
      WantedAfterWrite(tasks, id, t, sched.parses);
      NothingToRemove(Wanted(tasks, sched.parses), id);
      tasks, nextId := tasks[id := t], nextId + 1;
      if t.cron && t.enabled {
        sched.RegisterTask(id, t.expr);
      }
    }

    method Update(id: int, t: Task) returns (ok: bool)
      requires Valid() && !t.deleted
      modifies this, sched
      ensures Valid()
      ensures ok <==> id in old(tasks) && !old(tasks)[id].deleted
      ensures tasks == if ok then old(tasks)[id := t] else old(tasks)
    {
      ok := Live(tasks, id);
      if ok {
        var ex := tasks[id];
        WantedAfterWrite(tasks, id, t, sched.parses);
        tasks := tasks[id := t];
        if ex.cron || t.cron {
          sched.UnregisterTask(id);
          if t.cron && t.enabled {
            sched.RegisterTask(id, t.expr);
          }
        } else {
          NothingToRemove(sched.Registrations(), id);
        }
      }
    }

    method Toggle(id: int, enabled: bool) returns (ok: bool)
      requires Valid()
      modifies this, sched
      ensures Valid()
      ensures ok <==> id in old(tasks) && !old(tasks)[id].deleted
      ensures tasks == if ok then old(tasks)[id := old(tasks)[id].(enabled := enabled)] else old(tasks)
    {
      ok := Live(tasks, id);
      if ok {
        var ex := tasks[id];
        WantedAfterWrite(tasks, id, ex.(enabled := enabled), sched.parses);
        tasks := tasks[id := ex.(enabled := enabled)];
        if ex.cron {
          Reschedule(sched, id, ex.(enabled := enabled));
        } else {
          NothingToRemove(sched.Registrations(), id);
        }
      }
    }

    method Delete(id: int) returns (ok: bool)
      requires Valid()
      modifies this, sched
      ensures Valid()
      ensures ok <==> id in old(tasks) && !old(tasks)[id].deleted
      ensures tasks == if ok then old(tasks)[id := old(tasks)[id].(deleted := true)] else old(tasks)
    {
      ok := Live(tasks, id);
      if ok {
        var ex := tasks[id];
        WantedAfterWrite(tasks, id, ex.(deleted := true), sched.parses);
        if ex.cron {
          sched.UnregisterTask(id);
        } else {
          NothingToRemove(sched.Registrations(), id);
        }
        tasks := tasks[id := ex.(deleted := true)];
      }
    }

    /** Registrations first, one task at a time; then one UPDATE for all ids. */
    method BatchToggle(ids: seq<int>, enabled: bool)
      requires Valid()
      modifies this, sched
      ensures Valid()
      ensures tasks == WithEnabled(old(tasks), ids, enabled)
      // live listed tasks get the flag, cron or not, and nothing else changes
      ensures tasks.Keys == old(tasks).Keys
      ensures forall id :: id in tasks ==>
                             var t, was := tasks[id], old(tasks)[id];
                             && t == was.(enabled := t.enabled)
                             && t.enabled == if id in ids && !was.deleted then enabled else was.enabled
    {
      assert ids[..0] == [];
      NoneListed(tasks, enabled);
      for i := 0 to |ids|
        invariant tasks == old(tasks) && sched.Valid() && nextId == old(nextId)
        invariant sched.Registrations() == Wanted(WithEnabled(tasks, ids[..i], enabled), sched.parses)
      {
        var id := ids[i];
        ToggleOne(tasks, ids, i, enabled, sched.parses);
        if Live(tasks, id) && tasks[id].cron {
          Reschedule(sched, id, tasks[id].(enabled := enabled));
        }
      }
      assert ids[..|ids|] == ids;
      tasks := WithEnabled(tasks, ids, enabled);
    }

    method BatchDelete(ids: seq<int>)
      requires Valid()
      modifies this, sched
      ensures Valid()
      ensures tasks == WithDeleted(old(tasks), ids)
      ensures tasks.Keys == old(tasks).Keys
      ensures forall id :: id in tasks ==>
                             var t, was := tasks[id], old(tasks)[id];
                             t == was.(deleted := t.deleted) && (t.deleted <==> was.deleted || id in ids)
    {
      assert ids[..0] == [];
      NoneListed(tasks, true);
      for i := 0 to |ids|
        invariant tasks == old(tasks) && sched.Valid() && nextId == old(nextId)
        invariant sched.Registrations() == Wanted(WithDeleted(tasks, ids[..i]), sched.parses)
      {
        var id := ids[i];
        DeleteOne(tasks, ids, i, sched.parses);
        if Live(tasks, id) && tasks[id].cron {
          sched.UnregisterTask(id);
        }
      }
      assert ids[..|ids|] == ids;
      tasks := WithDeleted(tasks, ids);
    }
  }

  /** What the agreement says of one id, in the columns of its row. */
  lemma RegisteredIff(s: TaskService, id: int)
    requires s.Valid()
    ensures id in s.sched.Registrations()
            <==> (&& id in s.tasks && !s.tasks[id].deleted && s.tasks[id].enabled && s.tasks[id].cron
                  && s.sched.parses(s.tasks[id].expr))
    ensures id in s.sched.Registrations() ==> s.sched.Registrations()[id] == s.tasks[id].expr
  {
    assert id in s.sched.Registrations() <==> id in Wanted(s.tasks, s.sched.parses);
  }

  function WithEnabled(tasks: map<int, Task>, ids: seq<int>, enabled: bool): map<int, Task> {
    map id | id in tasks :: if id in ids && !tasks[id].deleted then tasks[id].(enabled := enabled) else tasks[id]
  }

  function WithDeleted(tasks: map<int, Task>, ids: seq<int>): map<int, Task> {
    map id | id in tasks :: if id in ids then tasks[id].(deleted := true) else tasks[id]
  }

  lemma NoneListed(tasks: map<int, Task>, enabled: bool)
    ensures WithEnabled(tasks, [], enabled) == tasks && WithDeleted(tasks, []) == tasks
  {
  }

  lemma ToggleOne(tasks: map<int, Task>, ids: seq<int>, i: nat, enabled: bool, parses: Parser)
    requires i < |ids|
    ensures var id, w := ids[i], Wanted(WithEnabled(tasks, ids[..i], enabled), parses);
            Wanted(WithEnabled(tasks, ids[..i + 1], enabled), parses)
            == if Live(tasks, id) && tasks[id].cron then Rescheduled(w, id, tasks[id].(enabled := enabled), parses)
                else w
  {
    var id, before := ids[i], WithEnabled(tasks, ids[..i], enabled);
    assert ids[..i + 1] == ids[..i] + [id];
    if Live(tasks, id) {
      assert WithEnabled(tasks, ids[..i + 1], enabled) == before[id := tasks[id].(enabled := enabled)];
      WantedAfterWrite(before, id, tasks[id].(enabled := enabled), parses);
      if !tasks[id].cron { NothingToRemove(Wanted(before, parses), id); }
    } else {
      assert WithEnabled(tasks, ids[..i + 1], enabled) == before;
    }
  }

  lemma DeleteOne(tasks: map<int, Task>, ids: seq<int>, i: nat, parses: Parser)
    requires i < |ids|
    ensures var id, w := ids[i], Wanted(WithDeleted(tasks, ids[..i]), parses);
            Wanted(WithDeleted(tasks, ids[..i + 1]), parses)
            == if Live(tasks, id) && tasks[id].cron then w - {id} else w
  {
    var id, before := ids[i], WithDeleted(tasks, ids[..i]);
    assert ids[..i + 1] == ids[..i] + [id];
    if Live(tasks, id) {
      assert WithDeleted(tasks, ids[..i + 1]) == before[id := tasks[id].(deleted := true)];
      WantedAfterWrite(before, id, tasks[id].(deleted := true), parses);
      if !tasks[id].cron { NothingToRemove(Wanted(before, parses), id); }
    } else {
      assert WithDeleted(tasks, ids[..i + 1]) == before;
    }
  }
}
