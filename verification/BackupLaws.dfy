/** What an import conserves, what a second import does, and what a round trip through a backup preserves. */
module BackupLaws {
  import opened Base
  import opened Text
  import opened Backup

  // ---- conservation ----

  datatype Kind = OfChannels | OfTemplates | OfTasks | Note

  function KindOf(k: Skip): Kind {
    match k
    case BadChannel => OfChannels
    case ChannelExists(_) => OfChannels
    case BadTemplate => OfTemplates
    case TemplateExists(_) => OfTemplates
    case BadTask => OfTasks
    case TaskExists(_) => OfTasks
    case NoChannel(_) => OfTasks
    case KeyNotKept(_) => Note
  }

  function Skips(l: seq<Skip>, kind: Kind): nat {
    if l == [] then 0 else Skips(l[..|l| - 1], kind) + if KindOf(l[|l| - 1]) == kind then 1 else 0
  }

  lemma SkipAdded(l: seq<Skip>, k: Skip, kind: Kind)
    ensures Skips(l + [k], kind) == Skips(l, kind) + if KindOf(k) == kind then 1 else 0
  {
    assert (l + [k])[..|l|] == l;
  }

  /** Entries of each kind dealt with so far: created or reported as skipped. */
  datatype Tally = Tally(channels: nat, templates: nat, tasks: nat)

  function TallyOf(s: Progress): Tally {
    Tally(s.channelsCreated + Skips(s.skipped, OfChannels), s.templatesCreated + Skips(s.skipped, OfTemplates),
          s.tasksCreated + Skips(s.skipped, OfTasks))
  }

  lemma SkipTallied(s: Progress, k: Skip)
    ensures TallyOf(Skipping(s, k)) == match KindOf(k)
                                       case OfChannels => TallyOf(s).(channels := TallyOf(s).channels + 1)
                                       case OfTemplates => TallyOf(s).(templates := TallyOf(s).templates + 1)
                                       case OfTasks => TallyOf(s).(tasks := TallyOf(s).tasks + 1)
                                       case Note => TallyOf(s)
  {
    SkipAdded(s.skipped, k, OfChannels);
    SkipAdded(s.skipped, k, OfTemplates);
    SkipAdded(s.skipped, k, OfTasks);
  }

  lemma {:induction false} ChannelsTallied(s: Progress, l: seq<Entry<Channel>>, w: World)
    requires !ImportChannels(s, l, w).failed
    ensures TallyOf(ImportChannels(s, l, w)) == TallyOf(s).(channels := TallyOf(s).channels + |l|)
  {
    if l != [] {
      var before, e := ImportChannels(s, l[..|l| - 1], w), l[|l| - 1];
      ChannelsTallied(s, l[..|l| - 1], w);
      SkipTallied(before, BadChannel);
      if e.Entry? { SkipTallied(before, ChannelExists(e.row.name)); }
    }
  }

  lemma {:induction false} TemplatesTallied(s: Progress, l: seq<Entry<Template>>)
    requires !ImportTemplates(s, l).failed
    ensures TallyOf(ImportTemplates(s, l)) == TallyOf(s).(templates := TallyOf(s).templates + |l|)
  {
    if l != [] {
      var before, e := ImportTemplates(s, l[..|l| - 1]), l[|l| - 1];
      TemplatesTallied(s, l[..|l| - 1]);
      SkipTallied(before, BadTemplate);
      if e.Entry? { SkipTallied(before, TemplateExists(e.row.name)); }
    }
  }

  lemma CreatedTallied(s: Progress, t: Task, w: World)
    ensures TallyOf(WithTask(s, t, w)) == TallyOf(s).(tasks := TallyOf(s).tasks + 1)
  {
    SkipAdded(s.skipped, KeyNotKept(t.name), OfChannels);
    SkipAdded(s.skipped, KeyNotKept(t.name), OfTemplates);
    SkipAdded(s.skipped, KeyNotKept(t.name), OfTasks);
  }

  lemma TaskTallied(s: Progress, e: Entry<Task>, w: World)
    requires !ImportTask(s, e, w).failed
    ensures TallyOf(ImportTask(s, e, w)) == TallyOf(s).(tasks := TallyOf(s).tasks + 1)
  {
    SkipTallied(s, BadTask);
    if e.Entry? {
      SkipTallied(s, TaskExists(e.row.name));
      SkipTallied(s, NoChannel(e.row.name));
      var ids := NewChannelIds(s.chMap, e.row);
      if ids != [] { CreatedTallied(s, NewTask(s, e.row, ids), w); }
    }
  }

  lemma {:induction false} TasksTallied(s: Progress, l: seq<Entry<Task>>, w: World)
    requires !ImportTasks(s, l, w).failed
    ensures TallyOf(ImportTasks(s, l, w)) == TallyOf(s).(tasks := TallyOf(s).tasks + |l|)
  {
    if l != [] {
      TasksTallied(s, l[..|l| - 1], w);
      TaskTallied(ImportTasks(s, l[..|l| - 1], w), l[|l| - 1], w);
    }
  }

  lemma NoPhaseFailed(s: Progress, b: Bundle, w: World)
    requires !ImportTasks(ImportTemplates(ImportChannels(s, b.channels, w), b.templates), b.tasks, w).failed
    ensures !ImportChannels(s, b.channels, w).failed
    ensures !ImportTemplates(ImportChannels(s, b.channels, w), b.templates).failed
  {
    var s1 := ImportChannels(s, b.channels, w);
    var s2 := ImportTemplates(s1, b.templates);
    assert b.tasks[..0] == [] && b.templates[..0] == [];
    if s1.failed { FailedTemplatesStay(s1, b.templates, 0); }
    if s2.failed { FailedTasksStay(s2, b.tasks, 0, w); }
  }

  /** A successful import accounts for every entry of the bundle: created plus skipped is the bundle's size, kind by
      kind. */
  lemma ImportConserves(st: Store, b: Bundle, w: World)
    requires !Imported(st, b, w).failed
    ensures TallyOf(Imported(st, b, w)) == Tally(|b.channels|, |b.templates|, |b.tasks|)
  {
    var s0 := Start(WithCategories(st, b));
    NoPhaseFailed(s0, b, w);
    ChannelsTallied(s0, b.channels, w);
    TemplatesTallied(ImportChannels(s0, b.channels, w), b.templates);
    TasksTallied(ImportTemplates(ImportChannels(s0, b.channels, w), b.templates), b.tasks, w);
  }

  // ---- importing twice ----

  ghost predicate ChannelSettled(st: Store, e: Entry<Channel>) {
    e.Entry? && e.row.name != "" && e.row.typ != "" ==> ChannelNamed(st, e.row.name, e.row.typ)
  }

  ghost predicate TemplateSettled(st: Store, e: Entry<Template>) {
    e.Entry? && e.row.name != "" ==> TemplateNamed(st, e.row.name)
  }

  lemma ChannelStepSettles(s: Progress, e: Entry<Channel>, w: World)
    requires !ImportChannel(s, e, w).failed && s.store.nextChannel !in s.store.channels
    ensures ChannelSettled(ImportChannel(s, e, w).store, e)
    ensures forall n, t :: ChannelNamed(s.store, n, t) ==> ChannelNamed(ImportChannel(s, e, w).store, n, t)
  {
    var s' := ImportChannel(s, e, w);
    assert forall id :: id in s.store.channels ==>
                          id in s'.store.channels && s'.store.channels[id] == s.store.channels[id];
    if s'.channelsCreated == s.channelsCreated + 1 {
      var id := s.store.nextChannel;
      assert id in s'.store.channels && s'.store.channels[id].name == e.row.name
          && s'.store.channels[id].typ == e.row.typ;
    }
  }

  lemma TemplateStepSettles(s: Progress, e: Entry<Template>)
    requires !ImportTemplate(s, e).failed && s.store.nextTemplate !in s.store.templates
    ensures TemplateSettled(ImportTemplate(s, e).store, e)
    ensures forall n :: TemplateNamed(s.store, n) ==> TemplateNamed(ImportTemplate(s, e).store, n)
  {
    var s' := ImportTemplate(s, e);
    assert forall id :: id in s.store.templates ==>
                          id in s'.store.templates && s'.store.templates[id] == s.store.templates[id];
    if s'.templatesCreated == s.templatesCreated + 1 {
      var id := s.store.nextTemplate;
      assert id in s'.store.templates && s'.store.templates[id].name == e.row.name;
    }
  }

  /** Auto-increment counters are ahead of every id in use. */
  ghost predicate CountersAhead(st: Store) {
    && (forall id :: id in st.channels ==> 0 < id < st.nextChannel)
    && (forall id :: id in st.templates ==> 0 < id < st.nextTemplate)
    && (forall id :: id in st.tasks ==> 0 < id < st.nextTask)
    && 0 < st.nextChannel && 0 < st.nextTemplate && 0 < st.nextTask
  }

  /** One import step keeps the counters ahead and writes to the channels only. */
  lemma ChannelStepFrame(s: Progress, e: Entry<Channel>, w: World)
    requires CountersAhead(s.store)
    ensures var s' := ImportChannel(s, e, w);
            && CountersAhead(s'.store)
            && s'.store == s.store.(channels := s'.store.channels, nextChannel := s'.store.nextChannel)
  {
  }

  lemma {:induction false} ChannelsSettled(s: Progress, l: seq<Entry<Channel>>, w: World)
    requires !ImportChannels(s, l, w).failed && CountersAhead(s.store)
    ensures var s' := ImportChannels(s, l, w);
            && CountersAhead(s'.store)
            && s'.store == s.store.(channels := s'.store.channels, nextChannel := s'.store.nextChannel)
            && forall i :: 0 <= i < |l| ==> ChannelSettled(s'.store, l[i])
  {
    if l != [] {
      var n := |l| - 1;
      var before, after := ImportChannels(s, l[..n], w), ImportChannels(s, l, w);
      assert !before.failed;
      ChannelsSettled(s, l[..n], w);
      ChannelStepFrame(before, l[n], w);
      ChannelStepSettles(before, l[n], w);
      forall i | 0 <= i < |l| ensures ChannelSettled(after.store, l[i]) {
        if i < n { assert ChannelSettled(before.store, l[..n][i]); }
      }
    }
  }

  lemma TemplateStepFrame(s: Progress, e: Entry<Template>)
    requires CountersAhead(s.store)
    ensures var s' := ImportTemplate(s, e);
            && CountersAhead(s'.store)
            && s'.store == s.store.(templates := s'.store.templates, nextTemplate := s'.store.nextTemplate)
  {
  }

  lemma {:induction false} TemplatesSettled(s: Progress, l: seq<Entry<Template>>)
    requires !ImportTemplates(s, l).failed && CountersAhead(s.store)
    ensures var s' := ImportTemplates(s, l);
            && CountersAhead(s'.store)
            && s'.store == s.store.(templates := s'.store.templates, nextTemplate := s'.store.nextTemplate)
            && forall i :: 0 <= i < |l| ==> TemplateSettled(s'.store, l[i])
  {
    if l != [] {
      var n := |l| - 1;
      var before, after := ImportTemplates(s, l[..n]), ImportTemplates(s, l);
      assert !before.failed;
      TemplatesSettled(s, l[..n]);
      TemplateStepFrame(before, l[n]);
      TemplateStepSettles(before, l[n]);
      forall i | 0 <= i < |l| ensures TemplateSettled(after.store, l[i]) {
        if i < n { assert TemplateSettled(before.store, l[..n][i]); }
      }
    }
  }

  lemma TaskTouchesTasksOnly(s: Progress, e: Entry<Task>, w: World)
    ensures var s' := ImportTask(s, e, w); s'.store == s.store.(tasks := s'.store.tasks, nextTask := s'.store.nextTask)
  {
  }

  lemma {:induction false} TasksTouchTasksOnly(s: Progress, l: seq<Entry<Task>>, w: World)
    ensures var s' := ImportTasks(s, l, w);
            s'.store == s.store.(tasks := s'.store.tasks, nextTask := s'.store.nextTask)
  {
    if l != [] {
      TasksTouchTasksOnly(s, l[..|l| - 1], w);
      TaskTouchesTasksOnly(ImportTasks(s, l[..|l| - 1], w), l[|l| - 1], w);
    }
  }

  /** The state of an import that has built nothing. */
  ghost predicate Idle(s: Progress, st: Store) {
    s.store == st && !s.failed && s.chMap == map[] && s.tplMap == map[]
    && s.channelsCreated == 0 && s.templatesCreated == 0 && s.tasksCreated == 0
  }

  lemma {:induction false} SettledChannelsStayIdle(s: Progress, st: Store, l: seq<Entry<Channel>>, w: World)
    requires Idle(s, st) && forall i :: 0 <= i < |l| ==> ChannelSettled(st, l[i])
    ensures Idle(ImportChannels(s, l, w), st)
  {
    if l != [] {
      SettledChannelsStayIdle(s, st, l[..|l| - 1], w);
      assert ChannelSettled(st, l[|l| - 1]);
    }
  }

  lemma {:induction false} SettledTemplatesStayIdle(s: Progress, st: Store, l: seq<Entry<Template>>)
    requires Idle(s, st) && forall i :: 0 <= i < |l| ==> TemplateSettled(st, l[i])
    ensures Idle(ImportTemplates(s, l), st)
  {
    if l != [] {
      SettledTemplatesStayIdle(s, st, l[..|l| - 1]);
      assert TemplateSettled(st, l[|l| - 1]);
    }
  }

  lemma {:induction false} NothingMapped(ids: seq<int>)
    ensures RemapAll(map[], ids) == []
  {
    if ids != [] { NothingMapped(ids[..|ids| - 1]); }
  }

  lemma {:induction false} UnmappedTasksStayIdle(s: Progress, st: Store, l: seq<Entry<Task>>, w: World)
    requires Idle(s, st)
    ensures Idle(ImportTasks(s, l, w), st)
  {
    if l != [] {
      var e := l[|l| - 1];
      UnmappedTasksStayIdle(s, st, l[..|l| - 1], w);
      if e.Entry? { NothingMapped(e.row.channelIds); }
    }
  }

  /** After a successful import, importing the same bundle again succeeds, creates nothing and changes nothing. */
  lemma ImportIsIdempotent(st: Store, b: Bundle, w: World, w': World)
    requires CountersAhead(st) && !Imported(st, b, w).failed
    ensures Idle(Imported(Imported(st, b, w).store, b, w'), Imported(st, b, w).store)
  {
    var s0 := Start(WithCategories(st, b));
    var s1 := ImportChannels(s0, b.channels, w);
    var s2 := ImportTemplates(s1, b.templates);
    var done := ImportTasks(s2, b.tasks, w).store;
    NoPhaseFailed(s0, b, w);
    ChannelsSettled(s0, b.channels, w);
    TemplatesSettled(s1, b.templates);
    TasksTouchTasksOnly(s2, b.tasks, w);
    SecondImport(done, b, w');
  }

  lemma SecondImport(done: Store, b: Bundle, w: World)
    requires b.version == EXPORT_VERSION && WithCategories(done, b) == done
    requires forall i :: 0 <= i < |b.channels| ==> ChannelSettled(done, b.channels[i])
    requires forall i :: 0 <= i < |b.templates| ==> TemplateSettled(done, b.templates[i])
    ensures Idle(Imported(done, b, w), done)
  {
    SettledChannelsStayIdle(Start(done), done, b.channels, w);
    SettledTemplatesStayIdle(ImportChannels(Start(done), b.channels, w), done, b.templates);
    UnmappedTasksStayIdle(ImportTemplates(ImportChannels(Start(done), b.channels, w), b.templates), done, b.tasks, w);
  }
}
