/** What an import lets into the store: only rows the services themselves would accept. */
module BackupValidity {
  import opened Base
  import opened Text
  import opened Backup
  import opened BackupLaws
  import Categories

  // ---- rows a service accepts, field by field ----

  predicate AcceptableChannel(categories: set<string>, c: Channel, w: World) {
    c.name != "" && c.typ != "" && c.typ in w.types && c.category in categories
  }

  predicate AcceptableTemplate(categories: set<string>, t: Template) {
    t.name != "" && t.category == "default" && "default" in categories
  }

  /** The channels and the template are there, the trigger is one of the two, a cron task has an expression that parses,
      and a task with an email channel has receivers. */
  predicate AcceptableTask(st: Store, t: Task, w: World) {
    && t.name != "" && t.category in st.categories
    && 0 < t.templateId && t.templateId in st.templates
    && t.channelIds != [] && t.channelId == t.channelIds[0]
    && (forall i :: 0 <= i < |t.channelIds| ==> 0 < t.channelIds[i] && t.channelIds[i] in st.channels)
    && (t.trigger == "cron" || t.trigger == "api")
    && (t.trigger == "cron" ==> TrimSpace(t.cronExpr) != "" && w.parses(t.cronExpr))
    && ((exists i :: 0 <= i < |t.channelIds| && st.channels[t.channelIds[i]].typ == "email") ==> t.receivers != [])
  }

  ghost predicate Extends<T(!new)>(m: map<int, T>, base: map<int, T>) {
    forall id :: id in base ==> id in m && m[id] == base[id]
  }

  ghost predicate MapsInto<T(!new)>(f: map<int, int>, m: map<int, T>) {
    forall k :: k in f ==> 0 < f[k] && f[k] in m
  }

  ghost predicate NewChannelsAcceptable(m: map<int, Channel>, base: map<int, Channel>, categories: set<string>,
      w: World)
  {
    forall id :: id in m && id !in base ==> AcceptableChannel(categories, m[id], w)
  }

  ghost predicate NewTemplatesAcceptable(m: map<int, Template>, base: map<int, Template>, categories: set<string>) {
    forall id :: id in m && id !in base ==> AcceptableTemplate(categories, m[id])
  }

  ghost predicate NewTasksAcceptable(st: Store, base: map<int, Task>, w: World) {
    forall id :: id in st.tasks && id !in base ==> AcceptableTask(st, st.tasks[id], w)
  }

  /** An import under way from `st`: nothing old is changed, the id maps lead to stored rows, and the new rows are
      acceptable. */
  ghost predicate Sound(s: Progress, st: Store, w: World) {
    && CountersAhead(s.store)
    && Extends(s.store.channels, st.channels) && Extends(s.store.templates, st.templates)
    && MapsInto(s.chMap, s.store.channels) && MapsInto(s.tplMap, s.store.templates)
    && NewChannelsAcceptable(s.store.channels, st.channels, s.store.categories, w)
    && NewTemplatesAcceptable(s.store.templates, st.templates, s.store.categories)
  }

  ghost predicate SoundTasks(s: Progress, st: Store, w: World) {
    Extends(s.store.tasks, st.tasks) && NewTasksAcceptable(s.store, st.tasks, w)
  }

  predicate SameTasks(st: Store, was: Store) {
    st.tasks == was.tasks && st.nextTask == was.nextTask && st.retiredKeys == was.retiredKeys
  }

  lemma AddedRow<T(!new)>(m: map<int, T>, base: map<int, T>, f: map<int, int>, id: int, key: int, row: T)
    requires Extends(m, base) && MapsInto(f, m) && 0 < id && id !in m
    ensures Extends(m[id := row], base) && MapsInto(f[key := id], m[id := row])
  {
  }

  lemma SoundChannelStep(s: Progress, st: Store, e: Entry<Channel>, w: World)
    requires Sound(s, st, w)
    ensures Sound(ImportChannel(s, e, w), st, w) && SameTasks(ImportChannel(s, e, w).store, s.store)
  {
    var s' := ImportChannel(s, e, w);
    ChannelStepFrame(s, e, w);
    if s'.store != s.store {
      AddedRow(s.store.channels, st.channels, s.chMap, s.store.nextChannel, e.id,
        s'.store.channels[s.store.nextChannel]);
    }
  }

  lemma SoundTemplateStep(s: Progress, st: Store, e: Entry<Template>, w: World)
    requires Sound(s, st, w)
    ensures Sound(ImportTemplate(s, e), st, w) && SameTasks(ImportTemplate(s, e).store, s.store)
  {
    var s' := ImportTemplate(s, e);
    TemplateStepFrame(s, e);
    if s'.store != s.store {
      AddedRow(s.store.templates, st.templates, s.tplMap, s.store.nextTemplate, e.id,
        s'.store.templates[s.store.nextTemplate]);
    }
  }

  lemma {:induction false} SoundChannels(s: Progress, st: Store, l: seq<Entry<Channel>>, w: World)
    requires Sound(s, st, w)
    ensures Sound(ImportChannels(s, l, w), st, w) && SameTasks(ImportChannels(s, l, w).store, s.store)
  {
    if l != [] {
      SoundChannels(s, st, l[..|l| - 1], w);
      SoundChannelStep(ImportChannels(s, l[..|l| - 1], w), st, l[|l| - 1], w);
    }
  }

  lemma {:induction false} SoundTemplates(s: Progress, st: Store, l: seq<Entry<Template>>, w: World)
    requires Sound(s, st, w)
    ensures Sound(ImportTemplates(s, l), st, w) && SameTasks(ImportTemplates(s, l).store, s.store)
  {
    if l != [] {
      SoundTemplates(s, st, l[..|l| - 1], w);
      SoundTemplateStep(ImportTemplates(s, l[..|l| - 1]), st, l[|l| - 1], w);
    }
  }

  /** The channel ids of a new task are all mapped ones. */
  lemma {:induction false} RemappedIdsAreStored<T(!new)>(f: map<int, int>, ids: seq<int>, m: map<int, T>)
    requires MapsInto(f, m)
    ensures forall i :: 0 <= i < |RemapAll(f, ids)| ==> 0 < RemapAll(f, ids)[i] && RemapAll(f, ids)[i] in m
  {
    if ids != [] { RemappedIdsAreStored(f, ids[..|ids| - 1], m); }
  }

  lemma NewIdsAreStored(s: Progress, t: Task)
    requires MapsInto(s.chMap, s.store.channels)
    ensures var ids := NewChannelIds(s.chMap, t);
            forall i :: 0 <= i < |ids| ==> 0 < ids[i] && ids[i] in s.store.channels
  {
    RemappedIdsAreStored(s.chMap, t.channelIds, s.store.channels);
  }

  /** For a task of the bundle that is named, new and has a mapped channel: exactly what makes the import fail on it. */
  ghost predicate Unacceptable(s: Progress, t: Task, w: World) {
    || t.templateId !in s.tplMap
    || (t.trigger != "cron" && t.trigger != "api")
    || (t.trigger == "cron" && (TrimSpace(t.cronExpr) == "" || !w.parses(t.cronExpr)))
    || (t.receivers == []
        && exists i :: 0 <= i < |NewChannelIds(s.chMap, t)| && EmailAt(s, NewChannelIds(s.chMap, t)[i]))
    || (if TrimSpace(t.category) == "" then "default" else TrimSpace(t.category)) !in s.store.categories
  }

  predicate EmailAt(s: Progress, id: int) { id in s.store.channels && s.store.channels[id].typ == "email" }

  lemma TaskFailsIff(s: Progress, st: Store, e: Entry<Task>, w: World)
    requires Sound(s, st, w) && !s.failed && e.Entry? && e.row.name != "" && !TaskNamed(s.store, e.row.name)
    requires NewChannelIds(s.chMap, e.row) != []
    ensures ImportTask(s, e, w).failed <==> Unacceptable(s, e.row, w)
  {
    NewIdsAreStored(s, e.row);
    var ids := NewChannelIds(s.chMap, e.row);
    var t := NewTask(s, e.row, ids);
    assert t.templateId > 0 <==> e.row.templateId in s.tplMap;
    assert (exists c :: c in t.channelIds && (c !in s.store.channels || s.store.channels[c].typ == "email"))
           <==> exists i :: 0 <= i < |ids| && EmailAt(s, ids[i]);
  }

  /** Whether a task is acceptable does not depend on the other tasks. */
  lemma OtherTasksDoNotMatter(st: Store, st': Store, t: Task, w: World)
    requires st' == st.(tasks := st'.tasks, nextTask := st'.nextTask)
    ensures AcceptableTask(st', t, w) <==> AcceptableTask(st, t, w)
  {
  }

  /** A task with a stored template, stored channels and a valid form is acceptable. */
  lemma RemappedTaskIsAcceptable(s: Progress, st: Store, t: Task, w: World)
    requires Sound(s, st, w) && t.name != "" && NewChannelIds(s.chMap, t) != []
    requires !Unacceptable(s, t, w)
    ensures AcceptableTask(s.store, NewTask(s, t, NewChannelIds(s.chMap, t)), w)
  {
    NewIdsAreStored(s, t);
    var ids := NewChannelIds(s.chMap, t);
    assert forall i :: 0 <= i < |ids| && s.store.channels[ids[i]].typ == "email" ==> EmailAt(s, ids[i]);
  }

  /** An acceptable task is stored under the next id, with nothing else changed but its secrets. */
  lemma TaskIsAdded(s: Progress, t: Task, w: World)
    ensures var s', id := WithTask(s, t, w), s.store.nextTask;
            && s' == s.(store := s'.store, skipped := s'.skipped, tasksCreated := s'.tasksCreated)
            && s'.store == s.store.(tasks := s'.store.tasks, nextTask := id + 1) && id in s'.store.tasks
            && s'.store.tasks == s.store.tasks[id := s'.store.tasks[id]]
            && s'.store.tasks[id]
               == t.(apiKey := s'.store.tasks[id].apiKey, hmacSecret := s'.store.tasks[id].hmacSecret)
  {
  }

  lemma SecretsDoNotMatter(st: Store, t: Task, key: string, secret: string, w: World)
    ensures AcceptableTask(st, t.(apiKey := key, hmacSecret := secret), w) <==> AcceptableTask(st, t, w)
  {
  }

  /** A stored task is one the services accept. */
  lemma StoredTaskIsSound(s: Progress, st: Store, t: Task, w: World)
    requires Sound(s, st, w) && SoundTasks(s, st, w) && AcceptableTask(s.store, t, w)
    ensures Sound(WithTask(s, t, w), st, w) && SoundTasks(WithTask(s, t, w), st, w)
  {
    var s', id := WithTask(s, t, w), s.store.nextTask;
    TaskIsAdded(s, t, w);
    forall k | k in s'.store.tasks && k !in st.tasks ensures AcceptableTask(s'.store, s'.store.tasks[k], w) {
      if k == id { SecretsDoNotMatter(s.store, t, s'.store.tasks[id].apiKey, s'.store.tasks[id].hmacSecret, w); }
      OtherTasksDoNotMatter(s.store, s'.store, s'.store.tasks[k], w);
    }
  }

  lemma SoundTaskStep(s: Progress, st: Store, e: Entry<Task>, w: World)
    requires Sound(s, st, w) && SoundTasks(s, st, w)
    ensures Sound(ImportTask(s, e, w), st, w) && SoundTasks(ImportTask(s, e, w), st, w)
  {
    if !s.failed && e.Entry? && e.row.name != "" && !TaskNamed(s.store, e.row.name)
       && NewChannelIds(s.chMap, e.row) != []
    {
      TaskFailsIff(s, st, e, w);
      if !Unacceptable(s, e.row, w) {
        RemappedTaskIsAcceptable(s, st, e.row, w);
        StoredTaskIsSound(s, st, NewTask(s, e.row, NewChannelIds(s.chMap, e.row)), w);
      } else {
        FailureKeepsStore(s, e, w);
      }
    } else {
      assert ImportTask(s, e, w).store == s.store;
    }
  }

  lemma {:induction false} SoundTaskList(s: Progress, st: Store, l: seq<Entry<Task>>, w: World)
    requires Sound(s, st, w) && SoundTasks(s, st, w)
    ensures Sound(ImportTasks(s, l, w), st, w) && SoundTasks(ImportTasks(s, l, w), st, w)
  {
    if l != [] {
      SoundTaskList(s, st, l[..|l| - 1], w);
      SoundTaskStep(ImportTasks(s, l[..|l| - 1], w), st, l[|l| - 1], w);
    }
  }

  lemma StartIsSound(st: Store, b: Bundle, w: World)
    requires CountersAhead(st)
    ensures Sound(Start(WithCategories(st, b)), st, w) && SoundTasks(Start(WithCategories(st, b)), st, w)
  {
  }

  /** The state in which the import comes to the i-th task. */
  function BeforeTask(st: Store, b: Bundle, w: World, i: nat): Progress
    requires i <= |b.tasks|
  {
    var built := ImportTemplates(ImportChannels(Start(WithCategories(st, b)), b.channels, w), b.templates);
    ImportTasks(built, b.tasks[..i], w)
  }

  lemma BeforeTaskIsSound(st: Store, b: Bundle, w: World, i: nat)
    requires CountersAhead(st) && i <= |b.tasks|
    ensures Sound(BeforeTask(st, b, w, i), st, w) && SoundTasks(BeforeTask(st, b, w, i), st, w)
  {
    StartIsSound(st, b, w);
    var s0 := Start(WithCategories(st, b));
    SoundChannels(s0, st, b.channels, w);
    var s1 := ImportChannels(s0, b.channels, w);
    SoundTemplates(s1, st, b.templates, w);
    var s2 := ImportTemplates(s1, b.templates);
    assert SoundTasks(s2, st, w);
    SoundTaskList(s2, st, b.tasks[..i], w);
  }

  /** Whatever the bundle, and also when the import fails half-way: every row it added is one the services accept, and
      no row that was there before is changed or lost. */
  lemma OnlyAcceptableRowsAreAdded(st: Store, b: Bundle, w: World)
    requires CountersAhead(st)
    ensures var now := Imported(st, b, w).store;
            && Extends(now.channels, st.channels) && Extends(now.templates, st.templates)
            && Extends(now.tasks, st.tasks)
            && (forall id :: id in now.channels && id !in st.channels
                             ==> AcceptableChannel(now.categories, now.channels[id], w))
            && (forall id :: id in now.templates && id !in st.templates
                             ==> AcceptableTemplate(now.categories, now.templates[id]))
            && (forall id :: id in now.tasks && id !in st.tasks ==> AcceptableTask(now, now.tasks[id], w))
  {
    if b.version == EXPORT_VERSION {
      BeforeTaskIsSound(st, b, w, |b.tasks|);
      assert b.tasks[..|b.tasks|] == b.tasks;
    }
  }

  /** An import that comes to a task which is named, new and has a mapped channel fails there exactly when the services
      would not accept it; and then it stores no task from there on. */
  lemma ImportFailsAtTaskIff(st: Store, b: Bundle, w: World, i: nat)
    requires CountersAhead(st) && b.version == 1 && i < |b.tasks| && !BeforeTask(st, b, w, i).failed
    requires var s, e := BeforeTask(st, b, w, i), b.tasks[i];
             e.Entry? && e.row.name != "" && !TaskNamed(s.store, e.row.name) && NewChannelIds(s.chMap, e.row) != []
    ensures var s, e := BeforeTask(st, b, w, i), b.tasks[i];
            && (BeforeTask(st, b, w, i + 1).failed <==> Unacceptable(s, e.row, w))
            && (Unacceptable(s, e.row, w) ==> Imported(st, b, w) == s.(failed := true))
  {
    var s, e := BeforeTask(st, b, w, i), b.tasks[i];
    var built := ImportTemplates(ImportChannels(Start(WithCategories(st, b)), b.channels, w), b.templates);
    BeforeTaskIsSound(st, b, w, i);
    TaskFailsIff(s, st, e, w);
    assert b.tasks[..i + 1][..i] == b.tasks[..i];
    if Unacceptable(s, e.row, w) {
      FailedTasksStay(built, b.tasks, i + 1, w);
      FailureKeepsStore(s, e, w);
    }
  }

  lemma FailureKeepsStore(s: Progress, e: Entry<Task>, w: World)
    requires !s.failed && ImportTask(s, e, w).failed
    ensures ImportTask(s, e, w) == s.(failed := true)
  {
  }

  // ---- names ----

  ghost predicate Distinct<T(!new), K(!new)>(m: map<int, T>, name: T -> K) {
    forall a, b :: a in m && b in m && a != b ==> name(m[a]) != name(m[b])
  }

  function ChannelName(c: Channel): (string, string) { (c.name, c.typ) }

  function TemplateName(t: Template): string { t.name }

  function TaskName(t: Task): string { t.name }

  /** A channel is known by its name and type, a template and a task by its name. */
  ghost predicate NamesUnique(st: Store) {
    && Distinct(st.channels, ChannelName) && Distinct(st.templates, TemplateName) && Distinct(st.tasks, TaskName)
  }

  lemma AnotherName<T(!new), K(!new)>(m: map<int, T>, name: T -> K, id: int, row: T)
    requires Distinct(m, name) && forall a :: a in m ==> name(m[a]) != name(row)
    ensures Distinct(m[id := row], name)
  {
  }

  lemma ChannelKeepsNames(s: Progress, e: Entry<Channel>, w: World)
    requires NamesUnique(s.store)
    ensures NamesUnique(ImportChannel(s, e, w).store)
  {
    var st := ImportChannel(s, e, w).store;
    if st != s.store {
      var id := s.store.nextChannel;
      assert !ChannelNamed(s.store, e.row.name, e.row.typ);
      AnotherName(s.store.channels, ChannelName, id, st.channels[id]);
    }
  }

  lemma TemplateKeepsNames(s: Progress, e: Entry<Template>)
    requires NamesUnique(s.store)
    ensures NamesUnique(ImportTemplate(s, e).store)
  {
    var st := ImportTemplate(s, e).store;
    if st != s.store {
      var id := s.store.nextTemplate;
      assert !TemplateNamed(s.store, e.row.name);
      AnotherName(s.store.templates, TemplateName, id, st.templates[id]);
    }
  }

  lemma TaskKeepsNames(s: Progress, e: Entry<Task>, w: World)
    requires NamesUnique(s.store)
    ensures NamesUnique(ImportTask(s, e, w).store)
  {
    if ImportTask(s, e, w).store != s.store {
      var t := NewTask(s, e.row, NewChannelIds(s.chMap, e.row));
      assert !TaskNamed(s.store, e.row.name);
      TaskIsAdded(s, t, w);
      AnotherName(s.store.tasks, TaskName, s.store.nextTask, WithTask(s, t, w).store.tasks[s.store.nextTask]);
    }
  }

  lemma {:induction false} ChannelsKeepNames(s: Progress, l: seq<Entry<Channel>>, w: World)
    requires NamesUnique(s.store)
    ensures NamesUnique(ImportChannels(s, l, w).store)
  {
    if l != [] {
      ChannelsKeepNames(s, l[..|l| - 1], w);
      ChannelKeepsNames(ImportChannels(s, l[..|l| - 1], w), l[|l| - 1], w);
    }
  }

  lemma {:induction false} TemplatesKeepNames(s: Progress, l: seq<Entry<Template>>)
    requires NamesUnique(s.store)
    ensures NamesUnique(ImportTemplates(s, l).store)
  {
    if l != [] {
      TemplatesKeepNames(s, l[..|l| - 1]);
      TemplateKeepsNames(ImportTemplates(s, l[..|l| - 1]), l[|l| - 1]);
    }
  }

  lemma {:induction false} TasksKeepNames(s: Progress, l: seq<Entry<Task>>, w: World)
    requires NamesUnique(s.store)
    ensures NamesUnique(ImportTasks(s, l, w).store)
  {
    if l != [] {
      TasksKeepNames(s, l[..|l| - 1], w);
      TaskKeepsNames(ImportTasks(s, l[..|l| - 1], w), l[|l| - 1], w);
    }
  }

  /** Whatever names the bundle carries, twice or already in the store, an import leaves them unique. */
  lemma ImportKeepsNamesUnique(st: Store, b: Bundle, w: World)
    requires NamesUnique(st)
    ensures NamesUnique(Imported(st, b, w).store)
  {
    var s0 := Start(WithCategories(st, b));
    ChannelsKeepNames(s0, b.channels, w);
    var s1 := ImportChannels(s0, b.channels, w);
    TemplatesKeepNames(s1, b.templates);
    TasksKeepNames(ImportTemplates(s1, b.templates), b.tasks, w);
  }

  // ---- API keys ----

  /** The UNIQUE index on the keys, which also covers soft-deleted tasks; tasks without a key are not in it. */
  ghost predicate KeysUnique(st: Store) {
    && (forall a, b :: a in st.tasks && b in st.tasks && a != b && st.tasks[a].apiKey != ""
                       ==> st.tasks[a].apiKey != st.tasks[b].apiKey)
    && (forall a :: a in st.tasks && st.tasks[a].apiKey != "" ==> st.tasks[a].apiKey !in st.retiredKeys)
  }

  /** The random keys still to come are new: to the table, to each other, and to the keys in `known`. */
  ghost predicate NewKeysToCome(st: Store, w: World, known: set<string>) {
    && (forall k :: st.nextTask <= k ==> w.newKey(k) !in known && w.newKey(k) != "" && w.newKey(k) !in st.retiredKeys)
    && (forall k, a :: st.nextTask <= k && a in st.tasks ==> w.newKey(k) != st.tasks[a].apiKey)
    && (forall j, k :: st.nextTask <= j < k ==> w.newKey(j) != w.newKey(k))
  }

  /** A new api task keeps the key it had exactly when no task, live or deleted, holds that key. */
  lemma KeyIsKeptIff(s: Progress, t: Task, w: World)
    requires CountersAhead(s.store) && t.trigger == "api" && t.apiKey != "" && w.newKey(s.store.nextTask) != t.apiKey
    ensures var row := WithTask(s, t, w).store.tasks[s.store.nextTask];
            && (row.apiKey == t.apiKey
                <==> t.apiKey !in s.store.retiredKeys
                     && forall k :: k in s.store.tasks ==> s.store.tasks[k].apiKey != t.apiKey)
            && (row.apiKey != t.apiKey ==> row.apiKey == w.newKey(s.store.nextTask))
  {
  }

  lemma AddedTaskKeepsKeysUnique(s: Progress, t: Task, w: World, known: set<string>)
    requires CountersAhead(s.store) && KeysUnique(s.store) && NewKeysToCome(s.store, w, known) && t.apiKey in known
    ensures var st := WithTask(s, t, w).store; KeysUnique(st) && NewKeysToCome(st, w, known) && CountersAhead(st)
  {
    TaskIsAdded(s, t, w);
    var st, id := WithTask(s, t, w).store, s.store.nextTask;
    if t.trigger == "api" && t.apiKey != "" {
      KeyIsKeptIff(s, t, w);
    } else {
      assert st.tasks[id].apiKey in {"", w.newKey(id)};
    }
  }

  lemma {:induction false} TasksKeepKeysUnique(s: Progress, l: seq<Entry<Task>>, w: World, known: set<string>)
    requires CountersAhead(s.store) && KeysUnique(s.store) && NewKeysToCome(s.store, w, known)
    requires forall i :: 0 <= i < |l| && l[i].Entry? ==> l[i].row.apiKey in known
    ensures var st := ImportTasks(s, l, w).store; CountersAhead(st) && KeysUnique(st) && NewKeysToCome(st, w, known)
  {
    if l != [] {
      var before, e := ImportTasks(s, l[..|l| - 1], w), l[|l| - 1];
      TasksKeepKeysUnique(s, l[..|l| - 1], w, known);
      if ImportTask(before, e, w).store != before.store {
        AddedTaskKeepsKeysUnique(before, NewTask(before, e.row, NewChannelIds(before.chMap, e.row)), w, known);
      }
    }
  }

  /** Whatever keys the bundle carries, an import leaves no two tasks with one key. */
  lemma ImportKeepsKeysUnique(st: Store, b: Bundle, w: World, known: set<string>)
    requires CountersAhead(st) && KeysUnique(st) && NewKeysToCome(st, w, known)
    requires forall i :: 0 <= i < |b.tasks| && b.tasks[i].Entry? ==> b.tasks[i].row.apiKey in known
    ensures KeysUnique(Imported(st, b, w).store)
  {
    if b.version == EXPORT_VERSION {
      BeforeTaskIsSound(st, b, w, 0);
      var s := BeforeTask(st, b, w, 0);
      UntouchedTasks(st, b, w);
      TasksKeepKeysUnique(s, b.tasks, w, known);
    }
  }

  /** Channels and templates are built without touching the tasks. */
  lemma UntouchedTasks(st: Store, b: Bundle, w: World)
    requires CountersAhead(st)
    ensures SameTasks(BeforeTask(st, b, w, 0).store, st)
  {
    var s0 := Start(WithCategories(st, b));
    StartIsSound(st, b, w);
    SoundChannels(s0, st, b.channels, w);
    SoundTemplates(ImportChannels(s0, b.channels, w), st, b.templates, w);
  }
}
