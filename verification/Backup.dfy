/** Backup export and import. The tables hold the rows that are not soft-deleted; text the import copies untouched
    (configuration, contents, addresses, variables) is one string per row. */
module Backup {
  import opened Base
  import opened Text
  import Categories

  datatype Channel = Channel(name: string, typ: string, category: string, config: string, enabled: bool)

  datatype Template = Template(name: string, category: string, content: string, enabled: bool)

  datatype Task = Task(
    name: string, channelId: int, channelIds: seq<int>, templateId: int, category: string, trigger: string,
    receivers: seq<string>, cronExpr: string, details: string, apiKey: string, hmacSecret: string, enabled: bool)

  /** `retiredKeys` are API keys of soft-deleted tasks: the UNIQUE index still holds them. */
  datatype Store = Store(
    channels: map<int, Channel>, nextChannel: int, templates: map<int, Template>, nextTemplate: int,
    tasks: map<int, Task>, nextTask: int, categories: set<string>, retiredKeys: set<string>)

  datatype Entry<T> = Null | Entry(id: int, row: T)

  datatype Bundle = Bundle(
    version: int, channels: seq<Entry<Channel>>, templates: seq<Entry<Template>>, tasks: seq<Entry<Task>>)

  const EXPORT_VERSION := 1

  /** What lies outside this file: the channel types there are, the cron parser, and the random keys of new tasks. */
  datatype World = World(types: set<string>, parses: string -> bool, newKey: int -> string, newSecret: int -> string)

  datatype Skip =
    | BadChannel | ChannelExists(name: string)
    | BadTemplate | TemplateExists(name: string)
    | BadTask | TaskExists(name: string) | NoChannel(name: string)
    | KeyNotKept(name: string) // the task was created all the same

  datatype Progress = Progress(
    store: Store, failed: bool, chMap: map<int, int>, tplMap: map<int, int>,
    channelsCreated: nat, templatesCreated: nat, tasksCreated: nat, skipped: seq<Skip>)

  // ---- categories ----

  function Named<T(==)>(entries: seq<Entry<T>>, category: T -> string): set<string> {
    set e | e in entries && e.Entry? && TrimSpace(category(e.row)) != "" :: TrimSpace(category(e.row))
  }

  function ChannelCategory(c: Channel): string { c.category }

  function TemplateCategory(t: Template): string { t.category }

  function TaskCategory(t: Task): string { t.category }

  /** The category names a bundle mentions. */
  function BundleNames(b: Bundle): set<string> {
    Named(b.channels, ChannelCategory) + Named(b.templates, TemplateCategory) + Named(b.tasks, TaskCategory)
  }

  function KeptAll(names: set<string>): set<string> { set n | n in names :: Categories.Kept(n) }

  /** ensureBundleCategories: the names the pool lacks are inserted, cut to their column's width. */
  function WithCategories(st: Store, b: Bundle): Store {
    st.(categories := st.categories + KeptAll(BundleNames(b) - st.categories))
  }

  function ToSet(names: seq<string>): set<string> { set n | n in names }

  lemma ToSetGrows(names: seq<string>, i: nat)
    requires i < |names|
    ensures ToSet(names[..i + 1]) == ToSet(names[..i]) + {names[i]}
  {
    assert names[..i + 1] == names[..i] + [names[i]];
  }

  lemma KeptOnce(was: set<string>, names: set<string>, n: string)
    ensures var now := was + KeptAll(names - was);
            was + KeptAll(names + {n} - was) == if n in now then now else now + {Categories.Kept(n)}
  {
    var now := was + KeptAll(names - was);
    assert names + {n} - was == names - was + if n in was then {} else {n};
    if n !in was {
      assert KeptAll(names - was + {n}) == KeptAll(names - was) + {Categories.Kept(n)};
      assert n in now ==> Categories.Kept(n) == n;
    }
  }

  lemma NamedByNext<T>(l: seq<Entry<T>>, i: nat, category: T -> string)
    requires i < |l|
    ensures Named(l[..i + 1], category)
            == Named(l[..i], category)
               + if l[i].Entry? && TrimSpace(category(l[i].row)) != "" then {TrimSpace(category(l[i].row))} else {}
  {
    assert l[..i + 1] == l[..i] + [l[i]];
  }

  // ---- one entry ----

  predicate ChannelNamed(st: Store, name: string, typ: string) {
    exists id :: id in st.channels && st.channels[id].name == name && st.channels[id].typ == typ
  }

  predicate TemplateNamed(st: Store, name: string) {
    exists id :: id in st.templates && st.templates[id].name == name
  }

  predicate TaskNamed(st: Store, name: string) {
    exists id :: id in st.tasks && st.tasks[id].name == name
  }

  function Skipping(s: Progress, why: Skip): Progress { s.(skipped := s.skipped + [why]) }

  function ImportChannel(s: Progress, e: Entry<Channel>, w: World): Progress {
    if s.failed then s
    else if e.Null? || e.row.name == "" || e.row.typ == "" then Skipping(s, BadChannel)
    else if ChannelNamed(s.store, e.row.name, e.row.typ) then Skipping(s, ChannelExists(e.row.name))
    else if e.row.typ !in w.types || Categories.Normalized(e.row.category) !in s.store.categories
    then s.(failed := true)
    else
      var st, id := s.store, s.store.nextChannel;
      s.(store := st.(channels := st.channels[id := e.row.(category := Categories.Normalized(e.row.category))],
          nextChannel := id + 1),
         chMap := s.chMap[e.id := id], channelsCreated := s.channelsCreated + 1)
  }

  /** The template's category is not carried over. */
  function ImportTemplate(s: Progress, e: Entry<Template>): Progress {
    if s.failed then s
    else if e.Null? || e.row.name == "" then Skipping(s, BadTemplate)
    else if TemplateNamed(s.store, e.row.name) then Skipping(s, TemplateExists(e.row.name))
    else if Categories.DEFAULT !in s.store.categories then s.(failed := true)
    else
      var st, id := s.store, s.store.nextTemplate;
      s.(store := st.(templates := st.templates[id := e.row.(category := Categories.DEFAULT)], nextTemplate := id + 1),
         tplMap := s.tplMap[e.id := id], templatesCreated := s.templatesCreated + 1)
  }

  function Remap(m: map<int, int>, id: int): int { if id in m then m[id] else 0 }

  function RemapAll(m: map<int, int>, ids: seq<int>): seq<int> {
    if ids == [] then []
    else RemapAll(m, ids[..|ids| - 1]) + if Remap(m, ids[|ids| - 1]) > 0 then [Remap(m, ids[|ids| - 1])] else []
  }

  function NewChannelIds(m: map<int, int>, t: Task): seq<int> {
    var ids := RemapAll(m, t.channelIds);
    if ids == [] && Remap(m, t.channelId) > 0 then [Remap(m, t.channelId)] else ids
  }

  /** TaskService.validate on a task whose channel list is not empty. */
  predicate ValidTask(st: Store, t: Task, w: World) {
    && t.templateId > 0
    && (t.trigger == "cron" || t.trigger == "api")
    && (t.trigger == "cron" ==> TrimSpace(t.cronExpr) != "" && w.parses(t.cronExpr))
    && ((exists c :: c in t.channelIds && (c !in st.channels || st.channels[c].typ == "email")) ==> t.receivers != [])
  }

  predicate KeyTaken(st: Store, key: string, id: int) {
    key in st.retiredKeys || exists k :: k in st.tasks && k != id && st.tasks[k].apiKey == key
  }

  lemma OwnKeyIsNotTaken(st: Store, id: int, row: Task, key: string)
    ensures KeyTaken(st.(tasks := st.tasks[id := row], nextTask := id + 1), key, id) <==> KeyTaken(st, key, id)
  {
    var st' := st.(tasks := st.tasks[id := row], nextTask := id + 1);
    assert forall k :: k != id && k in st.tasks ==> k in st'.tasks && st'.tasks[k] == st.tasks[k];
    assert forall k :: k != id && k in st'.tasks ==> k in st.tasks && st'.tasks[k] == st.tasks[k];
  }

  function NewTask(s: Progress, t: Task, ids: seq<int>): Task
    requires ids != []
  {
    t.(channelId := ids[0], channelIds := ids, templateId := Remap(s.tplMap, t.templateId),
        category := Categories.Normalized(t.category))
  }

  function ImportTask(s: Progress, e: Entry<Task>, w: World): Progress {
    if s.failed then s
    else if e.Null? || e.row.name == "" then Skipping(s, BadTask)
    else if TaskNamed(s.store, e.row.name) then Skipping(s, TaskExists(e.row.name))
    else
      var ids := NewChannelIds(s.chMap, e.row);
      if ids == [] then Skipping(s, NoChannel(e.row.name))
      else
        var t := NewTask(s, e.row, ids);
        if !ValidTask(s.store, t, w) || t.category !in s.store.categories then s.(failed := true)
        else WithTask(s, t, w)
  }

  /** A new api task gets a random key and secret first; the exported ones replace them unless the key is taken. */
  function WithTask(s: Progress, t: Task, w: World): Progress {
    var st, id, api := s.store, s.store.nextTask, t.trigger == "api";
    var kept := api && t.apiKey != "" && !KeyTaken(st, t.apiKey, id);
    var row := t.(apiKey := if kept then t.apiKey else if api then w.newKey(id) else "",
                  hmacSecret := if kept && t.hmacSecret != "" then t.hmacSecret
                                else if api then w.newSecret(id) else "");
    var done := s.(store := st.(tasks := st.tasks[id := row], nextTask := id + 1), tasksCreated := s.tasksCreated + 1);
    if api && t.apiKey != "" && !kept then Skipping(done, KeyNotKept(t.name)) else done
  }

  // ---- the three lists ----

  function ImportChannels(s: Progress, l: seq<Entry<Channel>>, w: World): Progress {
    if l == [] then s else ImportChannel(ImportChannels(s, l[..|l| - 1], w), l[|l| - 1], w)
  }

  function ImportTemplates(s: Progress, l: seq<Entry<Template>>): Progress {
    if l == [] then s else ImportTemplate(ImportTemplates(s, l[..|l| - 1]), l[|l| - 1])
  }

  function ImportTasks(s: Progress, l: seq<Entry<Task>>, w: World): Progress {
    if l == [] then s else ImportTask(ImportTasks(s, l[..|l| - 1], w), l[|l| - 1], w)
  }

  function Start(st: Store): Progress { Progress(st, false, map[], map[], 0, 0, 0, []) }

  function Imported(st: Store, b: Bundle, w: World): Progress {
    if b.version != EXPORT_VERSION then Start(st).(failed := true)
    else ImportTasks(ImportTemplates(ImportChannels(Start(WithCategories(st, b)), b.channels, w), b.templates),
        b.tasks, w)
  }

  /** A table as List returns it: every row, by ascending id. */
  function Listing<T>(m: map<int, T>): seq<Entry<T>> {
    var ids := Ascending(m.Keys);
    seq(|ids|, i requires 0 <= i < |ids| => assert ids[i] in ids; Entry(ids[i], m[ids[i]]))
  }

  function Exported(st: Store): Bundle {
    Bundle(EXPORT_VERSION, Listing(st.channels), Listing(st.templates), Listing(FilledTasks(st)))
  }

  function FilledTasks(st: Store): map<int, Task> { map k | k in st.tasks :: Filled(st.tasks[k]) }

  /** Old single-channel rows are exported with a list of one. */
  function Filled(t: Task): Task {
    if t.channelIds == [] && t.channelId > 0 then t.(channelIds := [t.channelId]) else t
  }

  /** Every task is exported as it is, except that an old single channel is listed too. */
  lemma ExportedTask(st: Store, i: nat)
    requires i < |Exported(st).tasks|
    ensures var e := Exported(st).tasks[i];
            && e.Entry? && e.id in st.tasks && e.row == st.tasks[e.id].(channelIds := e.row.channelIds)
            && (st.tasks[e.id].channelIds != [] ==> e.row.channelIds == st.tasks[e.id].channelIds)
            && (st.tasks[e.id].channelIds == [] ==>
                  e.row.channelIds == if st.tasks[e.id].channelId > 0 then [st.tasks[e.id].channelId] else [])
  {
    var ids := Ascending(FilledTasks(st).Keys);
    assert ids[i] in ids;
  }

  // an import that has failed does nothing more

  lemma {:induction false} FailedChannelsStay(s: Progress, l: seq<Entry<Channel>>, n: nat, w: World)
    requires n <= |l| && ImportChannels(s, l[..n], w).failed
    ensures ImportChannels(s, l, w) == ImportChannels(s, l[..n], w)
  {
    if n < |l| {
      assert l[..|l| - 1][..n] == l[..n];
      FailedChannelsStay(s, l[..|l| - 1], n, w);
    } else {
      assert l[..n] == l;
    }
  }

  lemma {:induction false} FailedTemplatesStay(s: Progress, l: seq<Entry<Template>>, n: nat)
    requires n <= |l| && ImportTemplates(s, l[..n]).failed
    ensures ImportTemplates(s, l) == ImportTemplates(s, l[..n])
  {
    if n < |l| {
      assert l[..|l| - 1][..n] == l[..n];
      FailedTemplatesStay(s, l[..|l| - 1], n);
    } else {
      assert l[..n] == l;
    }
  }

  lemma {:induction false} FailedTasksStay(s: Progress, l: seq<Entry<Task>>, n: nat, w: World)
    requires n <= |l| && ImportTasks(s, l[..n], w).failed
    ensures ImportTasks(s, l, w) == ImportTasks(s, l[..n], w)
  {
    if n < |l| {
      assert l[..|l| - 1][..n] == l[..n];
      FailedTasksStay(s, l[..|l| - 1], n, w);
    } else {
      assert l[..n] == l;
    }
  }

  /** One import call's tables and its growing result. */
  class ExportService {
    var store: Store
    var failed: bool
    var chMap: map<int, int>
    var tplMap: map<int, int>
    var channelsCreated: nat
    var templatesCreated: nat
    var tasksCreated: nat
    var skipped: seq<Skip>

    constructor (store: Store)
      ensures State() == Start(store)
    {
      this.store, failed, chMap, tplMap := store, false, map[], map[];
      channelsCreated, templatesCreated, tasksCreated, skipped := 0, 0, 0, [];
    }

    function State(): Progress reads this {
      Progress(store, failed, chMap, tplMap, channelsCreated, templatesCreated, tasksCreated, skipped)
    }

    /** Builds channels, then templates, then tasks; an error ends the import and leaves what was built before it. */
    method Import(b: Bundle, w: World) returns (ok: bool)
      requires State() == Start(store)
      modifies this
      ensures State() == Imported(old(store), b, w) && ok == !failed
    {
      if b.version != EXPORT_VERSION {
        failed := true;
        return false;
      }
      EnsureBundleCategories(b);
      AddChannels(b.channels, w);
      AddTemplates(b.templates);
      AddTasks(b.tasks, w);
      ok := !failed;
    }

    /** Collects each name once, in order of appearance, then inserts those the pool lacks. */
    method EnsureBundleCategories(b: Bundle)
      modifies this`store
      ensures store == WithCategories(old(store), b)
    {
      var names := Collect([], b.channels, ChannelCategory);
      names := Collect(names, b.templates, TemplateCategory);
      names := Collect(names, b.tasks, TaskCategory);
      for i := 0 to |names|
        invariant store == old(store).(categories := store.categories)
        invariant store.categories == old(store).categories + KeptAll(ToSet(names[..i]) - old(store).categories)
      {
        ToSetGrows(names, i);
        KeptOnce(old(store).categories, ToSet(names[..i]), names[i]);
        if names[i] !in store.categories {
          store := store.(categories := store.categories + {Categories.Kept(names[i])});
        }
      }
      assert names[..|names|] == names && ToSet(names) == BundleNames(b);
    }

    static method Collect<T>(known: seq<string>, l: seq<Entry<T>>, category: T -> string) returns (names: seq<string>)
      requires forall i, k :: 0 <= i < k < |known| ==> known[i] != known[k]
      ensures ToSet(names) == ToSet(known) + Named(l, category)
      ensures forall i, k :: 0 <= i < k < |names| ==> names[i] != names[k]
    {
      names := known;
      for i := 0 to |l|
        invariant ToSet(names) == ToSet(known) + Named(l[..i], category)
        invariant forall j, k :: 0 <= j < k < |names| ==> names[j] != names[k]
      {
        NamedByNext(l, i, category);
        if l[i].Entry? {
          var n := TrimSpace(category(l[i].row));
          if n != "" && n !in names {
            assert ToSet(names + [n]) == ToSet(names) + {n};
            names := names + [n];
          }
        }
      }
      assert l[..|l|] == l;
    }

    method AddChannels(l: seq<Entry<Channel>>, w: World)
      modifies this
      ensures State() == ImportChannels(old(State()), l, w)
    {
      ghost var start := State();
      var i := 0;
      while i < |l| && !failed
        invariant 0 <= i <= |l| && State() == ImportChannels(start, l[..i], w)
      {
        assert l[..i + 1][..i] == l[..i];
        var e := l[i];
        if e.Null? || e.row.name == "" || e.row.typ == "" {
          skipped := skipped + [BadChannel];
        } else if ChannelNamed(store, e.row.name, e.row.typ) {
          skipped := skipped + [ChannelExists(e.row.name)];
        } else {
          var category := Categories.Normalized(e.row.category);
          if e.row.typ !in w.types || category !in store.categories {
            failed := true;
          } else {
            var id := store.nextChannel;
            store := store.(channels := store.channels[id := e.row.(category := category)], nextChannel := id + 1);
            chMap := chMap[e.id := id];
            channelsCreated := channelsCreated + 1;
          }
        }
        i := i + 1;
      }
      if failed { FailedChannelsStay(start, l, i, w); } else { assert l[..i] == l; }
    }

    method AddTemplates(l: seq<Entry<Template>>)
      modifies this
      ensures State() == ImportTemplates(old(State()), l)
    {
      ghost var start := State();
      var i := 0;
      while i < |l| && !failed
        invariant 0 <= i <= |l| && State() == ImportTemplates(start, l[..i])
      {
        assert l[..i + 1][..i] == l[..i];
        var e := l[i];
        if e.Null? || e.row.name == "" {
          skipped := skipped + [BadTemplate];
        } else if TemplateNamed(store, e.row.name) {
          skipped := skipped + [TemplateExists(e.row.name)];
        } else if Categories.DEFAULT !in store.categories {
          failed := true;
        } else {
          var id := store.nextTemplate;
          store := store.(templates := store.templates[id := e.row.(category := Categories.DEFAULT)],
              nextTemplate := id + 1);
          tplMap := tplMap[e.id := id];
          templatesCreated := templatesCreated + 1;
        }
        i := i + 1;
      }
      if failed { FailedTemplatesStay(start, l, i); } else { assert l[..i] == l; }
    }

    method ChannelIdsFor(t: Task) returns (ids: seq<int>)
      ensures ids == NewChannelIds(chMap, t)
    {
      ids := [];
      for i := 0 to |t.channelIds|
        invariant ids == RemapAll(chMap, t.channelIds[..i])
      {
        assert t.channelIds[..i + 1][..i] == t.channelIds[..i];
        var mapped := Remap(chMap, t.channelIds[i]);
        if mapped > 0 {
          ids := ids + [mapped];
        }
      }
      assert t.channelIds[..|t.channelIds|] == t.channelIds;
      if ids == [] {
        var mapped := Remap(chMap, t.channelId);
        if mapped > 0 {
          ids := [mapped];
        }
      }
    }

    method AddTasks(l: seq<Entry<Task>>, w: World)
      modifies this
      ensures State() == ImportTasks(old(State()), l, w)
    {
      ghost var start := State();
      var i := 0;
      while i < |l| && !failed
        invariant 0 <= i <= |l| && State() == ImportTasks(start, l[..i], w)
      {
        assert l[..i + 1][..i] == l[..i];
        AddTask(l[i], w);
        i := i + 1;
      }
      if failed { FailedTasksStay(start, l, i, w); } else { assert l[..i] == l; }
    }

    method AddTask(e: Entry<Task>, w: World)
      requires !failed
      modifies this
      ensures State() == ImportTask(old(State()), e, w)
    {
      if e.Null? || e.row.name == "" {
        skipped := skipped + [BadTask];
        return;
      }
      if TaskNamed(store, e.row.name) {
        skipped := skipped + [TaskExists(e.row.name)];
        return;
      }
      var ids := ChannelIdsFor(e.row);
      if ids == [] {
        skipped := skipped + [NoChannel(e.row.name)];
        return;
      }
      var t := e.row.(channelId := ids[0], channelIds := ids, templateId := Remap(tplMap, e.row.templateId),
                      category := Categories.Normalized(e.row.category));
      var valid := Validate(t, w);
      if !valid || t.category !in store.categories {
        failed := true;
        return;
      }
      CreateTask(t, w);
    }

    /** TaskService.validate: the first email or unknown channel decides whether receivers are needed. */
    method Validate(t: Task, w: World) returns (ok: bool)
      ensures var ids := if t.channelIds == [] && t.channelId > 0 then [t.channelId] else t.channelIds;
              ok <==> (&& t.name != "" && ids != [] && 0 < t.templateId
                       && (t.trigger == "api"
                           || (t.trigger == "cron" && TrimSpace(t.cronExpr) != "" && w.parses(t.cronExpr)))
                       && (t.receivers == []
                           ==> forall c :: c in ids ==> c in store.channels && store.channels[c].typ != "email"))
    {
      if t.name == "" {
        return false;
      }
      var ids := t.channelIds;
      if ids == [] && t.channelId > 0 {
        ids := [t.channelId];
      }
      if ids == [] || t.templateId <= 0 {
        return false;
      }
      if t.trigger != "cron" && t.trigger != "api" {
        return false;
      }
      if t.trigger == "cron" && TrimSpace(t.cronExpr) == "" {
        return false;
      }
      if t.trigger == "cron" {
        if !w.parses(t.cronExpr) {
          return false;
        }
      }
      for i := 0 to |ids|
        invariant forall c :: c in ids[..i] ==> c in store.channels && store.channels[c].typ != "email"
      {
        var c := ids[i];
        if c !in store.channels || store.channels[c].typ == "email" {
          return t.receivers != [];
        }
      }
      assert ids[..|ids|] == ids;
      ok := true;
    }

    method CreateTask(t: Task, w: World)
      requires !failed
      modifies this
      ensures State() == WithTask(old(State()), t, w)
    {
      var id, api := store.nextTask, t.trigger == "api";
      var row := t.(apiKey := if api then w.newKey(id) else "", hmacSecret := if api then w.newSecret(id) else "");
      ghost var before := store;
      store := store.(tasks := store.tasks[id := row], nextTask := id + 1);
      tasksCreated := tasksCreated + 1;
      if api && t.apiKey != "" {
        OwnKeyIsNotTaken(before, id, row, t.apiKey);
        if KeyTaken(store, t.apiKey, id) {
          skipped := skipped + [KeyNotKept(t.name)];
        } else {
          row := row.(apiKey := t.apiKey);
          if t.hmacSecret != "" {
            row := row.(hmacSecret := t.hmacSecret);
          }
          store := store.(tasks := store.tasks[id := row]);
          assert store.tasks == before.tasks[id := row];
        }
      }
    }
  }
}
