/** Exporting a store and importing the backup into an empty one renames ids and changes nothing else. */
module BackupRoundTrip {
  import opened Base
  import opened Text
  import opened Backup
  import Categories

  /** The i-th listed id goes to base + i. */
  function Numbering<T>(l: seq<Entry<T>>, base: int): map<int, int>
    requires forall i :: 0 <= i < |l| ==> l[i].Entry?
  {
    if l == [] then map[] else Numbering(l[..|l| - 1], base)[l[|l| - 1].id := base + |l| - 1]
  }

  function Rows<T>(l: seq<Entry<T>>, base: int): map<int, T>
    requires forall i :: 0 <= i < |l| ==> l[i].Entry?
  {
    if l == [] then map[] else Rows(l[..|l| - 1], base)[base + |l| - 1 := l[|l| - 1].row]
  }

  lemma {:induction false} RowsAt<T>(l: seq<Entry<T>>, base: int)
    requires forall i :: 0 <= i < |l| ==> l[i].Entry?
    ensures forall k :: k in Rows(l, base) <==> base <= k < base + |l|
    ensures forall k :: k in Rows(l, base) ==> Rows(l, base)[k] == l[k - base].row
  {
    if l != [] { RowsAt(l[..|l| - 1], base); }
  }

  ghost predicate DistinctIds<T(!new)>(l: seq<Entry<T>>) {
    (forall i :: 0 <= i < |l| ==> l[i].Entry?) && forall i, k :: 0 <= i < k < |l| ==> l[i].id != l[k].id
  }

  lemma {:induction false} NumberingAt<T(!new)>(l: seq<Entry<T>>, base: int, i: nat)
    requires DistinctIds(l) && i < |l|
    ensures l[i].id in Numbering(l, base) && Numbering(l, base)[l[i].id] == base + i
  {
    if i < |l| - 1 { NumberingAt(l[..|l| - 1], base, i); }
  }

  lemma {:induction false} NumberingKeys<T(!new)>(l: seq<Entry<T>>, base: int)
    requires DistinctIds(l)
    ensures forall k :: k in Numbering(l, base) <==> exists i :: 0 <= i < |l| && l[i].id == k
  {
    if l != [] {
      var n := |l| - 1;
      NumberingKeys(l[..n], base);
      forall k ensures k in Numbering(l, base) <==> exists i :: 0 <= i < |l| && l[i].id == k {
        if k in Numbering(l[..n], base) {
          var i :| 0 <= i < n && l[..n][i].id == k;
          assert l[i].id == k;
        }
        if i :| 0 <= i < |l| && l[i].id == k {
          if i < n { assert l[..n][i].id == k; }
        }
      }
    }
  }

  // ---- bundles that import without a skip ----

  /** A category as a row stores it: normalized, and no wider than its column. */
  predicate StoredCategory(c: string) { Categories.Normalized(c) == c && |c| <= Categories.WIDTH }

  ghost predicate CleanChannels(l: seq<Entry<Channel>>, w: World) {
    && DistinctIds(l)
    && (forall i :: 0 <= i < |l| ==> l[i].row.name != "" && l[i].row.typ != "" && l[i].row.typ in w.types
                                     && StoredCategory(l[i].row.category))
    && forall i, k :: 0 <= i < k < |l| ==> l[i].row.name != l[k].row.name || l[i].row.typ != l[k].row.typ
  }

  ghost predicate CleanTemplates(l: seq<Entry<Template>>) {
    && DistinctIds(l)
    && (forall i :: 0 <= i < |l| ==> l[i].row.name != "")
    && forall i, k :: 0 <= i < k < |l| ==> l[i].row.name != l[k].row.name
  }

  /** A task as the service stores it, relative to the channels and templates it may refer to. */
  ghost predicate CleanTask(t: Task, channels: map<int, Channel>, templates: set<int>, w: World) {
    && t.name != "" && t.channelIds != [] && t.channelId == t.channelIds[0]
    && (forall i :: 0 <= i < |t.channelIds| ==> t.channelIds[i] in channels)
    && t.templateId in templates
    && (t.trigger == "cron" || t.trigger == "api")
    && (t.trigger == "cron" ==>
          TrimSpace(t.cronExpr) != "" && w.parses(t.cronExpr) && t.apiKey == "" && t.hmacSecret == "")
    && (t.trigger == "api" ==> t.apiKey != "" && t.hmacSecret != "")
    && ((exists i :: 0 <= i < |t.channelIds| && channels[t.channelIds[i]].typ == "email") ==> t.receivers != [])
    && StoredCategory(t.category)
  }

  ghost predicate CleanTasks(l: seq<Entry<Task>>, channels: map<int, Channel>, templates: set<int>, w: World) {
    && DistinctIds(l)
    && (forall i :: 0 <= i < |l| ==> CleanTask(l[i].row, channels, templates, w))
    && (forall i, k :: 0 <= i < k < |l| ==> l[i].row.name != l[k].row.name)
    && forall i, k :: 0 <= i < k < |l| && l[i].row.trigger == "api" && l[k].row.trigger == "api" ==>
                        l[i].row.apiKey != l[k].row.apiKey
  }

  ghost predicate InDomain(ids: seq<int>, m: map<int, int>) { forall i :: 0 <= i < |ids| ==> ids[i] in m }

  ghost function MapIds(m: map<int, int>, ids: seq<int>): (r: seq<int>)
    requires InDomain(ids, m)
    ensures |r| == |ids|
  {
    seq(|ids|, i requires 0 <= i < |ids| => m[ids[i]])
  }

  ghost predicate CanRename(t: Task, chMap: map<int, int>, tplMap: map<int, int>) {
    t.channelIds != [] && InDomain(t.channelIds, chMap) && t.templateId in tplMap
  }

  ghost function Renamed(t: Task, chMap: map<int, int>, tplMap: map<int, int>): Task
    requires CanRename(t, chMap, tplMap)
  {
    var ids := MapIds(chMap, t.channelIds);
    t.(channelId := ids[0], channelIds := ids, templateId := tplMap[t.templateId])
  }

  // ---- channels ----

  function ChannelsBuilt(s: Progress, l: seq<Entry<Channel>>): Progress
    requires forall i :: 0 <= i < |l| ==> l[i].Entry?
  {
    var base := s.store.nextChannel;
    s.(store := s.store.(channels := Rows(l, base), nextChannel := base + |l|),
       chMap := Numbering(l, base), channelsCreated := s.channelsCreated + |l|)
  }

  lemma {:induction false} ChannelsImport(s: Progress, l: seq<Entry<Channel>>, w: World)
    requires !s.failed && s.store.channels == map[] && s.chMap == map[] && CleanChannels(l, w)
    requires forall i :: 0 <= i < |l| ==> l[i].row.category in s.store.categories
    ensures ImportChannels(s, l, w) == ChannelsBuilt(s, l)
  {
    if l != [] {
      var n := |l| - 1;
      ChannelsImport(s, l[..n], w);
      NextChannelImports(s, l, w);
    }
  }

  lemma WithOneChannelMore(s: Progress, l: seq<Entry<Channel>>)
    requires l != [] && forall i :: 0 <= i < |l| ==> l[i].Entry?
    ensures var before, e := ChannelsBuilt(s, l[..|l| - 1]), l[|l| - 1];
            var id := before.store.nextChannel;
            ChannelsBuilt(s, l)
            == before.(store := before.store.(channels := before.store.channels[id := e.row], nextChannel := id + 1),
                       chMap := before.chMap[e.id := id], channelsCreated := before.channelsCreated + 1)
  {
  }

  lemma NextChannelImports(s: Progress, l: seq<Entry<Channel>>, w: World)
    requires !s.failed && CleanChannels(l, w) && l != [] && l[|l| - 1].row.category in s.store.categories
    ensures ImportChannel(ChannelsBuilt(s, l[..|l| - 1]), l[|l| - 1], w) == ChannelsBuilt(s, l)
  {
    var before := ChannelsBuilt(s, l[..|l| - 1]);
    ChannelIsNew(before.store, l, s.store.nextChannel, w);
    ChannelImports(before, l[|l| - 1], w);
    WithOneChannelMore(s, l);
  }

  lemma ChannelImports(s: Progress, e: Entry<Channel>, w: World)
    requires !s.failed && e.Entry? && e.row.name != "" && e.row.typ != "" && e.row.typ in w.types
    requires StoredCategory(e.row.category) && e.row.category in s.store.categories
    requires !ChannelNamed(s.store, e.row.name, e.row.typ)
    ensures var id := s.store.nextChannel;
            ImportChannel(s, e, w)
            == s.(store := s.store.(channels := s.store.channels[id := e.row], nextChannel := id + 1),
                  chMap := s.chMap[e.id := id], channelsCreated := s.channelsCreated + 1)
  {
    assert e.row.(category := Categories.Normalized(e.row.category)) == e.row;
  }

  lemma ChannelIsNew(st: Store, l: seq<Entry<Channel>>, base: int, w: World)
    requires CleanChannels(l, w) && l != [] && st.channels == Rows(l[..|l| - 1], base)
    ensures !ChannelNamed(st, l[|l| - 1].row.name, l[|l| - 1].row.typ)
  {
    RowsAt(l[..|l| - 1], base);
  }

  // ---- templates ----

  function Uncategorized(l: seq<Entry<Template>>): seq<Entry<Template>>
    requires forall i :: 0 <= i < |l| ==> l[i].Entry?
  {
    seq(|l|, i requires 0 <= i < |l| => Entry(l[i].id, l[i].row.(category := Categories.DEFAULT)))
  }

  lemma {:induction false} TemplatesImport(s: Progress, l: seq<Entry<Template>>)
    requires !s.failed && s.store.templates == map[] && s.tplMap == map[] && CleanTemplates(l)
    requires Categories.DEFAULT in s.store.categories
    ensures ImportTemplates(s, l) == WithTemplates(s, l)
  {
    if l == [] {
      assert Uncategorized(l) == [];
    } else {
      var n := |l| - 1;
      TemplatesImport(s, l[..n]);
      TemplateIsNew(WithTemplates(s, l[..n]).store, l, s.store.nextTemplate);
      TemplateImports(WithTemplates(s, l[..n]), l[n]);
      WithOneTemplateMore(s, l);
    }
  }

  ghost function WithTemplates(s: Progress, l: seq<Entry<Template>>): Progress
    requires forall i :: 0 <= i < |l| ==> l[i].Entry?
  {
    s.(store := s.store.(templates := Rows(Uncategorized(l), s.store.nextTemplate),
        nextTemplate := s.store.nextTemplate + |l|),
       tplMap := Numbering(l, s.store.nextTemplate), templatesCreated := s.templatesCreated + |l|)
  }

  lemma WithOneTemplateMore(s: Progress, l: seq<Entry<Template>>)
    requires l != [] && forall i :: 0 <= i < |l| ==> l[i].Entry?
    ensures var before, e := WithTemplates(s, l[..|l| - 1]), l[|l| - 1];
            var id := before.store.nextTemplate;
            WithTemplates(s, l)
            == before.(store := before.store.(
                         templates := before.store.templates[id := e.row.(category := Categories.DEFAULT)],
                         nextTemplate := id + 1),
                       tplMap := before.tplMap[e.id := id], templatesCreated := before.templatesCreated + 1)
  {
    assert Uncategorized(l)[..|l| - 1] == Uncategorized(l[..|l| - 1]);
  }

  lemma TemplateImports(s: Progress, e: Entry<Template>)
    requires !s.failed && e.Entry? && e.row.name != "" && Categories.DEFAULT in s.store.categories
            && !TemplateNamed(s.store, e.row.name)
    ensures var id := s.store.nextTemplate;
            ImportTemplate(s, e)
            == s.(store := s.store.(templates := s.store.templates[id := e.row.(category := Categories.DEFAULT)],
                nextTemplate := id + 1),
                  tplMap := s.tplMap[e.id := id], templatesCreated := s.templatesCreated + 1)
  {
  }

  lemma TemplateIsNew(st: Store, l: seq<Entry<Template>>, base: int)
    requires CleanTemplates(l) && l != [] && st.templates == Rows(Uncategorized(l[..|l| - 1]), base)
    ensures !TemplateNamed(st, l[|l| - 1].row.name)
  {
    RowsAt(Uncategorized(l[..|l| - 1]), base);
  }

  // ---- tasks ----

  lemma {:induction false} RemapsAll(m: map<int, int>, ids: seq<int>)
    requires InDomain(ids, m) && forall i :: 0 <= i < |ids| ==> m[ids[i]] > 0
    ensures RemapAll(m, ids) == MapIds(m, ids)
  {
    if ids != [] {
      RemapsAll(m, ids[..|ids| - 1]);
    }
  }

  /** The id maps cover the sources, land on positive ids, and channels keep their type. */
  ghost predicate Covers(s: Progress, channels: map<int, Channel>, templates: set<int>) {
    && (forall c :: c in channels ==> c in s.chMap && s.chMap[c] > 0 && s.chMap[c] in s.store.channels
                                      && s.store.channels[s.chMap[c]].typ == channels[c].typ)
    && forall t :: t in templates ==> t in s.tplMap && s.tplMap[t] > 0
  }

  ghost predicate AllCanRename(l: seq<Entry<Task>>, chMap: map<int, int>, tplMap: map<int, int>) {
    forall i :: 0 <= i < |l| ==> l[i].Entry? && CanRename(l[i].row, chMap, tplMap)
  }

  ghost function RenamedEntries(l: seq<Entry<Task>>, chMap: map<int, int>, tplMap: map<int, int>): (r: seq<Entry<Task>>)
    requires AllCanRename(l, chMap, tplMap)
    ensures |r| == |l| && forall i :: 0 <= i < |l| ==> r[i] == Entry(l[i].id, Renamed(l[i].row, chMap, tplMap))
  {
    seq(|l|, i requires 0 <= i < |l| => Entry(l[i].id, Renamed(l[i].row, chMap, tplMap)))
  }

  lemma CoveredIds(s: Progress, t: Task, channels: map<int, Channel>, templates: set<int>, w: World)
    requires CleanTask(t, channels, templates, w) && Covers(s, channels, templates)
    ensures CanRename(t, s.chMap, s.tplMap)
    ensures forall i :: 0 <= i < |t.channelIds| ==>
              && s.chMap[t.channelIds[i]] > 0 && s.chMap[t.channelIds[i]] in s.store.channels
              && s.store.channels[s.chMap[t.channelIds[i]]].typ == channels[t.channelIds[i]].typ
  {
    forall i | 0 <= i < |t.channelIds|
      ensures t.channelIds[i] in s.chMap && s.chMap[t.channelIds[i]] > 0 && s.chMap[t.channelIds[i]] in s.store.channels
      ensures s.store.channels[s.chMap[t.channelIds[i]]].typ == channels[t.channelIds[i]].typ
    {
      var c := t.channelIds[i];
      assert c in channels;
    }
  }

  lemma CleanTasksCanRename(s: Progress, l: seq<Entry<Task>>, channels: map<int, Channel>, templates: set<int>,
      w: World)
    requires CleanTasks(l, channels, templates, w) && Covers(s, channels, templates)
    ensures AllCanRename(l, s.chMap, s.tplMap)
  {
    forall i | 0 <= i < |l| ensures CanRename(l[i].row, s.chMap, s.tplMap) {
      CoveredIds(s, l[i].row, channels, templates, w);
    }
  }

  lemma TaskImports(s: Progress, e: Entry<Task>, channels: map<int, Channel>, templates: set<int>, w: World)
    requires !s.failed && e.Entry? && CleanTask(e.row, channels, templates, w) && Covers(s, channels, templates)
    requires e.row.category in s.store.categories && !TaskNamed(s.store, e.row.name)
    requires e.row.trigger == "api" ==> !KeyTaken(s.store, e.row.apiKey, s.store.nextTask)
    ensures CanRename(e.row, s.chMap, s.tplMap)
    ensures var id := s.store.nextTask;
            ImportTask(s, e, w)
            == s.(store := s.store.(tasks := s.store.tasks[id := Renamed(e.row, s.chMap, s.tplMap)],
                nextTask := id + 1),
                  tasksCreated := s.tasksCreated + 1)
  {
    CoveredIds(s, e.row, channels, templates, w);
    RemapsAll(s.chMap, e.row.channelIds);
    var ids := NewChannelIds(s.chMap, e.row);
    assert ids == MapIds(s.chMap, e.row.channelIds);
    var t := NewTask(s, e.row, ids);
    assert t == Renamed(e.row, s.chMap, s.tplMap);
    RenamedIsValid(s, e.row, channels, templates, w);
  }

  lemma RenamedIsValid(s: Progress, t: Task, channels: map<int, Channel>, templates: set<int>, w: World)
    requires CleanTask(t, channels, templates, w) && Covers(s, channels, templates) && CanRename(t, s.chMap, s.tplMap)
    ensures ValidTask(s.store, Renamed(t, s.chMap, s.tplMap), w)
  {
    CoveredIds(s, t, channels, templates, w);
    var ids := Renamed(t, s.chMap, s.tplMap).channelIds;
    if exists c :: c in ids && (c !in s.store.channels || s.store.channels[c].typ == "email") {
      var c :| c in ids && (c !in s.store.channels || s.store.channels[c].typ == "email");
      var i :| 0 <= i < |ids| && ids[i] == c;
      assert s.chMap[t.channelIds[i]] == c && channels[t.channelIds[i]].typ == "email";
    }
  }

  lemma {:induction false} TasksImport(s: Progress, l: seq<Entry<Task>>, channels: map<int, Channel>,
      templates: set<int>, w: World)
    requires !s.failed && s.store.tasks == map[] && s.store.retiredKeys == {}
    requires CleanTasks(l, channels, templates, w) && Covers(s, channels, templates)
    requires forall i :: 0 <= i < |l| ==> l[i].row.category in s.store.categories
    ensures AllCanRename(l, s.chMap, s.tplMap) && ImportTasks(s, l, w) == WithTasks(s, l)
  {
    CleanTasksCanRename(s, l, channels, templates, w);
    if l == [] {
      assert RenamedEntries(l, s.chMap, s.tplMap) == [];
    } else {
      var n := |l| - 1;
      TasksImport(s, l[..n], channels, templates, w);
      NextTaskImports(s, l, channels, templates, w);
    }
  }

  lemma NextTaskImports(s: Progress, l: seq<Entry<Task>>, channels: map<int, Channel>, templates: set<int>, w: World)
    requires !s.failed && s.store.retiredKeys == {} && l != []
    requires CleanTasks(l, channels, templates, w) && Covers(s, channels, templates)
            && AllCanRename(l, s.chMap, s.tplMap)
    requires l[|l| - 1].row.category in s.store.categories
    ensures AllCanRename(l[..|l| - 1], s.chMap, s.tplMap)
    ensures ImportTask(WithTasks(s, l[..|l| - 1]), l[|l| - 1], w) == WithTasks(s, l)
  {
    var n := |l| - 1;
    WithOneTaskMore(s, l);
    var before := WithTasks(s, l[..n]);
    TaskIsNew(before.store, l, s, channels, templates, w);
    TaskImports(before, l[n], channels, templates, w);
  }

  ghost function WithTasks(s: Progress, l: seq<Entry<Task>>): Progress
    requires AllCanRename(l, s.chMap, s.tplMap)
  {
    s.(store := s.store.(tasks := Rows(RenamedEntries(l, s.chMap, s.tplMap), s.store.nextTask),
        nextTask := s.store.nextTask + |l|),
       tasksCreated := s.tasksCreated + |l|)
  }

  lemma WithOneTaskMore(s: Progress, l: seq<Entry<Task>>)
    requires l != [] && AllCanRename(l, s.chMap, s.tplMap)
    ensures AllCanRename(l[..|l| - 1], s.chMap, s.tplMap)
    ensures var before, e := WithTasks(s, l[..|l| - 1]), l[|l| - 1];
            var id := before.store.nextTask;
            WithTasks(s, l)
            == before.(store := before.store.(tasks := before.store.tasks[id := Renamed(e.row, s.chMap, s.tplMap)],
                nextTask := id + 1),
                       tasksCreated := before.tasksCreated + 1)
  {
    assert AllCanRename(l[..|l| - 1], s.chMap, s.tplMap);
    assert RenamedEntries(l, s.chMap, s.tplMap)[..|l| - 1] == RenamedEntries(l[..|l| - 1], s.chMap, s.tplMap);
  }

  lemma TaskIsNew(st: Store, l: seq<Entry<Task>>, s: Progress, channels: map<int, Channel>, templates: set<int>,
      w: World)
    requires CleanTasks(l, channels, templates, w) && l != [] && AllCanRename(l[..|l| - 1], s.chMap, s.tplMap)
    requires st.tasks == Rows(RenamedEntries(l[..|l| - 1], s.chMap, s.tplMap), s.store.nextTask) && st.retiredKeys == {}
    ensures CleanTask(l[|l| - 1].row, channels, templates, w)
    ensures !TaskNamed(st, l[|l| - 1].row.name)
    ensures l[|l| - 1].row.trigger == "api" ==> !KeyTaken(st, l[|l| - 1].row.apiKey, st.nextTask)
  {
    var n := |l| - 1;
    RowsAt(RenamedEntries(l[..n], s.chMap, s.tplMap), s.store.nextTask);
    assert CleanTask(l[n].row, channels, templates, w);
    forall k | k in st.tasks
      ensures st.tasks[k].name != l[n].row.name
      ensures l[n].row.trigger == "api" ==> st.tasks[k].apiKey != l[n].row.apiKey
    {
      assert CleanTask(l[k - s.store.nextTask].row, channels, templates, w);
    }
  }

  // ---- the round trip ----

  /** A store the service has filled: categories validated, names unique, references live. */
  ghost predicate WellFormed(st: Store, w: World) {
    && (forall id :: id in st.channels ==>
          var c := st.channels[id];
          c.name != "" && c.typ != "" && c.typ in w.types && StoredCategory(c.category))
    && (forall i, k :: i in st.channels && k in st.channels && i != k ==>
          st.channels[i].name != st.channels[k].name || st.channels[i].typ != st.channels[k].typ)
    && (forall id :: id in st.templates ==> st.templates[id].name != "")
    && (forall i, k :: i in st.templates && k in st.templates && i != k ==>
          st.templates[i].name != st.templates[k].name)
    && (forall id :: id in st.tasks ==> CleanTask(Filled(st.tasks[id]), st.channels, st.templates.Keys, w))
    && (forall i, k :: i in st.tasks && k in st.tasks && i != k ==> st.tasks[i].name != st.tasks[k].name)
    && (forall i, k ::
          i in st.tasks && k in st.tasks && i != k && st.tasks[i].trigger == "api" && st.tasks[k].trigger == "api" ==>
            st.tasks[i].apiKey != st.tasks[k].apiKey)
  }

  ghost predicate Empty(st: Store) {
    && st.channels == map[] && st.templates == map[] && st.tasks == map[] && st.retiredKeys == {}
    && 0 < st.nextChannel && 0 < st.nextTemplate && 0 < st.nextTask && Categories.DEFAULT in st.categories
  }

  /** `f` renames the ids of `a` one to one onto those of `b`, and `same` relates the rows. */
  ghost predicate Isomorphic<T(!new), U(!new)>(a: map<int, T>, b: map<int, U>, f: map<int, int>, same: (T, U) -> bool) {
    && f.Keys == a.Keys
    && (forall i, k :: i in f && k in f && i != k ==> f[i] != f[k])
    && (forall k :: k in b <==> k in f.Values)
    && forall i :: i in a ==> f[i] in b && same(a[i], b[f[i]])
  }

  /** `l` lists the rows of `a`. */
  ghost predicate Lists<T(!new)>(l: seq<Entry<T>>, a: map<int, T>) {
    && DistinctIds(l)
    && (forall i :: 0 <= i < |l| ==> l[i].id in a && l[i].row == a[l[i].id])
    && forall k :: k in a ==> exists i :: 0 <= i < |l| && l[i].id == k
  }

  lemma NumberOf<T(!new)>(l: seq<Entry<T>>, a: map<int, T>, base: int, id: int) returns (p: nat)
    requires Lists(l, a) && id in a
    ensures p < |l| && l[p].id == id && id in Numbering(l, base) && Numbering(l, base)[id] == base + p
  {
    p :| 0 <= p < |l| && l[p].id == id;
    NumberingAt(l, base, p);
  }

  lemma NumberingDomain<T(!new)>(l: seq<Entry<T>>, a: map<int, T>, base: int)
    requires Lists(l, a)
    ensures Numbering(l, base).Keys == a.Keys
  {
    NumberingKeys(l, base);
    forall i ensures i in Numbering(l, base) <==> i in a {
      if i in a { var p := NumberOf(l, a, base, i); }
    }
    SameKeys(Numbering(l, base), a);
  }

  lemma NumberingIsOnto<T(!new)>(l: seq<Entry<T>>, base: int, p: int)
    requires DistinctIds(l) && base <= p < base + |l|
    ensures p in Numbering(l, base).Values
  {
    NumberingAt(l, base, p - base);
    assert Numbering(l, base)[l[p - base].id] == p;
  }

  lemma {:induction false} RowAt<T>(l: seq<Entry<T>>, base: int, p: nat)
    requires p < |l| && forall i :: 0 <= i < |l| ==> l[i].Entry?
    ensures base + p in Rows(l, base) && Rows(l, base)[base + p] == l[p].row
  {
    if p < |l| - 1 { RowAt(l[..|l| - 1], base, p); }
  }

  /** The rows of `m`, taken in order, stand for those `l` lists of `a`. */
  ghost predicate Matches<T, U>(a: map<int, T>, l: seq<Entry<T>>, m: seq<Entry<U>>, same: (T, U) -> bool) {
    |m| == |l| && forall k :: 0 <= k < |m| ==> MatchesAt(a, l, m, same, k)
  }

  predicate MatchesAt<T, U>(a: map<int, T>, l: seq<Entry<T>>, m: seq<Entry<U>>, same: (T, U) -> bool, k: nat)
    requires k < |m| == |l|
  {
    m[k].Entry? && l[k].Entry? && l[k].id in a && same(a[l[k].id], m[k].row)
  }

  lemma RowIsCarried<T(!new), U(!new)>(a: map<int, T>, l: seq<Entry<T>>, m: seq<Entry<U>>, base: int,
      same: (T, U) -> bool, i: int)
    requires Lists(l, a) && i in a && Matches(a, l, m, same)
    ensures (forall k :: 0 <= k < |m| ==> m[k].Entry?)
            && i in Numbering(l, base) && Numbering(l, base)[i] in Rows(m, base)
            && same(a[i], Rows(m, base)[Numbering(l, base)[i]])
  {
    var p := NumberOf(l, a, base, i);
    assert MatchesAt(a, l, m, same, p);
    assert forall k :: 0 <= k < |m| ==> MatchesAt(a, l, m, same, k) ==> m[k].Entry?;
    RowAt(m, base, p);
  }

  lemma {:induction false} NumberingRange<T>(l: seq<Entry<T>>, base: int)
    requires forall i :: 0 <= i < |l| ==> l[i].Entry?
    ensures forall i :: i in Numbering(l, base) ==> base <= Numbering(l, base)[i] < base + |l|
  {
    if l != [] { NumberingRange(l[..|l| - 1], base); }
  }

  lemma RowsAreNumbered<T(!new), U>(l: seq<Entry<T>>, m: seq<Entry<U>>, base: int, p: int)
    requires DistinctIds(l) && |m| == |l| && forall k :: 0 <= k < |m| ==> m[k].Entry?
    ensures p in Rows(m, base) <==> p in Numbering(l, base).Values
  {
    RowsAt(m, base);
    NumberingRange(l, base);
    if base <= p < base + |l| { NumberingIsOnto(l, base, p); }
  }

  lemma NumberingIsInjective<T(!new)>(l: seq<Entry<T>>, a: map<int, T>, base: int, i: int, k: int)
    requires Lists(l, a) && i in a && k in a && i != k
    ensures i in Numbering(l, base) && k in Numbering(l, base) && Numbering(l, base)[i] != Numbering(l, base)[k]
  {
    var p := NumberOf(l, a, base, i);
    var q := NumberOf(l, a, base, k);
  }

  lemma RowsAreIsomorphic<T(!new), U(!new)>(a: map<int, T>, l: seq<Entry<T>>, m: seq<Entry<U>>, base: int,
      same: (T, U) -> bool)
    requires Lists(l, a) && Matches(a, l, m, same)
    ensures (forall k :: 0 <= k < |m| ==> m[k].Entry?) && Isomorphic(a, Rows(m, base), Numbering(l, base), same)
  {
    assert forall k :: 0 <= k < |m| ==> MatchesAt(a, l, m, same, k) ==> m[k].Entry?;
    var f, b := Numbering(l, base), Rows(m, base);
    NumberingDomain(l, a, base);
    assert forall i :: i in f ==> i in a;
    assert forall i, k :: i in f && k in f && i != k ==> f[i] != f[k] by {
      forall i, k | i in f && k in f && i != k ensures f[i] != f[k] { NumberingIsInjective(l, a, base, i, k); }
    }
    assert forall p :: p in b <==> p in f.Values by {
      forall p ensures p in b <==> p in f.Values { RowsAreNumbered(l, m, base, p); }
    }
    assert forall i :: i in a ==> f[i] in b && same(a[i], b[f[i]]) by {
      forall i | i in a ensures f[i] in b && same(a[i], b[f[i]]) { RowIsCarried(a, l, m, base, same, i); }
    }
  }

  lemma ListingLists<T(!new)>(m: map<int, T>)
    ensures Lists(Listing(m), m)
  {
    var ids, l := Ascending(m.Keys), Listing(m);
    forall i | 0 <= i < |l| ensures l[i].id in m { assert ids[i] in ids; }
    forall k | k in m ensures exists i :: 0 <= i < |l| && l[i].id == k {
      assert k in ids;
      var i :| 0 <= i < |ids| && ids[i] == k;
      assert l[i].id == k;
    }
  }

  lemma ListedChannelsAreClean(src: Store, l: seq<Entry<Channel>>, w: World)
    requires WellFormed(src, w) && Lists(l, src.channels)
    ensures CleanChannels(l, w)
  {
  }

  lemma ListedTemplatesAreClean(src: Store, l: seq<Entry<Template>>, w: World)
    requires WellFormed(src, w) && Lists(l, src.templates)
    ensures CleanTemplates(l)
  {
  }

  lemma ListedTasksAreClean(src: Store, l: seq<Entry<Task>>, w: World)
    requires WellFormed(src, w) && Lists(l, FilledTasks(src))
    ensures CleanTasks(l, src.channels, src.templates.Keys, w)
  {
    forall i | 0 <= i < |l| ensures l[i].id in src.tasks && l[i].row == Filled(src.tasks[l[i].id]) {
      assert l[i].id in FilledTasks(src);
    }
    forall i, k | 0 <= i < k < |l|
      ensures l[i].row.name != l[k].row.name
      ensures l[i].row.trigger == "api" && l[k].row.trigger == "api" ==> l[i].row.apiKey != l[k].row.apiKey
    {
      assert l[i].id != l[k].id;
    }
  }

  lemma ListedCategory<T>(l: seq<Entry<T>>, category: T -> string, i: nat)
    requires i < |l| && l[i].Entry? && StoredCategory(category(l[i].row))
    ensures category(l[i].row) in Named(l, category) || category(l[i].row) == Categories.DEFAULT
  {
    assert l[i] in l;
  }

  lemma StoredNameIsKept(st: Store, b: Bundle, c: string)
    requires c in BundleNames(b) && StoredCategory(c)
    ensures c in WithCategories(st, b).categories
  {
    assert Categories.Kept(c) == c;
    if c !in st.categories { assert c in KeptAll(BundleNames(b) - st.categories); }
  }

  lemma CategoriesArePresent(dst: Store, src: Store, w: World)
    requires WellFormed(src, w) && Empty(dst)
    ensures var b := Exported(src);
            var categories := WithCategories(dst, b).categories;
            && Categories.DEFAULT in categories
            && (forall i :: 0 <= i < |b.channels| ==> b.channels[i].row.category in categories)
            && (forall i :: 0 <= i < |b.tasks| ==> b.tasks[i].row.category in categories)
  {
    var b := Exported(src);
    ListingLists(src.channels);
    ListedChannelsAreClean(src, b.channels, w);
    ListingLists(FilledTasks(src));
    ListedTasksAreClean(src, b.tasks, w);
    forall i | 0 <= i < |b.channels| ensures b.channels[i].row.category in WithCategories(dst, b).categories {
      ListedCategory(b.channels, ChannelCategory, i);
      var c := b.channels[i].row.category;
      if c != Categories.DEFAULT { StoredNameIsKept(dst, b, c); }
    }
    forall i | 0 <= i < |b.tasks| ensures b.tasks[i].row.category in WithCategories(dst, b).categories {
      assert CleanTask(b.tasks[i].row, src.channels, src.templates.Keys, w);
      ListedCategory(b.tasks, TaskCategory, i);
      var c := b.tasks[i].row.category;
      if c != Categories.DEFAULT { StoredNameIsKept(dst, b, c); }
    }
  }

  lemma ChannelIsCovered(s: Progress, src: map<int, Channel>, l: seq<Entry<Channel>>, base: int, c: int)
    requires Lists(l, src) && 0 < base && c in src
    requires s.store.channels == Rows(l, base) && s.chMap == Numbering(l, base)
    ensures c in s.chMap && s.chMap[c] > 0 && s.chMap[c] in s.store.channels
            && s.store.channels[s.chMap[c]].typ == src[c].typ
  {
    var p := NumberOf(l, src, base, c);
    RowsAt(l, base);
    assert s.store.channels[base + p] == l[p].row;
  }

  lemma TemplateIsCovered(s: Progress, src: map<int, Template>, l: seq<Entry<Template>>, base: int, t: int)
    requires Lists(l, src) && 0 < base && t in src && s.tplMap == Numbering(l, base)
    ensures t in s.tplMap && s.tplMap[t] > 0
  {
    var p := NumberOf(l, src, base, t);
  }

  lemma NumberingCovers(s: Progress, src: Store, cl: seq<Entry<Channel>>, tl: seq<Entry<Template>>, cbase: int,
      tbase: int)
    requires Lists(cl, src.channels) && Lists(tl, src.templates) && 0 < cbase && 0 < tbase
    requires s.store.channels == Rows(cl, cbase) && s.chMap == Numbering(cl, cbase) && s.tplMap == Numbering(tl, tbase)
    ensures Covers(s, src.channels, src.templates.Keys)
  {
    forall c | c in src.channels
      ensures c in s.chMap && s.chMap[c] > 0 && s.chMap[c] in s.store.channels
              && s.store.channels[s.chMap[c]].typ == src.channels[c].typ
    {
      ChannelIsCovered(s, src.channels, cl, cbase, c);
    }
    forall t | t in src.templates.Keys ensures t in s.tplMap && s.tplMap[t] > 0 {
      TemplateIsCovered(s, src.templates, tl, tbase, t);
    }
  }

  /** What the three phases leave behind. */
  ghost predicate Renumbered(r: Progress, b: Bundle, cbase: int, tbase: int, kbase: int)
    requires DistinctIds(b.channels) && DistinctIds(b.templates)
  {
    && !r.failed && r.skipped == []
    && r.chMap == Numbering(b.channels, cbase) && r.store.channels == Rows(b.channels, cbase)
    && r.tplMap == Numbering(b.templates, tbase) && r.store.templates == Rows(Uncategorized(b.templates), tbase)
    && AllCanRename(b.tasks, r.chMap, r.tplMap)
    && r.store.tasks == Rows(RenamedEntries(b.tasks, r.chMap, r.tplMap), kbase)
  }

  lemma CleanBundleImports(src: Store, st: Store, b: Bundle, w: World)
    requires Lists(b.channels, src.channels) && Lists(b.templates, src.templates) && Empty(st)
    requires CleanChannels(b.channels, w) && CleanTemplates(b.templates)
            && CleanTasks(b.tasks, src.channels, src.templates.Keys, w)
    requires forall i :: 0 <= i < |b.channels| ==> b.channels[i].row.category in st.categories
    requires forall i :: 0 <= i < |b.tasks| ==> b.tasks[i].row.category in st.categories
    ensures Renumbered(
              ImportTasks(ImportTemplates(ImportChannels(Start(st), b.channels, w), b.templates), b.tasks, w), b,
                       st.nextChannel, st.nextTemplate, st.nextTask)
  {
    ChannelsImport(Start(st), b.channels, w);
    var s1 := ImportChannels(Start(st), b.channels, w);
    TemplatesImport(s1, b.templates);
    var s2 := ImportTemplates(s1, b.templates);
    NumberingCovers(s2, src, b.channels, b.templates, st.nextChannel, st.nextTemplate);
    TasksImport(s2, b.tasks, src.channels, src.templates.Keys, w);
  }

  lemma ImportOfExport(src: Store, dst: Store, w: World)
    requires WellFormed(src, w) && Empty(dst)
    ensures Lists(Exported(src).channels, src.channels) && Lists(Exported(src).templates, src.templates)
    ensures Renumbered(Imported(dst, Exported(src), w), Exported(src), dst.nextChannel, dst.nextTemplate, dst.nextTask)
  {
    var b := Exported(src);
    ListingLists(src.channels);
    ListingLists(src.templates);
    ListingLists(FilledTasks(src));
    ListedChannelsAreClean(src, b.channels, w);
    ListedTemplatesAreClean(src, b.templates, w);
    ListedTasksAreClean(src, b.tasks, w);
    CategoriesArePresent(dst, src, w);
    CleanBundleImports(src, WithCategories(dst, b), b, w);
  }

  predicate SameChannel(a: Channel, b: Channel) { a == b }

  predicate SameButCategory(a: Template, b: Template) { b == a.(category := Categories.DEFAULT) }

  ghost predicate SameRenamed(a: Task, b: Task, chMap: map<int, int>, tplMap: map<int, int>) {
    CanRename(a, chMap, tplMap) && b == Renamed(a, chMap, tplMap)
  }

  ghost function RenamedBy(chMap: map<int, int>, tplMap: map<int, int>): (Task, Task) -> bool {
    (a, b) => SameRenamed(a, b, chMap, tplMap)
  }

  /** Export followed by import into an empty store: nothing fails, nothing is skipped, and the new store is the old
      one with ids renamed one to one. Channel lists keep their order, api keys and signing secrets stay; only the
      category of templates is lost. */
  lemma RoundTrip(src: Store, dst: Store, w: World)
    requires WellFormed(src, w) && Empty(dst)
    ensures var r := Imported(dst, Exported(src), w);
            && !r.failed && r.skipped == []
            && Isomorphic(src.channels, r.store.channels, r.chMap, SameChannel)
            && Isomorphic(src.templates, r.store.templates, r.tplMap, SameButCategory)
            && exists taskMap :: Isomorphic(FilledTasks(src), r.store.tasks, taskMap, RenamedBy(r.chMap, r.tplMap))
  {
    ImportOfExport(src, dst, w);
    ListingLists(FilledTasks(src));
    RenumberedIsIsomorphic(src, Exported(src), Imported(dst, Exported(src), w), dst.nextChannel, dst.nextTemplate,
        dst.nextTask);
  }

  lemma RenumberedIsIsomorphic(src: Store, b: Bundle, r: Progress, cbase: int, tbase: int, kbase: int)
    requires Lists(b.channels, src.channels) && Lists(b.templates, src.templates) && Lists(b.tasks, FilledTasks(src))
    requires Renumbered(r, b, cbase, tbase, kbase)
    ensures Isomorphic(src.channels, r.store.channels, r.chMap, SameChannel)
    ensures Isomorphic(src.templates, r.store.templates, r.tplMap, SameButCategory)
    ensures exists taskMap :: Isomorphic(FilledTasks(src), r.store.tasks, taskMap, RenamedBy(r.chMap, r.tplMap))
  {
    RowsAreIsomorphic(src.channels, b.channels, b.channels, cbase, SameChannel);
    RowsAreIsomorphic(src.templates, b.templates, Uncategorized(b.templates), tbase, SameButCategory);
    TasksAreIsomorphic(FilledTasks(src), b.tasks, r, kbase);
  }

  lemma TasksAreIsomorphic(tasks: map<int, Task>, l: seq<Entry<Task>>, r: Progress, kbase: int)
    requires Lists(l, tasks) && AllCanRename(l, r.chMap, r.tplMap)
    requires r.store.tasks == Rows(RenamedEntries(l, r.chMap, r.tplMap), kbase)
    ensures Isomorphic(tasks, r.store.tasks, Numbering(l, kbase), RenamedBy(r.chMap, r.tplMap))
  {
    RowsAreIsomorphic(tasks, l, RenamedEntries(l, r.chMap, r.tplMap), kbase, RenamedBy(r.chMap, r.tplMap));
  }
}
