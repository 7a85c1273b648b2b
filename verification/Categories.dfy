/** The shared category pool and the three tables that name its categories. */
module Categories {
  import opened Base
  import opened Text

  datatype Table = Channels | Templates | Tasks

  datatype Key = Key(table: Table, id: int)

  datatype Row = Row(category: string, body: string, deleted: bool)

  datatype Store = Store(pool: map<int, string>, nextCategory: int, rows: map<Key, Row>, nextRow: int)

  /** The columns that hold a category name are this wide. */
  const WIDTH := 50

  const DEFAULT := "default"

  predicate Exists(st: Store, name: string) { exists c :: c in st.pool && st.pool[c] == name }

  predicate Referenced(st: Store, name: string) {
    exists k :: k in st.rows && !st.rows[k].deleted && st.rows[k].category == name
  }

  /** Referential integrity: every live row names a category of the pool, and "default" is there. */
  ghost predicate Intact(st: Store) {
    && Exists(st, DEFAULT)
    && (forall k :: k in st.rows && !st.rows[k].deleted ==> Exists(st, st.rows[k].category))
  }

  /** What the schema itself keeps: unique names no wider than their column, and automatic ids. */
  ghost predicate WellKept(st: Store) {
    && (forall c, d :: c in st.pool && d in st.pool && st.pool[c] == st.pool[d] ==> c == d)
    && (forall c :: c in st.pool ==> c < st.nextCategory && |st.pool[c]| <= WIDTH)
    && (forall k :: k in st.rows ==> k.id < st.nextRow)
  }

  function Normalized(category: string): string {
    if TrimSpace(category) == "" then DEFAULT else TrimSpace(category)
  }

  /** INSERT IGNORE cuts a name that is too wide. */
  function Kept(name: string): (r: string)
    ensures |name| <= 50 ==> r == name
    ensures |name| > 50 ==> |r| == 50 && forall i :: 0 <= i < 50 ==> r[i] == name[i]
  {
    if |name| > WIDTH then name[..WIDTH] else name
  }

  // ---- operations on the store ----

  datatype Reply = Done | Empty | TooLong | Reserved | Missing | Taken | InUse

  function CreateReply(st: Store, name: string): Reply {
    var n := TrimSpace(name);
    if n == "" then Empty else if |n| > WIDTH then TooLong else if Exists(st, n) then Taken else Done
  }

  function DeleteReply(st: Store, name: string): Reply {
    var n := TrimSpace(name);
    if n == "" then Empty
    else if n == DEFAULT then Reserved
    else if !Exists(st, n) then Missing
    else if Referenced(st, n) then InUse
    else Done
  }

  function RenameReply(st: Store, from: string, to: string): Reply {
    var o, n := TrimSpace(from), TrimSpace(to);
    if o == "" || n == "" then Empty
    else if |n| > WIDTH then TooLong
    else if o == DEFAULT || n == DEFAULT then Reserved
    else if !Exists(st, o) then Missing
    else if o != n && Exists(st, n) then Taken
    else Done
  }

  function WithName(st: Store, name: string): Store {
    st.(pool := st.pool[st.nextCategory := name], nextCategory := st.nextCategory + 1)
  }

  function WithoutName(st: Store, name: string): Store {
    st.(pool := map c | c in st.pool && st.pool[c] != name :: st.pool[c])
  }

  /** Soft-deleted rows are renamed too. */
  function RowsRenamed(rows: map<Key, Row>, tables: seq<Table>, from: string, to: string): map<Key, Row> {
    map k | k in rows ::
      if k.table in tables && rows[k].category == from then rows[k].(category := to) else rows[k]
  }

  const TABLES := [Channels, Templates, Tasks]

  function Renamed(st: Store, from: string, to: string): Store {
    st.(pool := map c | c in st.pool :: if st.pool[c] == from then to else st.pool[c],
        rows := RowsRenamed(st.rows, TABLES, from, to))
  }

  function Ensured(st: Store, names: seq<string>): Store {
    if names == [] then st
    else
      var s, n := Ensured(st, names[..|names| - 1]), names[|names| - 1];
      if TrimSpace(n) == "" || Exists(s, n) || Exists(s, Kept(n)) then s else WithName(s, Kept(n))
  }

  datatype Op =
    | CreateCategory(name: string)
    | DeleteCategory(name: string)
    | RenameCategory(from: string, to: string)
    | EnsureCategories(names: seq<string>) // the first step of an import
    | CreateRow(table: Table, category: string, body: string) // also the other steps of an import
    | UpdateRow(key: Key, category: string, body: string)
    | SetCategory(table: Table, ids: set<int>, category: string)
    | DeleteRows(table: Table, ids: set<int>)

  function Apply(st: Store, op: Op): Store {
    match op
    case CreateCategory(name) => if CreateReply(st, name) == Done then WithName(st, TrimSpace(name)) else st
    case DeleteCategory(name) => if DeleteReply(st, name) == Done then WithoutName(st, TrimSpace(name)) else st
    case RenameCategory(from, to) =>
      if RenameReply(st, from, to) == Done && TrimSpace(from) != TrimSpace(to)
      then Renamed(st, TrimSpace(from), TrimSpace(to)) else st
    case EnsureCategories(names) => Ensured(st, names)
    case CreateRow(table, category, body) =>
      if !Exists(st, Normalized(category)) then st
      else st.(rows := st.rows[Key(table, st.nextRow) := Row(Normalized(category), body, false)],
          nextRow := st.nextRow + 1)
    case UpdateRow(key, category, body) =>
      if key !in st.rows || st.rows[key].deleted || !Exists(st, Normalized(category)) then st
      else st.(rows := st.rows[key := Row(Normalized(category), body, false)])
    case SetCategory(table, ids, category) =>
      if !Exists(st, Normalized(category)) then st
      else st.(rows := map k | k in st.rows ::
                 if k.table == table && k.id in ids && !st.rows[k].deleted
                 then st.rows[k].(category := Normalized(category)) else st.rows[k])
    case DeleteRows(table, ids) =>
      st.(rows := map k | k in st.rows ::
                 if k.table == table && k.id in ids then st.rows[k].(deleted := true) else st.rows[k])
  }

  // ---- the repository and the services ----

  class CategoryRepo {
    var pool: map<int, string>
    var nextCategory: int
    var rows: map<Key, Row>
    var nextRow: int

    /** A migrated database: the pool holds "default" only. */
    constructor ()
      ensures State() == Store(map[1 := DEFAULT], 2, map[], 1)
    {
      pool, nextCategory, rows, nextRow := map[1 := DEFAULT], 2, map[], 1;
    }

    function State(): Store reads this { Store(pool, nextCategory, rows, nextRow) }

    method Create(name: string)
      requires !Exists(State(), name)
      modifies this
      ensures State() == WithName(old(State()), name)
    {
      pool, nextCategory := pool[nextCategory := name], nextCategory + 1;
    }

    /** One transaction: the three tables, then the pool; the unique key on the name rolls everything back. */
    method Rename(from: string, to: string) returns (ok: bool)
      requires WellKept(State())
      modifies this
      ensures var st := old(State());
              var refused := from == DEFAULT || (from != to && Exists(st, from) && Exists(st, to));
              && State() == (if refused then st else Renamed(st, from, to))
              && ok == (!refused && Exists(State(), to))
    {
      if from == DEFAULT {
        return false;
      }
      var updated := rows;
      for i := 0 to |TABLES|
        invariant State() == old(State()) && updated == RowsRenamed(rows, TABLES[..i], from, to)
      {
        updated := RowsRenamed(updated, [TABLES[i]], from, to);
        RenamedInTurn(rows, i, from, to);
      }
      assert TABLES[..|TABLES|] == TABLES;
      if from != to && Exists(State(), from) && Exists(State(), to) {
        return false;
      }
      rows, pool := updated, map c | c in pool :: if pool[c] == from then to else pool[c];
      ok := Exists(State(), to);
    }

    /** Counts the live references first; nothing is deleted while there are any. */
    method Delete(id: int) returns (r: Reply)
      requires id in pool && WellKept(State())
      modifies this
      ensures r == if old(pool[id]) == DEFAULT then Reserved
                   else if Referenced(old(State()), old(pool[id])) then InUse else Done
      ensures State() == if r == Done then WithoutName(old(State()), old(pool[id])) else old(State())
    {
      if pool[id] == DEFAULT {
        return Reserved;
      }
      if Referenced(State(), pool[id]) {
        return InUse;
      }
      RemovedById(State(), id);
      pool := pool - {id};
      r := Done;
    }

    method EnsureExists(names: seq<string>)
      modifies this
      ensures State() == Ensured(old(State()), names)
    {
      for i := 0 to |names|
        invariant State() == Ensured(old(State()), names[..i])
      {
        assert names[..i + 1][..i] == names[..i];
        var n := names[i];
        if TrimSpace(n) != "" {
          if !Exists(State(), n) && !Exists(State(), Kept(n)) {
            pool, nextCategory := pool[nextCategory := Kept(n)], nextCategory + 1;
          }
        }
      }
      assert names[..|names|] == names;
    }
  }

  lemma RemovedById(st: Store, id: int)
    requires WellKept(st) && id in st.pool
    ensures st.pool - {id} == WithoutName(st, st.pool[id]).pool
  {
    var p, q := st.pool - {id}, WithoutName(st, st.pool[id]).pool;
    forall c ensures c in p <==> c in q {
      assert c in st.pool && c != id ==> st.pool[c] != st.pool[id];
    }
    SameKeys(p, q);
    SameMap(p, q);
  }

  lemma RenamedInTurn(rows: map<Key, Row>, i: nat, from: string, to: string)
    requires i < |TABLES|
    ensures RowsRenamed(RowsRenamed(rows, TABLES[..i], from, to), [TABLES[i]], from, to)
            == RowsRenamed(rows, TABLES[..i + 1], from, to)
  {
    assert TABLES[..i + 1] == TABLES[..i] + [TABLES[i]];
    assert forall t :: t in TABLES[..i + 1] <==> t in TABLES[..i] || t == TABLES[i];
  }

  class CategoryService {
    const repo: CategoryRepo

    constructor (repo: CategoryRepo)
      ensures this.repo == repo
    {
      this.repo := repo;
    }

    method Create(name: string) returns (r: Reply)
      modifies repo
      ensures r == CreateReply(old(repo.State()), name)
      ensures repo.State() == Apply(old(repo.State()), CreateCategory(name))
    {
      var n := TrimSpace(name);
      if n == "" { return Empty; }
      if |n| > WIDTH { return TooLong; }
      if Exists(repo.State(), n) { return Taken; }
      repo.Create(n);
      r := Done;
    }

    /** Looks the name up in the listing of the pool, by ascending id. */
    method Delete(name: string) returns (r: Reply)
      requires WellKept(repo.State())
      modifies repo
      ensures r == DeleteReply(old(repo.State()), name)
      ensures repo.State() == Apply(old(repo.State()), DeleteCategory(name))
    {
      var n := TrimSpace(name);
      if n == "" { return Empty; }
      if n == DEFAULT { return Reserved; }
      var cats := Ascending(repo.pool.Keys);
      var i := 0;
      while i < |cats| && (assert cats[i] in cats; repo.pool[cats[i]] != n)
        invariant 0 <= i <= |cats| && forall j :: 0 <= j < i ==> cats[j] in repo.pool && repo.pool[cats[j]] != n
      {
        i := i + 1;
      }
      if i == |cats| {
        forall c | c in repo.pool ensures repo.pool[c] != n {
          assert c in repo.pool.Keys && c in cats;
        }
        return Missing;
      }
      assert cats[i] in cats && repo.pool[cats[i]] == n;
      r := repo.Delete(cats[i]);
    }

    method Update(from: string, to: string) returns (r: Reply)
      requires WellKept(repo.State())
      modifies repo
      ensures r == RenameReply(old(repo.State()), from, to)
      ensures repo.State() == Apply(old(repo.State()), RenameCategory(from, to))
    {
      var o, n := TrimSpace(from), TrimSpace(to);
      if o == "" { return Empty; }
      if n == "" { return Empty; }
      if |n| > WIDTH { return TooLong; }
      if o == DEFAULT { return Reserved; }
      if n == DEFAULT { return Reserved; }
      if !Exists(repo.State(), o) { return Missing; }
      if o == n { return Done; }
      if Exists(repo.State(), n) { return Taken; }
      var ok := repo.Rename(o, n);
      r := Done;
    }
  }

  /** What the channel, template and task services do with categories, on their own table. */
  class EntityService {
    const repo: CategoryRepo
    const table: Table

    constructor (repo: CategoryRepo, table: Table)
      ensures this.repo == repo && this.table == table
    {
      this.repo, this.table := repo, table;
    }

    /** validateSharedCategory: the normalized name, if the pool has it. */
    method Validated(category: string) returns (r: Option<string>)
      ensures r == if Exists(repo.State(), Normalized(category)) then Some(Normalized(category)) else None
    {
      var c := TrimSpace(category);
      if c == "" { c := DEFAULT; }
      r := if Exists(repo.State(), c) then Some(c) else None;
    }

    method Create(category: string, body: string) returns (ok: bool)
      modifies repo
      ensures ok <==> Exists(old(repo.State()), Normalized(category))
      ensures repo.State() == Apply(old(repo.State()), CreateRow(table, category, body))
    {
      var c := Validated(category);
      if c == None { return false; }
      repo.rows := repo.rows[Key(table, repo.nextRow) := Row(c.value, body, false)];
      repo.nextRow := repo.nextRow + 1;
      ok := true;
    }

    method Update(id: int, category: string, body: string) returns (ok: bool)
      modifies repo
      ensures ok <==> Key(table, id) in old(repo.rows) && !old(repo.rows)[Key(table, id)].deleted
                      && Exists(old(repo.State()), Normalized(category))
      ensures repo.State() == Apply(old(repo.State()), UpdateRow(Key(table, id), category, body))
    {
      if Key(table, id) !in repo.rows || repo.rows[Key(table, id)].deleted { return false; }
      var c := Validated(category);
      if c == None { return false; }
      repo.rows := repo.rows[Key(table, id) := Row(c.value, body, false)];
      ok := true;
    }

    method BatchSetCategory(ids: set<int>, category: string) returns (ok: bool)
      modifies repo
      ensures ok <==> Exists(old(repo.State()), Normalized(category))
      ensures repo.State() == Apply(old(repo.State()), SetCategory(table, ids, category))
    {
      var c := Validated(category);
      if c == None { return false; }
      repo.rows := map k | k in repo.rows ::
        if k.table == table && k.id in ids && !repo.rows[k].deleted
        then repo.rows[k].(category := c.value) else repo.rows[k];
      ok := true;
    }

    method BatchDelete(ids: set<int>)
      modifies repo
      ensures repo.State() == Apply(old(repo.State()), DeleteRows(table, ids))
    {
      repo.rows := map k | k in repo.rows ::
        if k.table == table && k.id in ids then repo.rows[k].(deleted := true) else repo.rows[k];
    }
  }

  // ---- which names exist afterwards ----

  lemma NamesAfterAdding(st: Store, name: string)
    requires WellKept(st)
    ensures forall n :: Exists(WithName(st, name), n) <==> Exists(st, n) || n == name
  {
    var st' := WithName(st, name);
    forall n ensures Exists(st', n) <==> Exists(st, n) || n == name {
      assert st.nextCategory in st'.pool && st'.pool[st.nextCategory] == name;
      if Exists(st, n) {
        var c :| c in st.pool && st.pool[c] == n;
        assert c in st'.pool && st'.pool[c] == n;
      }
      if Exists(st', n) {
        var c :| c in st'.pool && st'.pool[c] == n;
        assert c == st.nextCategory || (c in st.pool && st.pool[c] == n);
      }
    }
  }

  lemma NamesAfterDeleting(st: Store, name: string)
    ensures forall n :: Exists(WithoutName(st, name), n) <==> Exists(st, n) && n != name
  {
    var st' := WithoutName(st, name);
    forall n | Exists(st, n) && n != name ensures Exists(st', n) {
      var c :| c in st.pool && st.pool[c] == n;
      assert c in st'.pool;
    }
  }

  lemma NamesAfterRenaming(st: Store, from: string, to: string)
    requires Exists(st, from) && from != to
    ensures forall n :: Exists(Renamed(st, from, to), n) <==> (Exists(st, n) && n != from) || n == to
  {
    var st' := Renamed(st, from, to);
    var d :| d in st.pool && st.pool[d] == from;
    assert d in st'.pool && st'.pool[d] == to;
    forall n | Exists(st, n) && n != from ensures Exists(st', n) {
      var c :| c in st.pool && st.pool[c] == n;
      assert c in st'.pool && st'.pool[c] == n;
    }
    forall n | Exists(st', n) ensures (Exists(st, n) && n != from) || n == to {
      var c :| c in st'.pool && st'.pool[c] == n;
      assert c in st.pool;
    }
  }

  ghost predicate Asked(names: seq<string>, n: string) {
    exists i :: 0 <= i < |names| && TrimSpace(names[i]) != "" && Kept(names[i]) == n
  }

  lemma AskedByLast(names: seq<string>, n: string)
    requires names != []
    ensures Asked(names, n)
            <==> Asked(names[..|names| - 1], n)
                 || (TrimSpace(names[|names| - 1]) != "" && Kept(names[|names| - 1]) == n)
  {
    var before := names[..|names| - 1];
    if Asked(before, n) {
      var i :| 0 <= i < |before| && TrimSpace(before[i]) != "" && Kept(before[i]) == n;
      assert names[i] == before[i];
    }
    if Asked(names, n) {
      var i :| 0 <= i < |names| && TrimSpace(names[i]) != "" && Kept(names[i]) == n;
      assert i < |before| ==> before[i] == names[i];
    }
  }

  /** An import leaves every name it asked for in the pool, cut to the column's width, and no other new one. */
  lemma {:induction false} NamesAfterEnsuring(st: Store, names: seq<string>)
    requires WellKept(st)
    ensures WellKept(Ensured(st, names)) && Ensured(st, names).rows == st.rows
    ensures forall n :: Exists(Ensured(st, names), n) <==> Exists(st, n) || Asked(names, n)
  {
    if names != [] {
      var before, last := names[..|names| - 1], names[|names| - 1];
      var s := Ensured(st, before);
      NamesAfterEnsuring(st, before);
      EnsuredOnce(s, last);
      forall n ensures Exists(Ensured(st, names), n) <==> Exists(st, n) || Asked(names, n) {
        AskedByLast(names, n);
      }
    }
  }

  lemma EnsuredOnce(s: Store, n: string)
    requires WellKept(s)
    ensures var t := if TrimSpace(n) == "" || Exists(s, n) || Exists(s, Kept(n)) then s else WithName(s, Kept(n));
            && WellKept(t) && t.rows == s.rows
            && forall m :: Exists(t, m) <==> Exists(s, m) || (TrimSpace(n) != "" && Kept(n) == m)
  {
    NamesAfterAdding(s, Kept(n));
    if !Exists(s, Kept(n)) {
      forall c | c in s.pool ensures s.pool[c] != Kept(n) {
        assert Exists(s, s.pool[c]);
      }
    }
  }

  /** An import makes the categories of its own rows acceptable exactly when they fit the column. */
  lemma EnsuredNamesAreAcceptedIff(st: Store, names: seq<string>, i: nat)
    requires WellKept(st) && i < |names| && TrimSpace(names[i]) != ""
    ensures Exists(Ensured(st, names), names[i]) <==> |names[i]| <= WIDTH
  {
    NamesAfterEnsuring(st, names);
  }

  // ---- integrity over whole runs ----

  lemma ApplyKeepsWellKept(st: Store, op: Op)
    requires WellKept(st)
    ensures WellKept(Apply(st, op))
  {
    match op
    case EnsureCategories(names) => NamesAfterEnsuring(st, names);
    case CreateCategory(name) =>
      if CreateReply(st, name) == Done {
        var n := TrimSpace(name);
        assert forall c :: c in st.pool ==> st.pool[c] != n;
      }
    case RenameCategory(from, to) =>
      if RenameReply(st, from, to) == Done && TrimSpace(from) != TrimSpace(to) {
        var n := TrimSpace(to);
        assert forall c :: c in st.pool ==> st.pool[c] != n;
      }
    case _ =>
  }

  lemma ApplyKeepsIntact(st: Store, op: Op)
    requires WellKept(st) && Intact(st)
    ensures Intact(Apply(st, op))
  {
    match op
    case CreateCategory(name) => NamesAfterAdding(st, TrimSpace(name));
    case EnsureCategories(names) => NamesAfterEnsuring(st, names);
    case DeleteCategory(name) => NamesAfterDeleting(st, TrimSpace(name));
    case RenameCategory(from, to) =>
      if RenameReply(st, from, to) == Done && TrimSpace(from) != TrimSpace(to) {
        RenamedIntact(st, TrimSpace(from), TrimSpace(to));
      }
    case CreateRow(table, category, body) => SamePool(st, Apply(st, op));
    case UpdateRow(key, category, body) => SamePool(st, Apply(st, op));
    case SetCategory(table, ids, category) => SamePool(st, Apply(st, op));
    case DeleteRows(table, ids) => SamePool(st, Apply(st, op));
  }

  lemma RenamedIntact(st: Store, from: string, to: string)
    requires Intact(st) && Exists(st, from) && from != to && from != DEFAULT
    ensures Intact(Renamed(st, from, to))
  {
    NamesAfterRenaming(st, from, to);
    var st' := Renamed(st, from, to);
    forall k | k in st'.rows && !st'.rows[k].deleted ensures Exists(st', st'.rows[k].category) {
      EveryTable(k.table);
      assert Exists(st, st.rows[k].category);
    }
  }

  lemma EveryTable(t: Table)
    ensures t in TABLES
  {
    assert t == TABLES[0] || t == TABLES[1] || t == TABLES[2];
  }

  lemma SamePool(st: Store, st': Store)
    requires st.pool == st'.pool
    ensures forall n :: Exists(st, n) <==> Exists(st', n)
  {
  }

  function Exec(st: Store, run: seq<Op>): Store {
    if run == [] then st else Apply(Exec(st, run[..|run| - 1]), run[|run| - 1])
  }

  /** After any sequence of operations every live row still names a category of the pool, and "default" exists. */
  lemma {:induction false} IntegrityHolds(st: Store, run: seq<Op>)
    requires WellKept(st) && Intact(st)
    ensures WellKept(Exec(st, run)) && Intact(Exec(st, run))
  {
    if run != [] {
      IntegrityHolds(st, run[..|run| - 1]);
      ApplyKeepsWellKept(Exec(st, run[..|run| - 1]), run[|run| - 1]);
      ApplyKeepsIntact(Exec(st, run[..|run| - 1]), run[|run| - 1]);
    }
  }

  /** The guards of Delete are exactly what integrity needs: no weaker, no stronger. */
  lemma DeletionIsSafeIff(st: Store, name: string)
    requires Intact(st)
    ensures Intact(WithoutName(st, name)) <==> name != DEFAULT && !Referenced(st, name)
  {
    NamesAfterDeleting(st, name);
    var st' := WithoutName(st, name);
    if Referenced(st, name) {
      var k :| k in st.rows && !st.rows[k].deleted && st.rows[k].category == name;
      assert k in st'.rows && !Exists(st', st'.rows[k].category);
    }
  }

  /** A rename never merges or splits categories: live rows share one afterwards exactly when they did before. */
  lemma RenameKeepsGroups(st: Store, from: string, to: string, k: Key, j: Key)
    requires Intact(st) && RenameReply(st, from, to) == Done
    requires k in st.rows && j in st.rows && !st.rows[k].deleted && !st.rows[j].deleted
    ensures var st' := Apply(st, RenameCategory(from, to));
            k in st'.rows && j in st'.rows
                && (st'.rows[k].category == st'.rows[j].category <==> st.rows[k].category == st.rows[j].category)
  {
    EveryTable(k.table);
    EveryTable(j.table);
    assert Exists(st, st.rows[k].category) && Exists(st, st.rows[j].category);
  }

  /** Renaming back restores the store exactly when no row, which can only be a soft-deleted one, still carried the
      new name. */
  lemma RenamingBackRestoresIff(st: Store, from: string, to: string)
    requires WellKept(st) && RenameReply(st, from, to) == Done && TrimSpace(from) != TrimSpace(to)
    ensures Apply(Apply(st, RenameCategory(from, to)), RenameCategory(to, from)) == st
            <==> forall k :: k in st.rows ==> st.rows[k].category != TrimSpace(to)
  {
    var o, n := TrimSpace(from), TrimSpace(to);
    NamesAfterRenaming(st, o, n);
    assert |o| <= WIDTH;
    RenamedTwice(st, o, n);
  }

  lemma RenamedTwice(st: Store, from: string, to: string)
    requires !Exists(st, to) && from != to
    ensures Renamed(Renamed(st, from, to), to, from) == st <==> forall k :: k in st.rows ==> st.rows[k].category != to
  {
    var back := Renamed(Renamed(st, from, to), to, from);
    forall c | c in st.pool ensures back.pool[c] == st.pool[c] {
      assert st.pool[c] != to;
    }
    SameMap(back.pool, st.pool);
    if forall k :: k in st.rows ==> st.rows[k].category != to {
      SameMap(back.rows, st.rows);
    } else {
      var k :| k in st.rows && st.rows[k].category == to;
      EveryTable(k.table);
      assert k in back.rows && back.rows[k].category == from;
    }
  }
}
