/** What importing any section of a file means for its table, name by name. */
module ConfigImport {
  import opened Wrappers
  import opened ConfigStore
  import opened ConfigTransfer

  /** What a name stands for. */
  datatype Content = Content(typeName: TypeName, enabled: bool, config: Config)

  function ContentOf(v: View): Content {
    Content(v.typeName, v.enabled, v.config)
  }

  /** What a name stands for in a table. */
  function Named(rows: seq<Row>, name: Name): Option<Content> {
    if rows == [] then None
    else if rows[|rows| - 1].name == name then Some(ContentOf(ViewOf(rows[|rows| - 1])))
    else Named(rows[..|rows| - 1], name)
  }

  /**
   What an entry makes of its name, which stood for `snapshot` when the import began and stands for
   `now`.  An update is computed from the snapshot and written over the row as it is.
  */
  function Imposed(snapshot: Option<Content>, now: Option<Content>, e: Entry): Content {
    match snapshot
    case None => Content(e.typeName, EnabledOf(e), ConfigOf(e))
    case Some(c) => Content(c.typeName, EnabledOf(e), (if now.Some? then now.value.config else map[]) + (c.config + ConfigOf(e)))
  }

  /** What a name stands for after the first k entries. */
  function Folded(snapshot: Option<Content>, entries: seq<Entry>, k: nat, name: Name): (now: Option<Content>)
    requires k <= |entries|
    ensures snapshot.Some? ==> now.Some? && now.value.typeName == snapshot.value.typeName
  {
    if k == 0 then snapshot
    else
      var before := Folded(snapshot, entries, k - 1, name);
      if entries[k - 1].name == name then Some(Imposed(snapshot, before, entries[k - 1])) else before
  }

  lemma {:induction false} NewNameHasNoEntry(entries: seq<Entry>, k: nat, name: Name)
    requires k <= |entries| && Folded(None, entries, k, name) == None
    ensures forall i :: 0 <= i < k ==> entries[i].name != name
  {
    if k > 0 {
      NewNameHasNoEntry(entries, k - 1, name);
    }
  }

  lemma {:induction false} NamedAt(rows: seq<Row>, i: nat)
    requires i < |rows| && forall a, b :: 0 <= a < b < |rows| ==> rows[a].name != rows[b].name
    ensures Named(rows, rows[i].name) == Some(ContentOf(ViewOf(rows[i])))
  {
    if i < |rows| - 1 {
      NamedAt(rows[..|rows| - 1], i);
    }
  }

  lemma {:induction false} NamedNowhere(rows: seq<Row>, name: Name)
    ensures Named(rows, name).Some? <==> NameTaken(rows, name)
  {
    if rows != [] {
      var n := |rows| - 1;
      NamedNowhere(rows[..n], name);
      if NameTaken(rows[..n], name) {
        var i :| 0 <= i < n && rows[..n][i].name == name;
        assert rows[i].name == name;
      }
      if NameTaken(rows, name) && rows[n].name != name {
        var i :| 0 <= i < |rows| && rows[i].name == name;
        assert rows[..n][i].name == name;
      }
    }
  }

  lemma {:induction false} NamedAppend(rows: seq<Row>, row: Row, name: Name)
    ensures Named(rows + [row], name) == if row.name == name then Some(ContentOf(ViewOf(row))) else Named(rows, name)
  {
    assert (rows + [row])[..|rows|] == rows;
  }

  /** Rewriting a row under its own name changes what that name stands for and nothing else. */
  lemma {:induction false} NamedRewrite(rows: seq<Row>, i: nat, row: Row, name: Name)
    requires i < |rows| && row.name == rows[i].name
    requires forall a, b :: 0 <= a < b < |rows| ==> rows[a].name != rows[b].name
    ensures Named(rows[i := row], name) == if row.name == name then Some(ContentOf(ViewOf(row))) else Named(rows, name)
  {
    var n := |rows| - 1;
    if i < n {
      assert rows[i := row][..n] == rows[..n][i := row];
      NamedRewrite(rows[..n], i, row, name);
    } else {
      assert rows[i := row][..n] == rows[..n];
    }
  }

  // ----- The import, entry by entry -----

  /** The snapshot holds each row by its name, and nothing else. */
  ghost predicate SnapshotOf(existing: map<Name, View>, rows: seq<Row>) {
    Indexed(existing, rows) && forall name {:trigger NameTaken(rows, name)} :: name in existing ==> NameTaken(rows, name)
  }

  lemma {:induction false} ByNameHasOnlyNames(rows: seq<Row>, name: Name)
    requires name in ByName(Views(rows))
    ensures NameTaken(rows, name)
  {
    var n := |rows| - 1;
    assert Views(rows)[..n] == Views(rows[..n]);
    if rows[n].name != name {
      ByNameHasOnlyNames(rows[..n], name);
      var i :| 0 <= i < n && rows[..n][i].name == name;
      assert rows[i].name == name;
    }
  }

  lemma {:induction false} ByNameIsSnapshot(rows: seq<Row>)
    requires forall a, b :: 0 <= a < b < |rows| ==> rows[a].name != rows[b].name
    ensures SnapshotOf(ByName(Views(rows)), rows)
  {
    ByNameIndexes(rows);
    forall name | name in ByName(Views(rows))
      ensures NameTaken(rows, name)
    {
      ByNameHasOnlyNames(rows, name);
    }
  }

  /** The first rows of `rows` are those of `before`, under their ids and names. */
  ghost predicate KeepsPlaces(before: seq<Row>, rows: seq<Row>) {
    |before| <= |rows| && forall i :: 0 <= i < |before| ==> rows[i].id == before[i].id && rows[i].name == before[i].name
  }

  ghost predicate FoldedOn(before: seq<Row>, entries: seq<Entry>, k: nat, rows: seq<Row>)
    requires k <= |entries|
  {
    forall name :: Named(rows, name) == Folded(Named(before, name), entries, k, name)
  }

  /** The first k entries are imposed. */
  ghost predicate SoFar(before: seq<Row>, entries: seq<Entry>, k: nat, t: Table)
    requires k <= |entries|
  {
    KeepsPlaces(before, t.rows) && FoldedOn(before, entries, k, t.rows)
  }

  lemma {:induction false} OneMore(before: seq<Row>, entries: seq<Entry>, k: nat, rows: seq<Row>, rows': seq<Row>, content: Content)
    requires k < |entries| && FoldedOn(before, entries, k, rows)
    requires forall name :: Named(rows', name) == if name == entries[k].name then Some(content) else Named(rows, name)
    requires Imposed(Named(before, entries[k].name), Named(rows, entries[k].name), entries[k]) == content
    ensures FoldedOn(before, entries, k + 1, rows')
  {
  }

  lemma {:induction false} UpdateImposes(reg: Registry, before: seq<Row>, entries: seq<Entry>, k: nat, e: Entry, t: Table, i: nat)
    requires k < |entries| && e == entries[k] && WellFormed(t) && SoFar(before, entries, k, t)
    requires i < |before| && before[i].name == e.name
    requires forall a, b :: 0 <= a < b < |before| ==> before[a].name != before[b].name
    requires Update(reg, t, before[i].id, UpdatesFor(ViewOf(before[i]), e)).error.None?
    ensures SoFar(before, entries, k + 1, Update(reg, t, before[i].id, UpdatesFor(ViewOf(before[i]), e)).table)
  {
    var v := ViewOf(before[i]);
    var u := UpdatesFor(v, e);
    var row := t.rows[i];
    FindAt(t.rows, i);
    NamedAt(before, i);
    NamedAt(t.rows, i);
    var row' := Rewritten(row, reg[row.typeName].secretFields, u);
    RewrittenReads(row, reg[row.typeName].secretFields, u);
    forall name
      ensures Named(t.rows[i := row'], name) == if name == e.name then Some(ContentOf(ViewOf(row'))) else Named(t.rows, name)
    {
      NamedRewrite(t.rows, i, row', name);
    }
    OneMore(before, entries, k, t.rows, t.rows[i := row'], ContentOf(ViewOf(row')));
  }

  lemma {:induction false} CreateImposes(reg: Registry, before: seq<Row>, entries: seq<Entry>, k: nat, e: Entry, t: Table)
    requires k < |entries| && e == entries[k] && WellFormed(t) && SoFar(before, entries, k, t) && !NameTaken(before, e.name)
    requires Create(reg, t, e.typeName, e.name, ConfigOf(e), EnabledOf(e)).error.None?
    ensures SoFar(before, entries, k + 1, Create(reg, t, e.typeName, e.name, ConfigOf(e), EnabledOf(e)).table)
    ensures forall i :: 0 <= i < k ==> entries[i].name != e.name
  {
    NamedNowhere(before, e.name);
    NamedNowhere(t.rows, e.name);
    NewNameHasNoEntry(entries, k, e.name);
    var row := NewRow(t.nextId, e.typeName, e.name, EnabledOf(e), reg[e.typeName].secretFields, ConfigOf(e));
    MergeUndoesSplit(reg[e.typeName].secretFields, ConfigOf(e));
    forall name
      ensures Named(t.rows + [row], name) == if name == e.name then Some(ContentOf(ViewOf(row))) else Named(t.rows, name)
    {
      NamedAppend(t.rows, row, name);
    }
    OneMore(before, entries, k, t.rows, t.rows + [row], ContentOf(ViewOf(row)));
  }

  lemma {:induction false} UpsertImposes(reg: Registry, t: Table, existing: map<Name, View>, entries: seq<Entry>, k: nat, p: Progress, after: Progress)
    requires k < |entries| && WellFormed(p.table) && SoFar(t.rows, entries, k, p.table)
    requires WellFormed(t) && SnapshotOf(existing, t.rows)
    requires after == UpsertRow(reg, p, existing, entries[k]) && after.error.None?
    ensures SoFar(t.rows, entries, k + 1, after.table)
    ensures NameTaken(t.rows, entries[k].name) || forall i :: 0 <= i < k ==> entries[i].name != entries[k].name
  {
    var e := entries[k];
    if e.name in existing {
      assert NameTaken(t.rows, e.name);
      var i :| 0 <= i < |t.rows| && t.rows[i].name == e.name;
      UpdateImposes(reg, t.rows, entries, k, e, p.table, i);
    } else {
      assert !NameTaken(t.rows, e.name);
      CreateImposes(reg, t.rows, entries, k, e, p.table);
    }
  }

  lemma {:induction false} LastUpsert(reg: Registry, t: Table, existing: map<Name, View>, entries: seq<Entry>, k: nat, after: Progress) returns (p: Progress)
    requires k < |entries| && after == Upserts(reg, t, existing, entries, k + 1) && after.error.None?
    ensures p == Upserts(reg, t, existing, entries, k) && p.error.None? && after == UpsertRow(reg, p, existing, entries[k])
  {
    p := Upserts(reg, t, existing, entries, k);
  }

  lemma {:induction false} UpsertKeepsForm(reg: Registry, existing: map<Name, View>, e: Entry, p: Progress, after: Progress)
    requires WellFormed(p.table) && after == UpsertRow(reg, p, existing, e)
    ensures WellFormed(after.table)
  {
    if e.name in existing {
      UpdateKeepsForm(reg, p.table, existing[e.name].id, UpdatesFor(existing[e.name], e));
    } else {
      CreateKeepsForm(reg, p.table, e.typeName, e.name, ConfigOf(e), EnabledOf(e));
    }
  }

  lemma {:induction false} NothingImposed(t: Table, entries: seq<Entry>)
    ensures SoFar(t.rows, entries, 0, t)
  {
  }

  /** The k entries are imposed, and names and ids still unique. */
  ghost predicate ImposedWell(before: seq<Row>, entries: seq<Entry>, k: nat, p: Progress)
    requires k <= |entries|
  {
    WellFormed(p.table) && SoFar(before, entries, k, p.table)
  }

  lemma {:induction false} OneMoreImposed(reg: Registry, t: Table, existing: map<Name, View>, entries: seq<Entry>, k: nat, p: Progress, after: Progress)
    requires WellFormed(t) && SnapshotOf(existing, t.rows) && k < |entries| && ImposedWell(t.rows, entries, k, p)
    requires after == UpsertRow(reg, p, existing, entries[k]) && after.error.None?
    ensures ImposedWell(t.rows, entries, k + 1, after)
  {
    UpsertKeepsForm(reg, existing, entries[k], p, after);
    UpsertImposes(reg, t, existing, entries, k, p, after);
  }

  lemma {:induction false} UpsertsImpose(reg: Registry, t: Table, existing: map<Name, View>, entries: seq<Entry>, k: nat, after: Progress)
    requires WellFormed(t) && SnapshotOf(existing, t.rows) && k <= |entries|
    requires after == Upserts(reg, t, existing, entries, k) && after.error.None?
    ensures ImposedWell(t.rows, entries, k, after)
    decreases k
  {
    if k == 0 {
      NothingImposed(t, entries);
    } else {
      var p := LastUpsert(reg, t, existing, entries, k - 1, after);
      UpsertsImpose(reg, t, existing, entries, k - 1, p);
      OneMoreImposed(reg, t, existing, entries, k - 1, p, after);
    }
  }

  /** A name that two entries share was in the table before. */
  ghost predicate RepeatsAreKnown(before: seq<Row>, entries: seq<Entry>) {
    forall i, j :: 0 <= i < j < |entries| && entries[i].name == entries[j].name ==> NameTaken(before, entries[j].name)
  }

  lemma {:induction false} RepeatIsKnown(reg: Registry, t: Table, existing: map<Name, View>, entries: seq<Entry>, i: nat, j: nat)
    requires WellFormed(t) && SnapshotOf(existing, t.rows) && i < j < |entries| && entries[i].name == entries[j].name
    requires Upserts(reg, t, existing, entries, |entries|).error.None?
    ensures NameTaken(t.rows, entries[j].name)
  {
    if Upserts(reg, t, existing, entries, j + 1).error.Some? {
      ErrorEnds(reg, t, existing, entries, j + 1, |entries|);
    }
    var next := Upserts(reg, t, existing, entries, j + 1);
    var p := LastUpsert(reg, t, existing, entries, j, next);
    UpsertsImpose(reg, t, existing, entries, j, p);
    UpsertImposes(reg, t, existing, entries, j, p, next);
  }

  /**
   Any section whose import succeeds is imposed on the table name by name, in the order of its
   entries: each gives a known name its flag, and over the values it has now first those it had
   when the import began and then the entry's own; a new name gets exactly what its entry says and
   cannot be repeated; a name without an entry keeps everything.  Rows stay in place under their ids.
  */
  lemma {:induction false} ImportImposesFile(reg: Registry, t: Table, entries: seq<Entry>)
    requires WellFormed(t) && ImportSection(reg, t, entries).error.None?
    ensures
      var after := ImportSection(reg, t, entries).table;
      && KeepsPlaces(t.rows, after.rows)
      && (forall name :: Named(after.rows, name) == Folded(Named(t.rows, name), entries, |entries|, name))
      && RepeatsAreKnown(t.rows, entries)
  {
    var existing := ByName(Views(t.rows));
    ByNameIsSnapshot(t.rows);
    UpsertsImpose(reg, t, existing, entries, |entries|, ImportSection(reg, t, entries));
    forall i, j | 0 <= i < j < |entries| && entries[i].name == entries[j].name
      ensures NameTaken(t.rows, entries[j].name)
    {
      RepeatIsKnown(reg, t, existing, entries, i, j);
    }
  }

  // ----- A name with one entry, and with two -----

  /** The k-th entry is the only one of its name. */
  ghost predicate OnlyEntry(entries: seq<Entry>, k: nat)
    requires k < |entries|
  {
    forall i :: 0 <= i < |entries| && entries[i].name == entries[k].name ==> i == k
  }

  lemma {:induction false} NoEntryBetween(snapshot: Option<Content>, entries: seq<Entry>, i: nat, k: nat, name: Name)
    requires i <= k <= |entries| && forall j :: i <= j < k ==> entries[j].name != name
    ensures Folded(snapshot, entries, k, name) == Folded(snapshot, entries, i, name)
  {
    if i < k {
      NoEntryBetween(snapshot, entries, i, k - 1, name);
    }
  }

  /** The only entry of a known name keeps its type and every value that the entry leaves out or masks. */
  lemma {:induction false} OnlyEntryImposes(reg: Registry, t: Table, entries: seq<Entry>, k: nat, was: Content)
    requires WellFormed(t) && ImportSection(reg, t, entries).error.None?
    requires k < |entries| && OnlyEntry(entries, k) && Named(t.rows, entries[k].name) == Some(was)
    ensures Named(ImportSection(reg, t, entries).table.rows, entries[k].name)
         == Some(Content(was.typeName, EnabledOf(entries[k]), was.config + ConfigOf(entries[k])))
  {
    var name := entries[k].name;
    ImportImposesFile(reg, t, entries);
    NoEntryBetween(Some(was), entries, 0, k, name);
    NoEntryBetween(Some(was), entries, k + 1, |entries|, name);
    assert was.config + (was.config + ConfigOf(entries[k])) == was.config + ConfigOf(entries[k]);
  }

  /** The i-th and the j-th entry are the only ones of their name. */
  ghost predicate OnlyTwo(entries: seq<Entry>, i: nat, j: nat)
    requires i < j < |entries|
  {
    entries[i].name == entries[j].name && forall l :: 0 <= l < |entries| && entries[l].name == entries[j].name ==> l == i || l == j
  }

  /**
   Two entries for one known name come out as if the second were merged into what the first left if
   and only if every known field that the first changes is in the second too; others are put back.
  */
  lemma {:induction false} SecondEntryKeepsFirstIff(reg: Registry, t: Table, entries: seq<Entry>, i: nat, j: nat, was: Content, after: Option<Content>)
    requires WellFormed(t) && ImportSection(reg, t, entries).error.None?
    requires i < j < |entries| && OnlyTwo(entries, i, j) && Named(t.rows, entries[j].name) == Some(was)
    requires after == Named(ImportSection(reg, t, entries).table.rows, entries[j].name)
    ensures
      var first, second := ConfigOf(entries[i]), ConfigOf(entries[j]);
      after == Some(Content(was.typeName, EnabledOf(entries[j]), (was.config + first) + second))
      <==> forall f :: f in first && f in was.config && first[f] != was.config[f] ==> f in second
  {
    var name, first, second := entries[j].name, ConfigOf(entries[i]), ConfigOf(entries[j]);
    ImportImposesFile(reg, t, entries);
    NoEntryBetween(Some(was), entries, 0, i, name);
    NoEntryBetween(Some(was), entries, i + 1, j, name);
    NoEntryBetween(Some(was), entries, j + 1, |entries|, name);
    PutBackIff(was.config, first, second);
  }

  lemma {:induction false} PutBackIff(was: Config, first: Config, second: Config)
    ensures (was + (was + first)) + (was + second) == (was + first) + second
       <==> forall f :: f in first && f in was && first[f] != was[f] ==> f in second
  {
    var left, merged := (was + (was + first)) + (was + second), (was + first) + second;
    if left == merged {
      forall f | f in first && f in was && first[f] != was[f]
        ensures f in second
      {
        assert left[f] == merged[f];
      }
    }
  }

  /** The table has this one row, apart from its flag, and reads this configuration from it. */
  ghost predicate OneRow(p: Progress, row: Row, config: Config) {
    && p.error.None? && |p.table.rows| == 1 && ViewOf(p.table.rows[0]).config == config
    && p.table.rows[0].id == row.id && p.table.rows[0].name == row.name && p.table.rows[0].typeName == row.typeName
  }

  lemma {:induction false} UpsertOnlyRow(reg: Registry, row: Row, was: Config, p: Progress, existing: map<Name, View>, entry: Entry, config: Config)
    requires OneRow(p, row, was) && row.typeName in reg && entry.name == row.name
    requires entry.name in existing && existing[entry.name] == ViewOf(row)
    requires config == was + (ViewOf(row).config + ConfigOf(entry)) && reg[row.typeName].accepts(config)
    ensures OneRow(UpsertRow(reg, p, existing, entry), row, config)
  {
    FindAt(p.table.rows, 0);
    RewrittenReads(p.table.rows[0], reg[row.typeName].secretFields, UpdatesFor(ViewOf(row), entry));
  }

  lemma {:induction false} ImportTwo(reg: Registry, t: Table, existing: map<Name, View>, a: Entry, b: Entry, once: Progress)
    requires existing == ByName(Views(t.rows))
    requires once == UpsertRow(reg, Progress(t, 0, 0, None), existing, a) && once.error.None?
    ensures ImportSection(reg, t, [a, b]) == UpsertRow(reg, once, existing, b)
  {
    assert Upserts(reg, t, existing, [a, b], 0) == Progress(t, 0, 0, None);
    assert Upserts(reg, t, existing, [a, b], 1) == once;
  }

  ghost predicate TwoEntriesFor(row: Row, first: Entry, second: Entry, f: Field, g: Field, a: Json, b: Json, c: Json) {
    && f != g && ViewOf(row).config == map[f := a] && first.name == second.name == row.name
    && ConfigOf(first) == map[f := b] && ConfigOf(second) == map[g := c]
  }

  /** A row with f at `a` and two entries for it, f at `b` and then g at `c`, ends with f at `a`. */
  lemma {:induction false} SecondEntryPutsBack(reg: Registry, row: Row, first: Entry, second: Entry, f: Field, g: Field, a: Json, b: Json, c: Json)
    requires TwoEntriesFor(row, first, second, f, g, a, b, c) && row.typeName in reg
    requires reg[row.typeName].accepts(map[f := b]) && reg[row.typeName].accepts(map[f := a, g := c])
    ensures OneRow(ImportSection(reg, Table([row], row.id + 1), [first, second]), row, map[f := a, g := c])
  {
    var t, existing := Table([row], row.id + 1), map[row.name := ViewOf(row)];
    OneRowIndex(row);
    var start := Progress(t, 0, 0, None);
    var once := UpsertRow(reg, start, existing, first);
    PutBack(f, g, a, b, c);
    UpsertOnlyRow(reg, row, map[f := a], start, existing, first, map[f := b]);
    UpsertOnlyRow(reg, row, map[f := b], once, existing, second, map[f := a, g := c]);
    ImportTwo(reg, t, existing, first, second, once);
  }

  lemma {:induction false} PutBack(f: Field, g: Field, a: Json, b: Json, c: Json)
    requires f != g
    ensures map[f := b] == map[f := a] + (map[f := a] + map[f := b])
    ensures map[f := a, g := c] == map[f := b] + (map[f := a] + map[g := c])
  {
  }

  lemma {:induction false} OneRowIndex(row: Row)
    ensures ByName(Views([row])) == map[row.name := ViewOf(row)]
  {
    var views := Views([row]);
    assert views[..|views| - 1] == [];
    assert ByName([]) == map[];
  }
}
