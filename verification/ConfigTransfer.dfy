/** Exporting the configuration, with or without secrets, and importing it again. */
module ConfigTransfer {
  import opened Wrappers
  import opened ConfigStore

  const PLACEHOLDER := Text("<encrypted>")

  /** A row in an export file; `enabled` and `config` may be missing in a hand-written one. */
  datatype Entry = Entry(typeName: TypeName, name: Name, enabled: Option<bool>, config: Option<Config>)

  // ----- Export -----

  function Placeheld(config: Config): Config {
    map f | f in config :: if config[f] == MASK then PLACEHOLDER else config[f]
  }

  method ReplaceMask(config: Config) returns (out: Config)
    ensures out == Placeheld(config)
    ensures out.Keys == config.Keys && forall f :: f in config ==> out[f] == if config[f] == Text("********") then Text("<encrypted>") else config[f]
  {
    out := config;
    var rest := config.Keys;
    while rest != {}
      invariant out.Keys == config.Keys && rest <= config.Keys
      invariant forall f :: f in config ==> out[f] == if f !in rest && config[f] == MASK then PLACEHOLDER else config[f]
      decreases rest
    {
      var f :| f in rest;
      rest := rest - {f};
      if config[f] == MASK {
        out := out[f := PLACEHOLDER];
      }
    }
  }

  function RowToExport(reg: Registry, view: View, includeSecrets: bool): Entry {
    Entry(view.typeName, view.name, Some(view.enabled),
          Some(if includeSecrets then view.config else Placeheld(MaskedView(reg, view).config)))
  }

  function Export(reg: Registry, views: seq<View>, includeSecrets: bool): (entries: seq<Entry>)
    ensures |entries| == |views|
    ensures forall i :: 0 <= i < |views| ==> entries[i] == RowToExport(reg, views[i], includeSecrets)
  {
    if views == [] then []
    else Export(reg, views[..|views| - 1], includeSecrets) + [RowToExport(reg, views[|views| - 1], includeSecrets)]
  }

  method ExportTable(table: TypedTable, includeSecrets: bool) returns (entries: seq<Entry>)
    ensures entries == Export(table.registry, Views(table.rows), includeSecrets)
  {
    var views := table.ReadRows();
    entries := [];
    for i := 0 to |views|
      invariant entries == Export(table.registry, views[..i], includeSecrets)
    {
      assert views[..i + 1][..i] == views[..i];
      var config := views[i].config;
      if !includeSecrets {
        var masked := table.MaskRow(views[i]);
        config := ReplaceMask(masked.config);
      }
      entries := entries + [Entry(views[i].typeName, views[i].name, Some(views[i].enabled), Some(config))];
    }
    assert views[..|views|] == views;
  }

  // ----- Import -----

  function Strip(config: Config): Config {
    map f | f in config && config[f] != PLACEHOLDER :: config[f]
  }

  /** The snapshot of existing rows by name; a later row of the same name would win. */
  function ByName(views: seq<View>): map<Name, View> {
    if views == [] then map[] else ByName(views[..|views| - 1])[views[|views| - 1].name := views[|views| - 1]]
  }

  datatype Progress = Progress(table: Table, created: nat, updated: nat, error: Option<Error>)

  function ConfigOf(entry: Entry): Config {
    Strip(if entry.config.Some? then entry.config.value else map[])
  }

  function EnabledOf(entry: Entry): bool {
    entry.enabled.None? || entry.enabled.value
  }

  function UpdatesFor(view: View, entry: Entry): Updates {
    Updates(Some(entry.name), Some(EnabledOf(entry)), Some(view.config + ConfigOf(entry)))
  }

  function UpsertRow(reg: Registry, p: Progress, existing: map<Name, View>, entry: Entry): Progress {
    if entry.name in existing then
      var w := Update(reg, p.table, existing[entry.name].id, UpdatesFor(existing[entry.name], entry));
      Progress(w.table, p.created, if w.error.None? then p.updated + 1 else p.updated, w.error)
    else
      var w := Create(reg, p.table, entry.typeName, entry.name, ConfigOf(entry), EnabledOf(entry));
      Progress(w.table, if w.error.None? then p.created + 1 else p.created, p.updated, w.error)
  }

  /** The first k entries; the first error ends the import, and what was written before it stays. */
  function Upserts(reg: Registry, t: Table, existing: map<Name, View>, entries: seq<Entry>, k: nat): Progress
    requires k <= |entries|
  {
    if k == 0 then Progress(t, 0, 0, None)
    else
      var p := Upserts(reg, t, existing, entries, k - 1);
      if p.error.Some? then p else UpsertRow(reg, p, existing, entries[k - 1])
  }

  /** Importing one section of the file into its table. */
  function ImportSection(reg: Registry, t: Table, entries: seq<Entry>): Progress {
    Upserts(reg, t, ByName(Views(t.rows)), entries, |entries|)
  }

  method NameIndex(views: seq<View>) returns (existing: map<Name, View>)
    ensures existing == ByName(views)
  {
    existing := map[];
    for i := 0 to |views|
      invariant existing == ByName(views[..i])
    {
      assert views[..i + 1][..i] == views[..i];
      existing := existing[views[i].name := views[i]];
    }
    assert views[..|views|] == views;
  }

  /** An error keeps every later entry from being imported. */
  lemma {:induction false} ErrorEnds(reg: Registry, t: Table, existing: map<Name, View>, entries: seq<Entry>, i: nat, k: nat)
    requires i <= k <= |entries| && Upserts(reg, t, existing, entries, i).error.Some?
    ensures Upserts(reg, t, existing, entries, k) == Upserts(reg, t, existing, entries, i)
  {
    if i < k {
      ErrorEnds(reg, t, existing, entries, i, k - 1);
    }
  }

  lemma {:induction false} NextUpsert(reg: Registry, t: Table, existing: map<Name, View>, entries: seq<Entry>, i: nat, p: Progress, next: Progress)
    requires i < |entries| && p == Upserts(reg, t, existing, entries, i) && p.error.None?
    requires next == UpsertRow(reg, p, existing, entries[i])
    ensures Upserts(reg, t, existing, entries, i + 1) == next
    ensures next.error.Some? ==> Upserts(reg, t, existing, entries, |entries|) == next
  {
    if next.error.Some? {
      ErrorEnds(reg, t, existing, entries, i + 1, |entries|);
    }
  }

  method UpsertOne(table: TypedTable, existing: map<Name, View>, entry: Entry, ghost p: Progress)
      returns (created: bool, updated: bool, error: Option<Error>)
    requires table.Valid() && p.table == table.Contents() && p.error.None?
    modifies table
    ensures table.Valid()
    ensures Progress(table.Contents(), p.created + if created then 1 else 0, p.updated + if updated then 1 else 0, error)
         == UpsertRow(table.registry, p, existing, entry)
  {
    created, updated := false, false;
    var config := Strip(if entry.config.Some? then entry.config.value else map[]);
    var enabled := if entry.enabled.Some? then entry.enabled.value else true;
    if entry.name in existing {
      var row := existing[entry.name];
      error := table.UpdateRow(row.id, Updates(Some(entry.name), Some(enabled), Some(row.config + config)));
      updated := error.None?;
    } else {
      error := table.CreateRow(entry.typeName, entry.name, config, enabled);
      created := error.None?;
    }
  }

  method UpsertRows(table: TypedTable, entries: seq<Entry>) returns (created: nat, updated: nat, error: Option<Error>)
    requires table.Valid()
    modifies table
    ensures table.Valid()
    ensures Progress(table.Contents(), created, updated, error) == ImportSection(table.registry, old(table.Contents()), entries)
  {
    var views := table.ReadRows();
    var existing := NameIndex(views);
    ghost var t, p := table.Contents(), Progress(table.Contents(), 0, 0, None);
    created, updated, error := 0, 0, None;
    for i := 0 to |entries|
      invariant table.Valid() && error.None?
      invariant p == Progress(table.Contents(), created, updated, None)
      invariant p == Upserts(table.registry, t, existing, entries, i)
    {
      var c, u;
      c, u, error := UpsertOne(table, existing, entries[i], p);
      created, updated := created + (if c then 1 else 0), updated + (if u then 1 else 0);
      ghost var next := Progress(table.Contents(), created, updated, error);
      NextUpsert(table.registry, t, existing, entries, i, p, next);
      p := next;
      if error.Some? {
        return;
      }
    }
  }

  // ----- The whole file -----

  datatype Registries = Registries(agent: AgentModel, connectors: Registry, services: Registry, notifications: Registry)

  datatype Database = Database(version: nat, agent: Config, connectors: Table, services: Table, notifications: Table)

  /** `agent` may be missing from a file. */
  datatype File = File(version: Option<nat>, agent: Option<Config>, connectors: seq<Entry>, services: seq<Entry>, notifications: seq<Entry>)

  datatype Imported = Imported(db: Database, error: Option<Error>)

  predicate Known(reg: Registry, entries: seq<Entry>) {
    forall i :: 0 <= i < |entries| ==> entries[i].typeName in reg
  }

  function ExportAll(regs: Registries, db: Database, includeSecrets: bool): File {
    File(Some(db.version), Some(db.agent),
         Export(regs.connectors, Views(db.connectors.rows), includeSecrets),
         Export(regs.services, Views(db.services.rows), includeSecrets),
         Export(regs.notifications, Views(db.notifications.rows), includeSecrets))
  }

  /** The agent's settings, if the file has any. */
  function ImportAgent(model: AgentModel, settings: Config, file: File): AgentWritten {
    if file.agent.None? || file.agent.value == map[] then AgentWritten(settings, None)
    else UpdatedAgent(model, settings, file.agent.value)
  }

  function InTurn(db: Database, known: bool, fits: bool, a: AgentWritten, c: Progress, s: Progress, n: Progress): Imported {
    if !known then Imported(db, Some(UnknownType))
    else if !fits then Imported(db, Some(TooNew))
    else if a.error.Some? then Imported(db.(agent := a.settings), a.error)
    else if c.error.Some? then Imported(db.(agent := a.settings, connectors := c.table), c.error)
    else if s.error.Some? then Imported(db.(agent := a.settings, connectors := c.table, services := s.table), s.error)
    else Imported(Database(db.version, a.settings, c.table, s.table, n.table), n.error)
  }

  predicate AllKnown(regs: Registries, file: File) {
    Known(regs.connectors, file.connectors) && Known(regs.services, file.services) && Known(regs.notifications, file.notifications)
  }

  /** Unknown types and newer files are refused before anything is written; then the agent's settings, and section by section. */
  function Import(regs: Registries, db: Database, file: File): Imported {
    InTurn(db, AllKnown(regs, file), file.version.Some? ==> file.version.value <= db.version,
           ImportAgent(regs.agent, db.agent, file),
           ImportSection(regs.connectors, db.connectors, file.connectors),
           ImportSection(regs.services, db.services, file.services),
           ImportSection(regs.notifications, db.notifications, file.notifications))
  }

  method ImportFile(version: nat, agent: AgentSettings, connectors: TypedTable, services: TypedTable, notifications: TypedTable, file: File)
      returns (error: Option<Error>)
    requires connectors != services && connectors != notifications && services != notifications
    requires agent.Valid() && connectors.Valid() && services.Valid() && notifications.Valid()
    modifies agent, connectors, services, notifications
    ensures agent.Valid() && connectors.Valid() && services.Valid() && notifications.Valid()
    ensures Imported(Database(version, agent.settings, connectors.Contents(), services.Contents(), notifications.Contents()), error)
         == Import(Registries(agent.model, connectors.registry, services.registry, notifications.registry),
                   old(Database(version, agent.settings, connectors.Contents(), services.Contents(), notifications.Contents())), file)
  {
    if !AllKnown(Registries(agent.model, connectors.registry, services.registry, notifications.registry), file) {
      return Some(UnknownType);
    }
    if file.version.Some? && file.version.value > version {
      return Some(TooNew);
    }
    if file.agent.Some? && file.agent.value != map[] {
      error := agent.Update(file.agent.value);
      if error.Some? {
        return;
      }
    }
    error := ImportSections(connectors, services, notifications, file);
  }

  method ImportSections(connectors: TypedTable, services: TypedTable, notifications: TypedTable, file: File) returns (error: Option<Error>)
    requires connectors != services && connectors != notifications && services != notifications
    requires connectors.Valid() && services.Valid() && notifications.Valid()
    modifies connectors, services, notifications
    ensures connectors.Valid() && services.Valid() && notifications.Valid()
    ensures
      var c := ImportSection(connectors.registry, old(connectors.Contents()), file.connectors);
      var s := ImportSection(services.registry, old(services.Contents()), file.services);
      var n := ImportSection(notifications.registry, old(notifications.Contents()), file.notifications);
      && connectors.Contents() == c.table
      && services.Contents() == (if c.error.Some? then old(services.Contents()) else s.table)
      && notifications.Contents() == (if c.error.Some? || s.error.Some? then old(notifications.Contents()) else n.table)
      && error == if c.error.Some? then c.error else if s.error.Some? then s.error else n.error
  {
    var created, updated;
    created, updated, error := UpsertRows(connectors, file.connectors);
    if error.Some? {
      return;
    }
    created, updated, error := UpsertRows(services, file.services);
    if error.Some? {
      return;
    }
    created, updated, error := UpsertRows(notifications, file.notifications);
  }

  // ----- What a file asks for, and what stops it -----

  /** An entry is enabled unless it says it is not, and asks for its values but those that are placeholders. */
  lemma {:induction false} EntryMeans(e: Entry)
    ensures EnabledOf(e) <==> e.enabled != Some(false)
    ensures forall f :: f in ConfigOf(e) <==> e.config.Some? && f in e.config.value && e.config.value[f] != Text("<encrypted>")
    ensures forall f :: f in ConfigOf(e) ==> ConfigOf(e)[f] == e.config.value[f]
  {
  }

  ghost predicate Foreign(reg: Registry, entries: seq<Entry>) {
    exists e :: e in entries && e.typeName !in reg
  }

  /** A file with an entry of an unknown type in any section, or of a newer version, changes nothing at all. */
  lemma {:induction false} RefusedWritesNothing(regs: Registries, db: Database, file: File)
    ensures
      var foreign := Foreign(regs.connectors, file.connectors) || Foreign(regs.services, file.services) || Foreign(regs.notifications, file.notifications);
      var newer := file.version.Some? && file.version.value > db.version;
      && (foreign ==> Import(regs, db, file) == Imported(db, Some(UnknownType)))
      && (!foreign && newer ==> Import(regs, db, file) == Imported(db, Some(TooNew)))
      && (!foreign && !newer ==> AllKnown(regs, file) && Import(regs, db, file).db.version == db.version)
  {
    ForeignIff(regs.connectors, file.connectors);
    ForeignIff(regs.services, file.services);
    ForeignIff(regs.notifications, file.notifications);
  }

  lemma {:induction false} ForeignIff(reg: Registry, entries: seq<Entry>)
    ensures Foreign(reg, entries) <==> !Known(reg, entries)
  {
    if e :| e in entries && e.typeName !in reg {
      var i :| 0 <= i < |entries| && entries[i] == e;
    }
    if !Known(reg, entries) {
      var i :| 0 <= i < |entries| && entries[i].typeName !in reg;
      assert entries[i] in entries;
    }
  }

  /**
   Of a file that is not refused the agent's settings come first and then the sections in turn; an
   error leaves everything after it as it was, and is what the import reports.
  */
  lemma {:induction false} FirstErrorStops(regs: Registries, db: Database, file: File)
    requires AllKnown(regs, file) && (file.version.Some? ==> file.version.value <= db.version)
    ensures
      var after := Import(regs, db, file);
      var c := ImportSection(regs.connectors, db.connectors, file.connectors);
      var s := ImportSection(regs.services, db.services, file.services);
      var n := ImportSection(regs.notifications, db.notifications, file.notifications);
      var settings := if file.agent.Some? then file.agent.value else map[];
      var agentOk := settings == map[] || (settings.Keys <= regs.agent.fields && regs.agent.accepts(db.agent + settings));
      && after.db.agent == (if agentOk then db.agent + settings else db.agent)
      && after.db.connectors == (if agentOk then c.table else db.connectors)
      && after.db.services == (if agentOk && c.error == None then s.table else db.services)
      && after.db.notifications == (if agentOk && c.error == None && s.error == None then n.table else db.notifications)
      && (after.error == None <==> agentOk && c.error == None && s.error == None && n.error == None)
      && (agentOk ==> after.error == if c.error.Some? then c.error else if s.error.Some? then s.error else n.error)
  {
    assert db.agent + map[] == db.agent;
  }

  /** The counts tell how far a section got, and how many rows it added. */
  lemma {:induction false} CountsTell(reg: Registry, t: Table, existing: map<Name, View>, entries: seq<Entry>, k: nat)
    requires k <= |entries|
    ensures
      var p := Upserts(reg, t, existing, entries, k);
      && p.created + p.updated <= k && (p.error == None <==> p.created + p.updated == k)
      && |p.table.rows| == |t.rows| + p.created
      && p.created == |NewAmong(existing, entries, p.created + p.updated)|
  {
    if k > 0 {
      CountsTell(reg, t, existing, entries, k - 1);
      var p := Upserts(reg, t, existing, entries, k - 1);
      if p.error == None {
        NewOneMore(existing, entries, k - 1);
      }
    } else {
      assert NewAmong(existing, entries, 0) == {};
    }
  }

  /** Those of the first k entries whose names the snapshot does not have. */
  function NewAmong(existing: map<Name, View>, entries: seq<Entry>, k: nat): set<int> {
    set i | 0 <= i < k && i < |entries| && entries[i].name !in existing
  }

  lemma {:induction false} NewOneMore(existing: map<Name, View>, entries: seq<Entry>, k: nat)
    requires k < |entries|
    ensures |NewAmong(existing, entries, k + 1)| == |NewAmong(existing, entries, k)| + if entries[k].name in existing then 0 else 1
  {
    assert NewAmong(existing, entries, k + 1) == NewAmong(existing, entries, k) + if entries[k].name in existing then {} else {k as int};
  }

  // ----- What a masked export shows -----

  /**
   An entry names its row, type and flag and has all its fields; unmasked it has their values, and
   masked the placeholder for each declared secret that is set and for each value that looks like the mask.
  */
  lemma {:induction false} EntryShows(reg: Registry, v: View, includeSecrets: bool)
    ensures
      var e := RowToExport(reg, v, includeSecrets);
      && e.typeName == v.typeName && e.name == v.name && e.enabled == Some(v.enabled)
      && e.config.Some? && e.config.value.Keys == v.config.Keys
      && forall f :: f in v.config ==>
           var hidden := v.config[f] == Text("********") || (v.typeName in reg && f in reg[v.typeName].secretFields && v.config[f].Truthy());
           e.config.value[f] == if !includeSecrets && hidden then Text("<encrypted>") else v.config[f]
  {
  }

  /** Both hold the same fields, the same ordinary values, and secrets that are both set or both equal. */
  ghost predicate DifferOnlyInSecrets(secretFields: set<Field>, a: Config, b: Config) {
    && a.Keys == b.Keys
    && forall f :: f in a ==> a[f] == b[f] || (f in secretFields && a[f].Truthy() && b[f].Truthy())
  }

  lemma {:induction false} SecretFieldsAreHidden(reg: Registry, v: View, config: Config)
    requires v.typeName in reg && DifferOnlyInSecrets(reg[v.typeName].secretFields, v.config, config)
    ensures RowToExport(reg, v, false) == RowToExport(reg, v.(config := config), false)
  {
    var s := reg[v.typeName].secretFields;
    assert Masked(s, v.config) == Masked(s, config);
  }

  /** Other values for the stored secrets: those that are set are set to something else, the unset ones stay. */
  predicate OtherSecrets(secrets: Config, others: Config) {
    others.Keys == secrets.Keys && forall f :: f in secrets ==> if secrets[f].Truthy() then others[f].Truthy() else others[f] == secrets[f]
  }

  /** Every stored secret that is set is under a field that its registered type declares secret today. */
  predicate SecretsDeclared(reg: Registry, row: Row) {
    forall f :: f in row.secrets && row.secrets[f].Truthy() ==> row.typeName in reg && f in reg[row.typeName].secretFields
  }

  /** The row's masked export is the same whatever its secrets are set to. */
  ghost predicate HidesSecrets(reg: Registry, row: Row) {
    forall others {:trigger OtherSecrets(row.secrets, others)} :: OtherSecrets(row.secrets, others) ==>
      RowToExport(reg, ViewOf(row.(secrets := others)), false) == RowToExport(reg, ViewOf(row), false)
  }

  lemma {:induction false} DeclaredIsHidden(reg: Registry, row: Row, others: Config)
    requires SecretsDeclared(reg, row) && OtherSecrets(row.secrets, others)
    ensures RowToExport(reg, ViewOf(row.(secrets := others)), false) == RowToExport(reg, ViewOf(row), false)
  {
    if row.typeName in reg {
      SecretFieldsAreHidden(reg, ViewOf(row), MergeSecrets(row.plain, others));
    } else {
      assert others == row.secrets;
    }
  }

  /** A set secret that is not declared comes out as it is, unless it looks like the mask. */
  lemma {:induction false} UndeclaredIsShown(reg: Registry, row: Row, f: Field)
    requires f in row.secrets && !(row.typeName in reg && f in reg[row.typeName].secretFields)
    ensures
      var config := RowToExport(reg, ViewOf(row), false).config.value;
      f in config && config[f] == if row.secrets[f] == MASK then PLACEHOLDER else row.secrets[f]
  {
  }

  /**
   A masked export does not depend on what a row's secrets are set to if and only if each of them is
   declared by the row's registered type.
  */
  lemma {:induction false} MaskedExportHidesSecrets(reg: Registry, row: Row)
    ensures HidesSecrets(reg, row) <==> SecretsDeclared(reg, row)
  {
    if SecretsDeclared(reg, row) {
      forall others | OtherSecrets(row.secrets, others)
        ensures RowToExport(reg, ViewOf(row.(secrets := others)), false) == RowToExport(reg, ViewOf(row), false)
      {
        DeclaredIsHidden(reg, row, others);
      }
    } else {
      var f :| f in row.secrets && row.secrets[f].Truthy() && !(row.typeName in reg && f in reg[row.typeName].secretFields);
      var others := row.secrets[f := if row.secrets[f] == Number(1.0) then Number(2.0) else Number(1.0)];
      assert OtherSecrets(row.secrets, others);
      UndeclaredIsShown(reg, row, f);
      UndeclaredIsShown(reg, row.(secrets := others), f);
    }
  }

  /** A row of a type that is no longer registered is exported with its password in clear. */
  lemma {:induction false} UnregisteredSecretIsShown(reg: Registry, row: Row, password: Field)
    requires row.typeName !in reg && row.plain == map[] && row.secrets == map[password := Text("swordfish")]
    ensures RowToExport(reg, ViewOf(row), false).config == Some(row.secrets)
    ensures !HidesSecrets(reg, row)
  {
    assert row.secrets[password].Truthy();
    MaskedExportHidesSecrets(reg, row);
    assert MASK.text[0] != row.secrets[password].text[0];
    assert Placeheld(row.secrets) == row.secrets;
    assert ViewOf(row).config == row.secrets;
  }

  // ----- Importing a database's own masked export -----

  /** The row's type is registered and its model accepts the row's configuration. */
  predicate Acceptable(reg: Registry, v: View) {
    v.typeName in reg && reg[v.typeName].accepts(v.config)
  }

  ghost predicate AllAcceptable(reg: Registry, rows: seq<Row>, k: nat)
    requires k <= |rows|
  {
    forall i :: 0 <= i < k ==> Acceptable(reg, ViewOf(rows[i]))
  }

  /** What survives of a masked export is what the row already holds. */
  lemma {:induction false} OwnExportAddsNothing(reg: Registry, v: View)
    ensures v.config + ConfigOf(RowToExport(reg, v, false)) == v.config
  {
  }

  /** Each row is found by its name. */
  ghost predicate Indexed(existing: map<Name, View>, rows: seq<Row>) {
    forall i :: 0 <= i < |rows| ==> rows[i].name in existing && existing[rows[i].name] == ViewOf(rows[i])
  }

  lemma {:induction false} ByNameIndexes(rows: seq<Row>)
    requires forall a, b :: 0 <= a < b < |rows| ==> rows[a].name != rows[b].name
    ensures Indexed(ByName(Views(rows)), rows)
  {
    if rows != [] {
      var n := |rows| - 1;
      ByNameIndexes(rows[..n]);
      assert Views(rows)[..n] == Views(rows[..n]);
      forall i | 0 <= i < n
        ensures rows[i].name in ByName(Views(rows)) && ByName(Views(rows))[rows[i].name] == ViewOf(rows[i])
      {
        assert rows[..n][i] == rows[i];
      }
    }
  }

  /** The entries are the export of the rows. */
  ghost predicate ExportOf(reg: Registry, rows: seq<Row>, entries: seq<Entry>, includeSecrets: bool) {
    |entries| == |rows| && forall i :: 0 <= i < |rows| ==> entries[i] == RowToExport(reg, ViewOf(rows[i]), includeSecrets)
  }

  /** The same is read from both. */
  ghost predicate SameReads(a: seq<Row>, b: seq<Row>) {
    |a| == |b| && forall i :: 0 <= i < |a| ==> ViewOf(a[i]) == ViewOf(b[i])
  }

  lemma {:induction false} RewrittenReads(row: Row, secretFields: set<Field>, u: Updates)
    ensures ViewOf(Rewritten(row, secretFields, u)).config == MergedConfig(row, u)
  {
    MergeUndoesSplit(secretFields, MergedConfig(row, u));
  }

  /** Writing a row's own export over it leaves what is read unchanged. */
  lemma {:induction false} OwnUpdate(reg: Registry, t: Table, i: nat, v: View)
    requires WellFormed(t) && i < |t.rows| && ViewOf(t.rows[i]) == v
    ensures
      var w := Update(reg, t, v.id, UpdatesFor(v, RowToExport(reg, v, false)));
      && WellFormed(w.table) && SameReads(w.table.rows, t.rows)
      && (w.error.None? <==> Acceptable(reg, v))
  {
    var u := UpdatesFor(v, RowToExport(reg, v, false));
    UpdateKeepsForm(reg, t, v.id, u);
    FindAt(t.rows, i);
    OwnExportAddsNothing(reg, v);
    assert MergedConfig(t.rows[i], u) == v.config;
    if Acceptable(reg, v) {
      RewrittenReads(t.rows[i], reg[v.typeName].secretFields, u);
    }
  }

  /** After the first k rows were imported over themselves. */
  ghost predicate OwnDone(reg: Registry, t: Table, p: Progress, k: nat)
    requires k <= |t.rows|
  {
    && WellFormed(p.table) && SameReads(p.table.rows, t.rows)
    && (p.error.None? <==> AllAcceptable(reg, t.rows, k))
    && p.created == 0 && (p.error.None? ==> p.updated == k)
  }

  lemma {:induction false} OwnStep(reg: Registry, t: Table, p: Progress, existing: map<Name, View>, k: nat, v: View)
    requires k < |t.rows| && OwnDone(reg, t, p, k) && p.error.None? && v == ViewOf(t.rows[k]) && Indexed(existing, t.rows)
    ensures OwnDone(reg, t, UpsertRow(reg, p, existing, RowToExport(reg, v, false)), k + 1)
  {
    assert v.name in existing && existing[v.name] == v;
    assert ViewOf(p.table.rows[k]) == v;
    OwnUpdate(reg, p.table, k, v);
  }

  lemma {:induction false} OwnStuck(reg: Registry, t: Table, p: Progress, k: nat)
    requires k < |t.rows| && OwnDone(reg, t, p, k) && p.error.Some?
    ensures OwnDone(reg, t, p, k + 1)
  {
  }

  lemma {:induction false} OwnNext(reg: Registry, t: Table, p: Progress, existing: map<Name, View>, entry: Entry, k: nat, after: Progress)
    requires k < |t.rows| && OwnDone(reg, t, p, k) && Indexed(existing, t.rows)
    requires entry == RowToExport(reg, ViewOf(t.rows[k]), false)
    requires after == if p.error.Some? then p else UpsertRow(reg, p, existing, entry)
    ensures OwnDone(reg, t, after, k + 1)
  {
    if p.error.Some? {
      OwnStuck(reg, t, p, k);
    } else {
      OwnStep(reg, t, p, existing, k, ViewOf(t.rows[k]));
    }
  }

  lemma {:induction false} OwnNone(reg: Registry, t: Table)
    requires WellFormed(t)
    ensures OwnDone(reg, t, Progress(t, 0, 0, None), 0)
  {
  }

  lemma {:induction false} OwnSection(reg: Registry, t: Table, existing: map<Name, View>, entries: seq<Entry>, k: nat)
    requires WellFormed(t) && k <= |t.rows| && Indexed(existing, t.rows) && ExportOf(reg, t.rows, entries, false)
    ensures OwnDone(reg, t, Upserts(reg, t, existing, entries, k), k)
  {
    if k == 0 {
      OwnNone(reg, t);
    } else {
      OwnSection(reg, t, existing, entries, k - 1);
      OwnNext(reg, t, Upserts(reg, t, existing, entries, k - 1), existing, entries[k - 1], k - 1, Upserts(reg, t, existing, entries, k));
    }
  }

  ghost predicate SoundDatabase(regs: Registries, db: Database) {
    && db.agent.Keys == regs.agent.fields
    && WellFormed(db.connectors) && WellFormed(db.services) && WellFormed(db.notifications)
  }

  /** The agent's settings, if there are any, are accepted by their model. */
  predicate AgentAcceptable(model: AgentModel, settings: Config) {
    settings == map[] || model.accepts(settings)
  }

  ghost predicate EveryRowAcceptable(regs: Registries, db: Database) {
    && AllAcceptable(regs.connectors, db.connectors.rows, |db.connectors.rows|)
    && AllAcceptable(regs.services, db.services.rows, |db.services.rows|)
    && AllAcceptable(regs.notifications, db.notifications.rows, |db.notifications.rows|)
  }

  /** Exports of acceptable rows name only registered types. */
  lemma {:induction false} AcceptableKnown(reg: Registry, rows: seq<Row>, entries: seq<Entry>, includeSecrets: bool)
    requires AllAcceptable(reg, rows, |rows|) && ExportOf(reg, rows, entries, includeSecrets)
    ensures Known(reg, entries)
  {
    forall i | 0 <= i < |entries|
      ensures entries[i].typeName in reg
    {
      assert Acceptable(reg, ViewOf(rows[i]));
    }
  }

  /** What importing its own masked export does to a table. */
  ghost predicate Unchanged(reg: Registry, t: Table, p: Progress) {
    && SameReads(p.table.rows, t.rows)
    && (p.error.None? <==> AllAcceptable(reg, t.rows, |t.rows|))
  }

  lemma {:induction false} OwnWholeSection(reg: Registry, t: Table, entries: seq<Entry>)
    requires WellFormed(t) && ExportOf(reg, t.rows, entries, false)
    ensures Unchanged(reg, t, ImportSection(reg, t, entries))
    ensures AllAcceptable(reg, t.rows, |t.rows|) ==> Known(reg, entries)
  {
    ByNameIndexes(t.rows);
    OwnSection(reg, t, ByName(Views(t.rows)), entries, |t.rows|);
    if AllAcceptable(reg, t.rows, |t.rows|) {
      AcceptableKnown(reg, t.rows, entries, false);
    }
  }

  /** The file holds the export of the database. */
  ghost predicate FileOf(regs: Registries, db: Database, file: File, includeSecrets: bool) {
    && file.version == Some(db.version) && file.agent == Some(db.agent)
    && ExportOf(regs.connectors, db.connectors.rows, file.connectors, includeSecrets)
    && ExportOf(regs.services, db.services.rows, file.services, includeSecrets)
    && ExportOf(regs.notifications, db.notifications.rows, file.notifications, includeSecrets)
  }

  lemma {:induction false} ExportAllIsFile(regs: Registries, db: Database, includeSecrets: bool)
    ensures FileOf(regs, db, ExportAll(regs, db, includeSecrets), includeSecrets)
  {
  }

  /** Settings written over others of the same fields replace them all. */
  lemma {:induction false} OwnAgent(model: AgentModel, settings: Config, over: Config, file: File)
    requires settings.Keys == over.Keys == model.fields && file.agent == Some(settings)
    ensures
      var a := ImportAgent(model, over, file);
      && (a.error.None? <==> AgentAcceptable(model, settings))
      && (a.error.None? ==> a.settings == settings)
      && (a.error.Some? ==> a.settings == over)
  {
    assert over + settings == settings;
  }

  lemma {:induction false} InTurnUnchanged(regs: Registries, db: Database, known: bool, a: AgentWritten, c: Progress, s: Progress, n: Progress)
    requires Unchanged(regs.connectors, db.connectors, c) && Unchanged(regs.services, db.services, s)
    requires Unchanged(regs.notifications, db.notifications, n) && (EveryRowAcceptable(regs, db) ==> known)
    requires a.settings == db.agent && (a.error.None? <==> AgentAcceptable(regs.agent, db.agent))
    ensures
      var after := InTurn(db, known, true, a, c, s, n);
      && after.db.agent == db.agent
      && SameReads(after.db.connectors.rows, db.connectors.rows)
      && SameReads(after.db.services.rows, db.services.rows)
      && SameReads(after.db.notifications.rows, db.notifications.rows)
      && (after.error.None? <==> EveryRowAcceptable(regs, db) && AgentAcceptable(regs.agent, db.agent))
  {
  }

  lemma {:induction false} OwnFile(regs: Registries, db: Database, file: File)
    requires SoundDatabase(regs, db) && FileOf(regs, db, file, false)
    ensures Unchanged(regs.connectors, db.connectors, ImportSection(regs.connectors, db.connectors, file.connectors))
    ensures Unchanged(regs.services, db.services, ImportSection(regs.services, db.services, file.services))
    ensures Unchanged(regs.notifications, db.notifications, ImportSection(regs.notifications, db.notifications, file.notifications))
    ensures EveryRowAcceptable(regs, db) ==> AllKnown(regs, file)
    ensures
      var a := ImportAgent(regs.agent, db.agent, file);
      a.settings == db.agent && (a.error.None? <==> AgentAcceptable(regs.agent, db.agent))
  {
    OwnWholeSection(regs.connectors, db.connectors, file.connectors);
    OwnWholeSection(regs.services, db.services, file.services);
    OwnWholeSection(regs.notifications, db.notifications, file.notifications);
    OwnAgent(regs.agent, db.agent, db.agent, file);
  }

  /**
   Importing a database's own masked export leaves everything read from every row unchanged,
   secrets included, and the agent's settings too, even when the import fails part way.  It fails
   if and only if the settings or some row are no longer acceptable to their models.
  */
  lemma {:induction false} MaskedImportChangesNothing(regs: Registries, db: Database, file: File)
    requires SoundDatabase(regs, db) && file == ExportAll(regs, db, false)
    ensures
      var after := Import(regs, db, file);
      && after.db.agent == db.agent
      && SameReads(after.db.connectors.rows, db.connectors.rows)
      && SameReads(after.db.services.rows, db.services.rows)
      && SameReads(after.db.notifications.rows, db.notifications.rows)
      && (after.error.None? <==> EveryRowAcceptable(regs, db) && AgentAcceptable(regs.agent, db.agent))
  {
    ExportAllIsFile(regs, db, false);
    OwnFile(regs, db, file);
    InTurnUnchanged(regs, db, AllKnown(regs, file), ImportAgent(regs.agent, db.agent, file),
                    ImportSection(regs.connectors, db.connectors, file.connectors),
                    ImportSection(regs.services, db.services, file.services),
                    ImportSection(regs.notifications, db.notifications, file.notifications));
  }

  // ----- Importing an unmasked export into an empty database -----

  ghost predicate NoPlaceholder(rows: seq<Row>) {
    forall i, f :: 0 <= i < |rows| && f in ViewOf(rows[i]).config ==> ViewOf(rows[i]).config[f] != PLACEHOLDER
  }

  /** The row made from an entry of an unmasked export. */
  ghost predicate Copied(v: View, original: View) {
    v.typeName == original.typeName && v.name == original.name && v.enabled == original.enabled && v.config == Strip(original.config)
  }

  ghost predicate CopiedUpTo(rows: seq<Row>, originals: seq<Row>, k: nat) {
    |rows| == k <= |originals| && forall i :: 0 <= i < k ==> Copied(ViewOf(rows[i]), ViewOf(originals[i]))
  }

  predicate StrippedAcceptable(reg: Registry, v: View) {
    Acceptable(reg, v.(config := Strip(v.config)))
  }

  ghost predicate CopyDone(reg: Registry, originals: seq<Row>, p: Progress, k: nat)
    requires k <= |originals|
  {
    && (p.error.None? <==> forall i :: 0 <= i < k ==> StrippedAcceptable(reg, ViewOf(originals[i])))
    && (p.error.None? ==> CopiedUpTo(p.table.rows, originals, k))
  }

  lemma {:induction false} FreshName(rows: seq<Row>, originals: seq<Row>, k: nat)
    requires CopiedUpTo(rows, originals, k) && k < |originals|
    requires forall a, b :: 0 <= a < b < |originals| ==> originals[a].name != originals[b].name
    ensures !NameTaken(rows, originals[k].name)
  {
    forall i | 0 <= i < |rows|
      ensures rows[i].name != originals[k].name
    {
      assert Copied(ViewOf(rows[i]), ViewOf(originals[i]));
    }
  }

  lemma {:induction false} CreateCopies(reg: Registry, t: Table, original: View)
    requires !NameTaken(t.rows, original.name)
    ensures
      var w := Create(reg, t, original.typeName, original.name, Strip(original.config), original.enabled);
      && (w.error.None? <==> StrippedAcceptable(reg, original))
      && (w.error.None? ==> |w.table.rows| == |t.rows| + 1 && w.table.rows[..|t.rows|] == t.rows && Copied(ViewOf(w.table.rows[|t.rows|]), original))
  {
    var stripped := Strip(original.config);
    if original.typeName in reg {
      MergeUndoesSplit(reg[original.typeName].secretFields, stripped);
    }
  }

  lemma {:induction false} CopyStep(reg: Registry, source: Table, p: Progress, k: nat, original: View)
    requires WellFormed(source) && k < |source.rows| && original == ViewOf(source.rows[k])
    requires CopyDone(reg, source.rows, p, k) && p.error.None?
    ensures CopyDone(reg, source.rows, UpsertRow(reg, p, map[], RowToExport(reg, original, true)), k + 1)
  {
    FreshName(p.table.rows, source.rows, k);
    CreateCopies(reg, p.table, original);
  }

  lemma {:induction false} CopyStuck(reg: Registry, originals: seq<Row>, p: Progress, k: nat)
    requires k < |originals| && CopyDone(reg, originals, p, k) && p.error.Some?
    ensures CopyDone(reg, originals, p, k + 1)
  {
  }

  lemma {:induction false} CopiedNext(reg: Registry, source: Table, p: Progress, entry: Entry, k: nat, after: Progress)
    requires WellFormed(source) && k < |source.rows| && CopyDone(reg, source.rows, p, k)
    requires entry == RowToExport(reg, ViewOf(source.rows[k]), true)
    requires after == if p.error.Some? then p else UpsertRow(reg, p, map[], entry)
    ensures CopyDone(reg, source.rows, after, k + 1)
  {
    if p.error.Some? {
      CopyStuck(reg, source.rows, p, k);
    } else {
      CopyStep(reg, source, p, k, ViewOf(source.rows[k]));
    }
  }

  lemma {:induction false} CopiedSection(reg: Registry, source: Table, empty: Table, entries: seq<Entry>, k: nat)
    requires WellFormed(source) && empty.rows == [] && k <= |source.rows| && ExportOf(reg, source.rows, entries, true)
    ensures CopyDone(reg, source.rows, Upserts(reg, empty, map[], entries, k), k)
  {
    if k > 0 {
      CopiedSection(reg, source, empty, entries, k - 1);
      CopiedNext(reg, source, Upserts(reg, empty, map[], entries, k - 1), entries[k - 1], k - 1, Upserts(reg, empty, map[], entries, k));
    }
  }

  lemma {:induction false} StripKeepsAllIff(config: Config)
    ensures Strip(config) == config <==> forall f :: f in config ==> config[f] != PLACEHOLDER
  {
    if Strip(config) == config {
      forall f | f in config
        ensures config[f] != PLACEHOLDER
      {
        assert f in Strip(config);
      }
    }
  }

  /** The same rows in the same order, secrets included, under ids of their own. */
  ghost predicate Reproduces(rows: seq<Row>, source: seq<Row>) {
    |rows| == |source| && forall i :: 0 <= i < |rows| ==> ViewOf(rows[i]).(id := ViewOf(source[i]).id) == ViewOf(source[i])
  }

  /** The section is imported without an error and comes out the same. */
  ghost predicate SectionReproduced(source: seq<Row>, p: Progress) {
    p.error.None? && Reproduces(p.table.rows, source)
  }

  ghost predicate Clean(reg: Registry, rows: seq<Row>) {
    AllAcceptable(reg, rows, |rows|) && NoPlaceholder(rows)
  }

  lemma {:induction false} CleanReproduces(reg: Registry, source: seq<Row>, p: Progress)
    requires CopyDone(reg, source, p, |source|) && Clean(reg, source)
    ensures SectionReproduced(source, p)
  {
    forall i | 0 <= i < |source|
      ensures Strip(ViewOf(source[i]).config) == ViewOf(source[i]).config && StrippedAcceptable(reg, ViewOf(source[i]))
    {
      StripKeepsAllIff(ViewOf(source[i]).config);
      assert Acceptable(reg, ViewOf(source[i]));
    }
  }

  lemma {:induction false} ReproducedIsClean(reg: Registry, source: seq<Row>, p: Progress)
    requires CopyDone(reg, source, p, |source|) && SectionReproduced(source, p)
    ensures Clean(reg, source)
  {
    forall i | 0 <= i < |source|
      ensures Acceptable(reg, ViewOf(source[i]))
      ensures forall f :: f in ViewOf(source[i]).config ==> ViewOf(source[i]).config[f] != PLACEHOLDER
    {
      assert Copied(ViewOf(p.table.rows[i]), ViewOf(source[i])) && StrippedAcceptable(reg, ViewOf(source[i]));
      StripKeepsAllIff(ViewOf(source[i]).config);
    }
  }

  lemma {:induction false} SectionReproducedIff(reg: Registry, source: Table, empty: Table, entries: seq<Entry>)
    requires WellFormed(source) && empty.rows == [] && ExportOf(reg, source.rows, entries, true)
    ensures SectionReproduced(source.rows, ImportSection(reg, empty, entries)) <==> Clean(reg, source.rows)
    ensures Clean(reg, source.rows) ==> Known(reg, entries)
  {
    CopiedSection(reg, source, empty, entries, |source.rows|);
    var p := ImportSection(reg, empty, entries);
    if Clean(reg, source.rows) {
      AcceptableKnown(reg, source.rows, entries, true);
      CleanReproduces(reg, source.rows, p);
    }
    if SectionReproduced(source.rows, p) {
      ReproducedIsClean(reg, source.rows, p);
    }
  }

  /** The import succeeded, and every table holds the same as the original, secrets included. */
  ghost predicate AllReproduced(db: Database, after: Imported) {
    && after.error.None? && after.db.agent == db.agent
    && Reproduces(after.db.connectors.rows, db.connectors.rows)
    && Reproduces(after.db.services.rows, db.services.rows)
    && Reproduces(after.db.notifications.rows, db.notifications.rows)
  }

  lemma {:induction false} InTurnReproduces(db: Database, empty: Database, known: bool, fits: bool, a: AgentWritten, c: Progress, s: Progress, n: Progress)
    ensures AllReproduced(db, InTurn(empty, known, fits, a, c, s, n))
       <==> && known && fits && a == AgentWritten(db.agent, None) && SectionReproduced(db.connectors.rows, c)
            && SectionReproduced(db.services.rows, s) && SectionReproduced(db.notifications.rows, n)
  {
  }

  /**
   Importing an unmasked export into an empty database succeeds and reproduces every row if and
   only if the schema is not older than the exporting one, the agent's settings and every row are
   acceptable, and no configuration holds the placeholder as an ordinary value: such a value is
   dropped.
  */
  lemma {:induction false} UnmaskedImportReproducesIff(regs: Registries, db: Database, empty: Database, file: File)
    requires SoundDatabase(regs, db) && file == ExportAll(regs, db, true)
    requires empty.agent.Keys == regs.agent.fields
    requires empty.connectors.rows == [] && empty.services.rows == [] && empty.notifications.rows == []
    ensures AllReproduced(db, Import(regs, empty, file))
       <==> && db.version <= empty.version && AgentAcceptable(regs.agent, db.agent) && Clean(regs.connectors, db.connectors.rows)
            && Clean(regs.services, db.services.rows) && Clean(regs.notifications, db.notifications.rows)
  {
    ExportAllIsFile(regs, db, true);
    var c := ImportSection(regs.connectors, empty.connectors, file.connectors);
    var s := ImportSection(regs.services, empty.services, file.services);
    var n := ImportSection(regs.notifications, empty.notifications, file.notifications);
    SectionReproducedIff(regs.connectors, db.connectors, empty.connectors, file.connectors);
    SectionReproducedIff(regs.services, db.services, empty.services, file.services);
    SectionReproducedIff(regs.notifications, db.notifications, empty.notifications, file.notifications);
    var a := ImportAgent(regs.agent, empty.agent, file);
    OwnAgent(regs.agent, db.agent, empty.agent, file);
    InTurnReproduces(db, empty, AllKnown(regs, file), db.version <= empty.version, a, c, s, n);
  }

  /** One row whose only value is the placeholder comes back with nothing in it. */
  lemma {:induction false} PlaceholderIsLost(reg: Registry, row: Row, field: Field, empty: Table)
    requires row.typeName in reg && reg[row.typeName].accepts(map[])
    requires row.plain == map[field := PLACEHOLDER] && row.secrets == map[] && empty.rows == []
    ensures
      var p := ImportSection(reg, empty, Export(reg, Views([row]), true));
      && p.error.None? && |p.table.rows| == 1
      && p.table.rows[0].name == row.name && ViewOf(p.table.rows[0]).config == map[]
  {
    var entries := Export(reg, Views([row]), true);
    assert entries == [RowToExport(reg, ViewOf(row), true)];
    var source := Table([row], row.id + 1);
    CopiedSection(reg, source, empty, entries, 1);
    assert Strip(ViewOf(row).config) == map[];
    var p := ImportSection(reg, empty, entries);
    assert p.error.None? by {
      assert StrippedAcceptable(reg, ViewOf(row));
    }
    assert Copied(ViewOf(p.table.rows[0]), ViewOf(row));
  }
}
