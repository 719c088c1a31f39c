/** The typed configuration tables: secrets are split off for storage and merged back for reading. */
module ConfigStore {
  import opened Wrappers

  type Name(==, !new)
  type TypeName(==, !new)
  type Field(==, !new)

  datatype Json =
    | Null
    | Bool(on: bool)
    | Number(number: real)
    | Text(text: string)
    | List(items: seq<Json>)
    | Object(keys: seq<string>, values: seq<Json>)
  {
    predicate Truthy() {
      match this
      case Null => false
      case Bool(on) => on
      case Number(number) => number != 0.0
      case Text(text) => text != ""
      case List(items) => items != []
      case Object(keys, values) => keys != []
    }
  }

  type Config = map<Field, Json>

  const MASK := Text("********")

  /** A registered type: its secret fields, and whether its model accepts a configuration. */
  datatype TypeMeta = TypeMeta(secretFields: set<Field>, accepts: Config -> bool)

  type Registry = map<TypeName, TypeMeta>

  /** A stored row: `plain` is its config_json, `secrets` its decrypted secrets_json. */
  datatype Row = Row(id: nat, typeName: TypeName, name: Name, enabled: bool, plain: Config, secrets: Config)

  /** A row as the store hands it out, with the secrets merged in. */
  datatype View = View(id: nat, typeName: TypeName, name: Name, enabled: bool, config: Config)

  datatype Table = Table(rows: seq<Row>, nextId: nat)

  datatype Error = UnknownType | InvalidConfig | DuplicateName | TooNew | UnknownField

  // ----- Splitting and merging -----

  function Plain(secretFields: set<Field>, config: Config): Config {
    map f | f in config && f !in secretFields :: config[f]
  }

  function Secret(secretFields: set<Field>, config: Config): Config {
    map f | f in config && f in secretFields :: config[f]
  }

  method SplitSecrets(meta: TypeMeta, config: Config) returns (plain: Config, secrets: Config)
    ensures plain == Plain(meta.secretFields, config) && secrets == Secret(meta.secretFields, config)
  {
    if meta.secretFields == {} {
      return config, map[];
    }
    plain, secrets := map[], map[];
    var rest := config.Keys;
    while rest != {}
      invariant rest <= config.Keys
      invariant plain.Keys == config.Keys - rest - meta.secretFields
      invariant secrets.Keys == (config.Keys - rest) * meta.secretFields
      invariant forall f :: f in plain ==> plain[f] == config[f]
      invariant forall f :: f in secrets ==> secrets[f] == config[f]
      decreases rest
    {
      var f :| f in rest;
      rest := rest - {f};
      if f in meta.secretFields {
        secrets := secrets[f := config[f]];
      } else {
        plain := plain[f := config[f]];
      }
    }
  }

  /** Secret keys win on conflict. */
  function MergeSecrets(plain: Config, secrets: Config): Config {
    plain + secrets
  }

  /** Merging undoes splitting, and the plain part keeps no secret field. */
  lemma {:induction false} MergeUndoesSplit(secretFields: set<Field>, config: Config)
    ensures MergeSecrets(Plain(secretFields, config), Secret(secretFields, config)) == config
    ensures Plain(secretFields, config).Keys !! secretFields
    ensures Secret(secretFields, config).Keys <= secretFields
  {
  }

  // ----- Reading -----

  function ViewOf(row: Row): View {
    View(row.id, row.typeName, row.name, row.enabled, MergeSecrets(row.plain, row.secrets))
  }

  function Views(rows: seq<Row>): (views: seq<View>)
    ensures |views| == |rows| && forall i :: 0 <= i < |rows| ==> views[i] == ViewOf(rows[i])
  {
    if rows == [] then [] else Views(rows[..|rows| - 1]) + [ViewOf(rows[|rows| - 1])]
  }

  /** The place of the row with this id. */
  function Find(rows: seq<Row>, id: nat): (found: Option<nat>)
    ensures found.Some? ==> found.value < |rows| && rows[found.value].id == id
    ensures found.None? ==> forall i :: 0 <= i < |rows| ==> rows[i].id != id
  {
    if rows == [] then None
    else if rows[|rows| - 1].id == id then Some(|rows| - 1)
    else Find(rows[..|rows| - 1], id)
  }

  /** Names are unique, ids are unique and below the next one. */
  ghost predicate WellFormed(t: Table) {
    && (forall i, j :: 0 <= i < j < |t.rows| ==> t.rows[i].name != t.rows[j].name)
    && (forall i, j :: 0 <= i < j < |t.rows| ==> t.rows[i].id != t.rows[j].id)
    && (forall i :: 0 <= i < |t.rows| ==> t.rows[i].id < t.nextId)
  }

  // ----- Writing -----

  predicate NameTaken(rows: seq<Row>, name: Name) {
    exists i :: 0 <= i < |rows| && rows[i].name == name
  }

  predicate NameTakenByOther(rows: seq<Row>, name: Name, id: nat) {
    exists i :: 0 <= i < |rows| && rows[i].name == name && rows[i].id != id
  }

  function NewRow(id: nat, typeName: TypeName, name: Name, enabled: bool, secretFields: set<Field>, config: Config): Row {
    Row(id, typeName, name, enabled, Plain(secretFields, config), Secret(secretFields, config))
  }

  datatype Written = Written(table: Table, error: Option<Error>)

  function Create(reg: Registry, t: Table, typeName: TypeName, name: Name, config: Config, enabled: bool): Written {
    if typeName !in reg then Written(t, Some(UnknownType))
    else if !reg[typeName].accepts(config) then Written(t, Some(InvalidConfig))
    else if NameTaken(t.rows, name) then Written(t, Some(DuplicateName))
    else Written(Table(t.rows + [NewRow(t.nextId, typeName, name, enabled, reg[typeName].secretFields, config)], t.nextId + 1), None)
  }

  datatype Updates = Updates(name: Option<Name>, enabled: Option<bool>, config: Option<Config>)

  /** The row that an update writes over `row`. */
  function Rewritten(row: Row, secretFields: set<Field>, u: Updates): Row {
    NewRow(row.id, row.typeName, if u.name.Some? then u.name.value else row.name,
           if u.enabled.Some? then u.enabled.value else row.enabled, secretFields, MergedConfig(row, u))
  }

  function MergedConfig(row: Row, u: Updates): Config {
    if u.config.Some? then ViewOf(row).config + u.config.value else ViewOf(row).config
  }

  function Update(reg: Registry, t: Table, id: nat, u: Updates): Written {
    var at := Find(t.rows, id);
    if at.None? then Written(t, None)
    else
      var row := t.rows[at.value];
      if row.typeName !in reg then Written(t, Some(UnknownType))
      else if !reg[row.typeName].accepts(MergedConfig(row, u)) then Written(t, Some(InvalidConfig))
      else
        var row' := Rewritten(row, reg[row.typeName].secretFields, u);
        if NameTakenByOther(t.rows, row'.name, id) then Written(t, Some(DuplicateName))
        else Written(t.(rows := t.rows[at.value := row']), None)
  }

  lemma {:induction false} CreateKeepsForm(reg: Registry, t: Table, typeName: TypeName, name: Name, config: Config, enabled: bool)
    requires WellFormed(t)
    ensures WellFormed(Create(reg, t, typeName, name, config, enabled).table)
  {
  }

  lemma {:induction false} UpdateKeepsForm(reg: Registry, t: Table, id: nat, u: Updates)
    requires WellFormed(t)
    ensures WellFormed(Update(reg, t, id, u).table)
  {
  }

  /** The row reads as this, and its secret fields are stored apart. */
  ghost predicate Stores(row: Row, view: View, secretFields: set<Field>) {
    && row.id == view.id && row.typeName == view.typeName && row.name == view.name && row.enabled == view.enabled
    && ViewOf(row).config == view.config && row.plain.Keys !! secretFields && row.secrets.Keys <= secretFields
  }

  /** A creation is refused for its type, its configuration or its name, in this order, and else adds one row at the end under a new id. */
  lemma {:induction false} CreateIs(reg: Registry, t: Table, typeName: TypeName, name: Name, config: Config, enabled: bool)
    ensures
      var w := Create(reg, t, typeName, name, config, enabled);
      && w.error == (if typeName !in reg then Some(UnknownType)
                     else if !reg[typeName].accepts(config) then Some(InvalidConfig)
                     else if exists r :: r in t.rows && r.name == name then Some(DuplicateName)
                     else None)
      && (w.error.Some? ==> w.table == t)
      && (w.error.None? ==>
            && |w.table.rows| == |t.rows| + 1 && w.table.rows[..|t.rows|] == t.rows && w.table.nextId > t.nextId
            && Stores(w.table.rows[|t.rows|], View(t.nextId, typeName, name, enabled, config), reg[typeName].secretFields))
  {
    if r :| r in t.rows && r.name == name {
      var i :| 0 <= i < |t.rows| && t.rows[i] == r;
      assert NameTaken(t.rows, name);
    }
    if typeName in reg {
      MergeUndoesSplit(reg[typeName].secretFields, config);
    }
  }

  /** What an update asks for: what it leaves out stays, and its configuration is laid over the row's. */
  function Wanted(v: View, u: Updates): View {
    View(v.id, v.typeName, match u.name case None => v.name case Some(name) => name,
         match u.enabled case None => v.enabled case Some(enabled) => enabled,
         match u.config case None => v.config case Some(config) => v.config + config)
  }

  lemma {:induction false} UpdateIs(reg: Registry, t: Table, i: nat, u: Updates)
    requires WellFormed(t) && i < |t.rows|
    ensures
      var v := ViewOf(t.rows[i]);
      var w, wanted := Update(reg, t, v.id, u), Wanted(v, u);
      && w.error == (if v.typeName !in reg then Some(UnknownType)
                     else if !reg[v.typeName].accepts(wanted.config) then Some(InvalidConfig)
                     else if exists j :: 0 <= j < |t.rows| && j != i && t.rows[j].name == wanted.name then Some(DuplicateName)
                     else None)
      && (w.error.Some? ==> w.table == t)
      && (w.error.None? ==>
            && |w.table.rows| == |t.rows| && w.table.nextId == t.nextId
            && (forall j :: 0 <= j < |t.rows| && j != i ==> w.table.rows[j] == t.rows[j])
            && Stores(w.table.rows[i], wanted, reg[v.typeName].secretFields))
  {
    var row := t.rows[i];
    FindAt(t.rows, i);
    if row.typeName in reg {
      MergeUndoesSplit(reg[row.typeName].secretFields, MergedConfig(row, u));
    }
    OthersNamed(t.rows, i, Wanted(ViewOf(row), u).name);
  }

  lemma {:induction false} OthersNamed(rows: seq<Row>, i: nat, name: Name)
    requires i < |rows| && forall a, b :: 0 <= a < b < |rows| ==> rows[a].id != rows[b].id
    ensures NameTakenByOther(rows, name, rows[i].id) <==> exists j :: 0 <= j < |rows| && j != i && rows[j].name == name
  {
    if j :| 0 <= j < |rows| && j != i && rows[j].name == name {
      assert rows[j].id != rows[i].id;
    }
  }

  lemma {:induction false} FindAt(rows: seq<Row>, i: nat)
    requires i < |rows| && forall a, b :: 0 <= a < b < |rows| ==> rows[a].id != rows[b].id
    ensures Find(rows, rows[i].id) == Some(i)
  {
    if i < |rows| - 1 {
      FindAt(rows[..|rows| - 1], i);
    }
  }

  // ----- Masking -----

  function Masked(secretFields: set<Field>, config: Config): Config {
    map f | f in config :: if f in secretFields && config[f].Truthy() then MASK else config[f]
  }

  method MaskFields(secretFields: set<Field>, config: Config) returns (masked: Config)
    ensures masked == Masked(secretFields, config)
    ensures masked.Keys == config.Keys
    ensures forall f :: f in config ==> masked[f] == if f in secretFields && config[f].Truthy() then Text("********") else config[f]
  {
    masked := config;
    var rest := secretFields;
    while rest != {}
      invariant masked.Keys == config.Keys && rest <= secretFields
      invariant forall f :: f in config ==> masked[f] == if f in secretFields - rest && config[f].Truthy() then MASK else config[f]
      decreases rest
    {
      var f :| f in rest;
      rest := rest - {f};
      if f in masked && masked[f].Truthy() {
        masked := masked[f := MASK];
      }
    }
  }

  /** Rows of an unregistered type are returned as they are. */
  function MaskedView(reg: Registry, view: View): View {
    if view.typeName !in reg then view else view.(config := Masked(reg[view.typeName].secretFields, view.config))
  }

  // ----- The store -----

  /** The fields of the agent's settings, and whether its model accepts them. */
  datatype AgentModel = AgentModel(fields: set<Field>, accepts: Config -> bool)

  datatype AgentWritten = AgentWritten(settings: Config, error: Option<Error>)

  function UpdatedAgent(model: AgentModel, settings: Config, updates: Config): AgentWritten {
    if !(updates.Keys <= model.fields) then AgentWritten(settings, Some(UnknownField))
    else if !model.accepts(settings + updates) then AgentWritten(settings, Some(InvalidConfig))
    else AgentWritten(settings + updates, None)
  }

  /** The single row of agent settings. */
  class AgentSettings {
    const model: AgentModel
    var settings: Config

    ghost predicate Valid()
      reads this
    {
      settings.Keys == model.fields
    }

    constructor (model: AgentModel, settings: Config)
      requires settings.Keys == model.fields
      ensures Valid() && this.model == model && this.settings == settings
    {
      this.model, this.settings := model, settings;
    }

    method Update(updates: Config) returns (error: Option<Error>)
      requires Valid()
      modifies this
      ensures Valid() && AgentWritten(settings, error) == UpdatedAgent(model, old(settings), updates)
      ensures error == Some(UnknownField) <==> exists f :: f in updates && f !in model.fields
      ensures error == None <==> (forall f :: f in updates ==> f in model.fields) && model.accepts(old(settings) + updates)
      ensures settings == if error == None then old(settings) + updates else old(settings)
    {
      if !(updates.Keys <= model.fields) {
        return Some(UnknownField);
      }
      var merged := settings + updates;
      if !model.accepts(merged) {
        return Some(InvalidConfig);
      }
      assert merged.Keys == settings.Keys;
      settings := merged;
      error := None;
    }
  }

  /** One of the three typed tables with its registry. */
  class TypedTable {
    const registry: Registry
    var rows: seq<Row>
    var nextId: nat

    function Contents(): Table
      reads this
    {
      Table(rows, nextId)
    }

    ghost predicate Valid()
      reads this
    {
      WellFormed(Contents())
    }

    constructor (registry: Registry)
      ensures Valid() && this.registry == registry && rows == []
    {
      this.registry, rows, nextId := registry, [], 1;
    }

    method ReadRows() returns (views: seq<View>)
      ensures views == Views(rows)
    {
      views := [];
      for i := 0 to |rows|
        invariant views == Views(rows[..i])
      {
        assert rows[..i + 1][..i] == rows[..i];
        views := views + [ViewOf(rows[i])];
      }
      assert rows[..|rows|] == rows;
    }

    method ReadRow(id: nat) returns (view: Option<View>)
      ensures view.None? <==> forall i :: 0 <= i < |rows| ==> rows[i].id != id
      ensures view.Some? ==> view.value in Views(rows) && view.value.id == id
    {
      var at := Find(rows, id);
      if at.None? {
        return None;
      }
      assert Views(rows)[at.value] == ViewOf(rows[at.value]);
      view := Some(ViewOf(rows[at.value]));
    }

    method CreateRow(typeName: TypeName, name: Name, config: Config, enabled: bool) returns (error: Option<Error>)
      requires Valid()
      modifies this
      ensures Valid() && Written(Contents(), error) == Create(registry, old(Contents()), typeName, name, config, enabled)
    {
      CreateKeepsForm(registry, Contents(), typeName, name, config, enabled);
      if typeName !in registry {
        return Some(UnknownType);
      }
      if !registry[typeName].accepts(config) {
        return Some(InvalidConfig);
      }
      var plain, secrets := SplitSecrets(registry[typeName], config);
      if NameTaken(rows, name) {
        return Some(DuplicateName);
      }
      rows, nextId := rows + [Row(nextId, typeName, name, enabled, plain, secrets)], nextId + 1;
      error := None;
    }

    method UpdateRow(id: nat, u: Updates) returns (error: Option<Error>)
      requires Valid()
      modifies this
      ensures Valid() && Written(Contents(), error) == Update(registry, old(Contents()), id, u)
    {
      UpdateKeepsForm(registry, Contents(), id, u);
      var at := Find(rows, id);
      if at.None? {
        return None;
      }
      var row := rows[at.value];
      if row.typeName !in registry {
        return Some(UnknownType);
      }
      var name := if u.name.Some? then u.name.value else row.name;
      var enabled := if u.enabled.Some? then u.enabled.value else row.enabled;
      var merged := ViewOf(row).config;
      if u.config.Some? {
        merged := merged + u.config.value;
      }
      if !registry[row.typeName].accepts(merged) {
        return Some(InvalidConfig);
      }
      var plain, secrets := SplitSecrets(registry[row.typeName], merged);
      if NameTakenByOther(rows, name, id) {
        return Some(DuplicateName);
      }
      rows := rows[at.value := Row(id, row.typeName, name, enabled, plain, secrets)];
      error := None;
    }

    method MaskRow(view: View) returns (masked: View)
      ensures masked == MaskedView(registry, view)
    {
      if view.typeName !in registry {
        return view;
      }
      var config := MaskFields(registry[view.typeName].secretFields, view.config);
      masked := view.(config := config);
    }
  }
}
