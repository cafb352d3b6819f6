/** Importing a schema document. */
module Imports {
  // What has to be written so that the schema entities say what the document says, and what a set of
  // changes makes of them.

  import opened Documents
  import opened Order
  import opened Ordinals

  // ---- entities ----

  datatype Shape = FieldShape | TypeShape

  /** An entity's key; a field's is its type's and its own, joined by a slash. */
  datatype EntityKey = EntityKey(shape: Shape, name: string)

  datatype Attr =
    | Name | Description | Ordinal | Show | Kind | Freeform | Inverse | Link
    | ValueOf(id: string) | TargetType(key: string)
    | Alias(system: string) | ValueAlias(system: string, id: string)
    | Other(name: string)

  /** An attribute's value in canonical form; `more` holds the members a newer program added. */
  datatype Data =
    | Word(s: string) | Num(n: int) | Flag | Unit
    | EnumValue(name: string, ordinal: int, category: string, description: string, color: string, more: string)
    | Raw(json: string)

  type Attrs = map<Attr, Data>

  type Entities = map<EntityKey, Attrs>

  /** The attributes an import owns: an alias is stated, never owned. */
  predicate Owned(shape: Shape, a: Attr) {
    match shape
    case TypeShape => a.Name? || a.Description? || a.Ordinal? || a.Show?
    case FieldShape =>
      a.Kind? || a.Name? || a.Description? || a.Ordinal? || a.Freeform? || a.Inverse? || a.Link? || a.ValueOf? || a.TargetType?
  }

  /** The number an entity carries: zero when it has none, and none when it is no number. */
  function OrdinalOf(attrs: Attrs): Option<int> {
    if Ordinal !in attrs then Some(0)
    else if attrs[Ordinal].Num? then Some(attrs[Ordinal].n) else None
  }

  // ---- documents ----

  datatype ValueDoc = ValueDoc(
    id: string, name: string, category: string, description: string, color: string, aliases: map<string, string>)

  datatype FieldDoc = FieldDoc(
    key: string, name: string, kind: string, description: string, freeform: bool, inverse: string, link: bool,
    targetTypes: seq<string>, aliases: map<string, string>, values: seq<ValueDoc>)

  datatype TypeDoc = TypeDoc(
    key: string, name: string, description: string, show: Option<string>, aliases: map<string, string>,
    fields: seq<FieldDoc>)

  type Document = seq<TypeDoc>

  function Join(t: string, f: string): string { t + "/" + f }

  function TypeKeys(d: Document): seq<string> { seq(|d|, i requires 0 <= i < |d| => d[i].key) }

  function FieldKeys(t: TypeDoc): seq<string> { seq(|t.fields|, i requires 0 <= i < |t.fields| => Join(t.key, t.fields[i].key)) }

  function ValueIds(f: FieldDoc): seq<string> { seq(|f.values|, i requires 0 <= i < |f.values| => f.values[i].id) }

  /** Keys are distinct where the document lists them, and a type's key has no slash. */
  ghost predicate ValidDocument(d: Document) {
    && Distinct(TypeKeys(d))
    && forall t :: t in d ==>
         && '/' !in t.key && Distinct(FieldKeys(t))
         && forall f :: f in t.fields ==> Distinct(ValueIds(f))
  }

  // ---- what the document wants ----

  function Set(a: Attr, v: Data, wanted: bool): Attrs { if wanted then map[a := v] else map[] }

  function Aliases(aliases: map<string, string>): Attrs { map s | s in aliases :: Alias(s) := Word(aliases[s]) }

  function Described(name: string, description: string): Attrs {
    Set(Name, Word(name), name != "") + Set(Description, Word(description), description != "")
  }

  function TypeAttributes(t: TypeDoc, ordinal: int): Attrs {
    map[Ordinal := Num(ordinal)]
    + (Described(t.name, t.description) + (Set(Show, Raw(t.show.GetOr("")), t.show.Some?) + Aliases(t.aliases)))
  }

  function ValueAttributes(values: seq<ValueDoc>, ordinals: map<string, int>): Attrs {
    if values == [] then map[]
    else
      var v := values[|values| - 1];
      ValueAttributes(values[..|values| - 1], ordinals)[ValueOf(v.id) := ValueEntry(v, ordinals)] + ValueAliases(v)
  }

  function ValueEntry(v: ValueDoc, ordinals: map<string, int>): Data {
    EnumValue(v.name, if v.id in ordinals then ordinals[v.id] else 0, v.category, v.description, v.color, "")
  }

  function ValueAliases(v: ValueDoc): (m: Attrs)
    ensures forall a :: a in m ==> a.ValueAlias?
  {
    map s | s in v.aliases :: ValueAlias(s, v.id) := Word(v.aliases[s])
  }

  /** The numbers an entity's enum values carry. */
  function ValueOrdinals(attrs: Attrs): map<string, int> {
    map a | a in attrs && a.ValueOf? && attrs[a].EnumValue? :: a.id := attrs[a].ordinal
  }

  function Marks(f: FieldDoc): Attrs {
    Set(Freeform, Flag, f.freeform) + Set(Inverse, Word(f.inverse), f.inverse != "") + Set(Link, Flag, f.link)
  }

  function Targets(keys: seq<string>): Attrs { map k | k in keys :: TargetType(k) := Unit }

  /** A field's attributes besides its values. */
  function OwnAttributes(f: FieldDoc, ordinal: int): Attrs {
    map[Kind := Word(f.kind), Ordinal := Num(ordinal)]
    + (Described(f.name, f.description) + (Marks(f) + (Targets(f.targetTypes) + Aliases(f.aliases))))
  }

  function FieldAttributes(f: FieldDoc, ordinal: int, have: Attrs): Attrs {
    OwnAttributes(f, ordinal) + ValueAttributes(f.values, Assigned(ValueIds(f), ValueOrdinals(have)))
  }

  function AttrsAt(c: Entities, k: EntityKey): Attrs { if k in c then c[k] else map[] }

  function CurrentOrdinals(c: Entities, shape: Shape, keys: seq<string>): map<string, int> {
    map k | k in keys && EntityKey(shape, k) in c && OrdinalOf(c[EntityKey(shape, k)]).Some? :: OrdinalOf(c[EntityKey(shape, k)]).value
  }

  function TypeNumbers(d: Document, c: Entities): map<string, int> {
    Assigned(TypeKeys(d), CurrentOrdinals(c, TypeShape, TypeKeys(d)))
  }

  function FieldNumbers(t: TypeDoc, c: Entities): map<string, int> {
    Assigned(FieldKeys(t), CurrentOrdinals(c, FieldShape, FieldKeys(t)))
  }

  function NumberOf(ordinals: map<string, int>, k: string): int { if k in ordinals then ordinals[k] else 0 }

  /** An entity the document states, and the attributes it gives it. */
  datatype Want = Want(key: EntityKey, attrs: Attrs)

  function TypeWant(t: TypeDoc, ordinals: map<string, int>): Want {
    Want(EntityKey(TypeShape, t.key), TypeAttributes(t, NumberOf(ordinals, t.key)))
  }

  function FieldWant(t: TypeDoc, f: FieldDoc, ordinals: map<string, int>, c: Entities): Want {
    var k := EntityKey(FieldShape, Join(t.key, f.key));
    Want(k, FieldAttributes(f, NumberOf(ordinals, k.name), AttrsAt(c, k)))
  }

  function TypeWants(d: Document, ordinals: map<string, int>): seq<Want> {
    if d == [] then [] else TypeWants(d[..|d| - 1], ordinals) + [TypeWant(d[|d| - 1], ordinals)]
  }

  function FieldWants(t: TypeDoc, fields: seq<FieldDoc>, ordinals: map<string, int>, c: Entities): seq<Want> {
    if fields == [] then []
    else FieldWants(t, fields[..|fields| - 1], ordinals, c) + [FieldWant(t, fields[|fields| - 1], ordinals, c)]
  }

  function AllFieldWants(d: Document, c: Entities): seq<Want> {
    if d == [] then []
    else
      var t := d[|d| - 1];
      AllFieldWants(d[..|d| - 1], c) + FieldWants(t, t.fields, FieldNumbers(t, c), c)
  }

  /** Everything the document states, types first. */
  function Wants(d: Document, c: Entities): seq<Want> { TypeWants(d, TypeNumbers(d, c)) + AllFieldWants(d, c) }

  // ---- the changes ----

  datatype Change =
    | Create(key: EntityKey, set_: Attrs)
    | Update(key: EntityKey, set_: Attrs, remove: set<Attr>)
    | Archive(key: EntityKey)

  /** The attributes to write: those the entity lacks or has otherwise. */
  function ToSet(have: Attrs, want: Attrs): Attrs {
    map a | a in want && !(a in have && have[a] == want[a]) :: want[a]
  }

  /** The attributes to delete: owned, and not stated. */
  function ToRemove(shape: Shape, have: Attrs, want: Attrs): set<Attr> {
    set a | a in have && Owned(shape, a) && a !in want
  }

  function Diff(c: Entities, w: Want): seq<Change> {
    if w.key !in c then [Create(w.key, w.attrs)]
    else
      var have := c[w.key];
      var sets, removes := ToSet(have, w.attrs), ToRemove(w.key.shape, have, w.attrs);
      if sets == map[] && removes == {} then [] else [Update(w.key, sets, removes)]
  }

  function Diffs(c: Entities, ws: seq<Want>): seq<Change> {
    if ws == [] then [] else Diffs(c, ws[..|ws| - 1]) + Diff(c, ws[|ws| - 1])
  }

  function KeysOf(ws: seq<Want>): set<EntityKey> { set w | w in ws :: w.key }

  function Orphans(c: Entities, matched: set<EntityKey>, shape: Shape): set<string> {
    set k | k in c && k.shape == shape && k !in matched :: k.name
  }

  function Archives(shape: Shape, names: seq<string>): seq<Change> {
    seq(|names|, i requires 0 <= i < |names| => Archive(EntityKey(shape, names[i])))
  }

  /** Fields before types. */
  function Prunes(c: Entities, matched: set<EntityKey>): seq<Change> {
    Archives(FieldShape, Sorted(Orphans(c, matched, FieldShape))) + Archives(TypeShape, Sorted(Orphans(c, matched, TypeShape)))
  }

  function Reconcile(d: Document, c: Entities, prune: bool): seq<Change> {
    var ws := Wants(d, c);
    Diffs(c, ws) + if prune then Prunes(c, KeysOf(ws)) else []
  }

  function ApplyOne(c: Entities, ch: Change): Entities {
    match ch
    case Create(k, attrs) => c[k := attrs]
    case Update(k, attrs, remove) => if k in c then c[k := c[k] + attrs - remove] else c
    case Archive(k) => c - {k}
  }

  function Apply(c: Entities, changes: seq<Change>): Entities {
    if changes == [] then c else ApplyOne(Apply(c, changes[..|changes| - 1]), changes[|changes| - 1])
  }
}
