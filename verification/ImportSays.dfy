/** What an import leaves of each entity, attribute by attribute, as the document says it. */
module ImportSays {
  import D = Documents
  import opened Order
  import opened Ordinals
  import opened Imports
  import opened ImportFacts
  import opened Numbering
  import opened Reimport
  import N = NumberSays

  // ---- what the document says of one attribute ----

  function TypeSays(t: TypeDoc, number: int, a: Attr): D.Option<Data> {
    match a
    case Ordinal => D.Some(Num(number))
    case Name => if t.name == "" then D.None else D.Some(Word(t.name))
    case Description => if t.description == "" then D.None else D.Some(Word(t.description))
    case Show => if t.show == D.None then D.None else D.Some(Raw(t.show.value))
    case Alias(s) => if s in t.aliases then D.Some(Word(t.aliases[s])) else D.None
    case _ => D.None
  }

  function ValueWith(values: seq<ValueDoc>, id: string): (v: D.Option<ValueDoc>)
    ensures v.Some? ==> v.value in values && v.value.id == id
    ensures v.None? ==> forall x :: x in values ==> x.id != id
  {
    if values == [] then D.None
    else if values[|values| - 1].id == id then D.Some(values[|values| - 1])
    else ValueWith(values[..|values| - 1], id)
  }

  function FieldSays(f: FieldDoc, number: int, numbers: map<string, int>, a: Attr): D.Option<Data> {
    match a
    case Kind => D.Some(Word(f.kind))
    case Ordinal => D.Some(Num(number))
    case Name => if f.name == "" then D.None else D.Some(Word(f.name))
    case Description => if f.description == "" then D.None else D.Some(Word(f.description))
    case Freeform => if f.freeform then D.Some(Flag) else D.None
    case Inverse => if f.inverse == "" then D.None else D.Some(Word(f.inverse))
    case Link => if f.link then D.Some(Flag) else D.None
    case TargetType(k) => if k in f.targetTypes then D.Some(Unit) else D.None
    case Alias(s) => if s in f.aliases then D.Some(Word(f.aliases[s])) else D.None
    case ValueOf(id) =>
      var v := ValueWith(f.values, id);
      if v.None? then D.None
      else D.Some(EnumValue(v.value.name, NumberOf(numbers, id), v.value.category, v.value.description, v.value.color, ""))
    case ValueAlias(s, id) =>
      var v := ValueWith(f.values, id);
      if v.Some? && s in v.value.aliases then D.Some(Word(v.value.aliases[s])) else D.None
    case _ => D.None
  }

  ghost predicate Holds(m: Attrs, a: Attr, says: D.Option<Data>) { (a in m <==> says.Some?) && (a in m ==> m[a] == says.value) }

  lemma DescribedStates(name: string, description: string, a: Attr)
    ensures Holds(Described(name, description), a,
                  if a == Name && name != "" then D.Some(Word(name))
                  else if a == Description && description != "" then D.Some(Word(description)) else D.None)
  {
  }

  lemma AliasesState(aliases: map<string, string>, a: Attr)
    ensures Holds(Aliases(aliases), a, if a.Alias? && a.system in aliases then D.Some(Word(aliases[a.system])) else D.None)
  {
  }

  lemma TargetsState(keys: seq<string>, a: Attr)
    ensures Holds(Targets(keys), a, if a.TargetType? && a.key in keys then D.Some(Unit) else D.None)
  {
  }

  lemma MarksState(f: FieldDoc, a: Attr)
    ensures Holds(Marks(f), a,
                  if (a == Freeform && f.freeform) || (a == Link && f.link) then D.Some(Flag)
                  else if a == Inverse && f.inverse != "" then D.Some(Word(f.inverse)) else D.None)
  {
  }

  /** Of two maps added, the second's attribute, else the first's. */
  lemma PlusHolds(m: Attrs, n: Attrs, a: Attr, x: D.Option<Data>, y: D.Option<Data>)
    requires Holds(m, a, x) && Holds(n, a, y)
    ensures Holds(m + n, a, if y.Some? then y else x)
  {
  }

  ghost function Value(m: Attrs, a: Attr): D.Option<Data> { if a in m then D.Some(m[a]) else D.None }

  lemma TypeStates(t: TypeDoc, number: int, a: Attr)
    ensures Holds(TypeAttributes(t, number), a, TypeSays(t, number, a))
  {
    hide Described, Aliases;
    DescribedStates(t.name, t.description, a);
    AliasesState(t.aliases, a);
    var own, said := map[Ordinal := Num(number)], Described(t.name, t.description);
    var shown, named := Set(Show, Raw(t.show.GetOr("")), t.show.Some?), Aliases(t.aliases);
    PlusHolds(shown, named, a, Value(shown, a), Value(named, a));
    PlusHolds(said, shown + named, a, Value(said, a), Value(shown + named, a));
    PlusHolds(own, said + (shown + named), a, Value(own, a), Value(said + (shown + named), a));
  }

  lemma ValueAdds(m: Attrs, v: ValueDoc, entry: Data, a: Attr)
    ensures var after := m[ValueOf(v.id) := entry] + ValueAliases(v);
            if a == ValueOf(v.id) then a in after && after[a] == entry
            else if a.ValueAlias? && a.id == v.id && a.system in v.aliases then a in after && after[a] == Word(v.aliases[a.system])
            else (a in after <==> a in m) && (a in after ==> after[a] == m[a])
  {
  }

  /** What the values say of one attribute. */
  lemma {:induction false} ValuesState(values: seq<ValueDoc>, numbers: map<string, int>, a: Attr)
    requires forall i, j :: 0 <= i < j < |values| ==> values[i].id != values[j].id
    ensures a.ValueOf? || a.ValueAlias? ==>
              var v := ValueWith(values, a.id);
              Holds(ValueAttributes(values, numbers), a,
                    if v.None? then D.None
                    else if a.ValueOf? then D.Some(EnumValue(v.value.name, NumberOf(numbers, a.id), v.value.category, v.value.description, v.value.color, ""))
                    else if a.system in v.value.aliases then D.Some(Word(v.value.aliases[a.system])) else D.None)
    ensures !a.ValueOf? && !a.ValueAlias? ==> a !in ValueAttributes(values, numbers)
  {
    hide ValueAliases;
    if values != [] {
      var n := |values| - 1;
      ValuesState(values[..n], numbers, a);
      ValueAdds(ValueAttributes(values[..n], numbers), values[n], ValueEntry(values[n], numbers), a);
    }
  }

  lemma OwnStates(f: FieldDoc, number: int, numbers: map<string, int>, a: Attr)
    ensures if a.ValueOf? || a.ValueAlias? then a !in OwnAttributes(f, number)
            else Holds(OwnAttributes(f, number), a, FieldSays(f, number, numbers, a))
  {
    hide Described, Aliases, Marks, Targets, ValueWith;
    DescribedStates(f.name, f.description, a);
    AliasesState(f.aliases, a);
    MarksState(f, a);
    TargetsState(f.targetTypes, a);
    var own, said := map[Kind := Word(f.kind), Ordinal := Num(number)], Described(f.name, f.description);
    var marks, targets, named := Marks(f), Targets(f.targetTypes), Aliases(f.aliases);
    PlusHolds(targets, named, a, Value(targets, a), Value(named, a));
    PlusHolds(marks, targets + named, a, Value(marks, a), Value(targets + named, a));
    PlusHolds(said, marks + (targets + named), a, Value(said, a), Value(marks + (targets + named), a));
    PlusHolds(own, said + (marks + (targets + named)), a, Value(own, a), Value(said + (marks + (targets + named)), a));
    assert OwnAttributes(f, number) == own + (said + (marks + (targets + named)));
  }

  lemma FieldStates(f: FieldDoc, number: int, have: Attrs, a: Attr)
    requires Distinct(ValueIds(f))
    ensures Holds(FieldAttributes(f, number, have), a, FieldSays(f, number, Assigned(ValueIds(f), ValueOrdinals(have)), a))
  {
    hide OwnAttributes, ValueAttributes, Assigned, ValueOrdinals, ValueWith;
    var numbers := Assigned(ValueIds(f), ValueOrdinals(have));
    forall i, j | 0 <= i < j < |f.values| ensures f.values[i].id != f.values[j].id { assert ValueIds(f)[i] != ValueIds(f)[j]; }
    ValuesState(f.values, numbers, a);
    OwnStates(f, number, numbers, a);
  }

  // ---- what an import leaves ----

  /** What the entity had of an attribute it has still, and nothing else. */
  ghost predicate AsBefore(before: Attrs, after: Attrs, a: Attr) { (a in after <==> a in before) && (a in after ==> after[a] == before[a]) }

  ghost predicate Said(before: Attrs, after: Attrs, a: Attr, says: D.Option<Data>, cleared: bool) {
    if says.Some? then a in after && after[a] == says.value
    else if cleared then a !in after
    else AsBefore(before, after, a)
  }

  /**
   A type the document states has each attribute it says. Unsaid, a name, a description and a
   show are taken away; any alias, number or other attribute it does not say is as it was.
   */
  lemma TypeImported(d: Document, c: Entities, prune: bool, t: TypeDoc, a: Attr)
    requires ValidDocument(d) && t in d
    ensures var k, after := EntityKey(TypeShape, t.key), Imported(d, c, prune);
            k in after && Said(AttrsAt(c, k), after[k], a, TypeSays(t, NumberOf(TypeNumbers(d, c), t.key), a),
                               a == Name || a == Description || a == Show)
  {
    hide Imported, Wants, TypeAttributes, TypeSays, TypeNumbers, TypeKeys, FieldKeys, ValueIds;
    var ordinals := TypeNumbers(d, c);
    var w := TypeWant(t, ordinals);
    TypeWanted(d, c, t);
    ImportedAt(d, c, prune, w.key, a);
    TypeStates(t, NumberOf(ordinals, t.key), a);
    TypeNumbered(t, NumberOf(ordinals, t.key));
  }

  lemma TypeNumbered(t: TypeDoc, number: int)
    ensures TypeSays(t, number, Ordinal).Some?
  {
  }

  lemma TypeWanted(d: Document, c: Entities, t: TypeDoc)
    requires t in d
    ensures TypeWant(t, TypeNumbers(d, c)) in Wants(d, c)
  {
    hide TypeNumbers, TypeAttributes, AllFieldWants;
    TypeWantsAre(d, TypeNumbers(d, c));
    var i :| 0 <= i < |d| && d[i] == t;
    assert TypeWants(d, TypeNumbers(d, c))[i] == TypeWant(t, TypeNumbers(d, c));
  }

  /**
   A field the document states has each attribute it says. Unsaid, a name, a description, an
   inverse, a mark, a value and a target are taken away; any alias of it or of a value, and any
   other attribute, is as it was.
   */
  lemma FieldImported(d: Document, c: Entities, prune: bool, t: TypeDoc, f: FieldDoc, a: Attr)
    requires ValidDocument(d) && t in d && f in t.fields
    ensures var k, after := EntityKey(FieldShape, Join(t.key, f.key)), Imported(d, c, prune);
            k in after && Said(AttrsAt(c, k), after[k], a,
                               FieldSays(f, NumberOf(FieldNumbers(t, c), k.name), Assigned(ValueIds(f), ValueOrdinals(AttrsAt(c, k))), a),
                               a.Name? || a.Description? || a.Freeform? || a.Inverse? || a.Link? || a.ValueOf? || a.TargetType?)
  {
    hide Imported, Wants, FieldAttributes, FieldSays, FieldNumbers, TypeKeys, FieldKeys, Assigned, Join;
    var ordinals := FieldNumbers(t, c);
    var w := FieldWant(t, f, ordinals, c);
    var number := NumberOf(ordinals, w.key.name);
    FieldWanted(d, c, t, f);
    ImportedAt(d, c, prune, w.key, a);
    FieldStates(f, number, AttrsAt(c, w.key), a);
    FieldNumbered(f, number, Assigned(ValueIds(f), ValueOrdinals(AttrsAt(c, w.key))));
  }

  lemma FieldNumbered(f: FieldDoc, number: int, numbers: map<string, int>)
    ensures FieldSays(f, number, numbers, Ordinal).Some? && FieldSays(f, number, numbers, Kind).Some?
  {
  }

  /** An entity the document does not state is as it was, or gone under a prune. */
  lemma UnstatedImported(d: Document, c: Entities, prune: bool, k: EntityKey)
    requires ValidDocument(d)
    requires forall t :: t in d ==>
               k != EntityKey(TypeShape, t.key) && forall f :: f in t.fields ==> k != EntityKey(FieldShape, Join(t.key, f.key))
    ensures var after := Imported(d, c, prune);
            if prune then k !in after else (k in after <==> k in c) && (k in c ==> after[k] == c[k])
  {
    hide Imported, TypeAttributes, FieldAttributes, TypeNumbers, FieldNumbers, TypeKeys, FieldKeys, ValueIds, Join;
    TypeWantsAre(d, TypeNumbers(d, c));
    AllFieldWantsAre(d, c);
    ImportedAt(d, c, prune, k, Name);
  }

  /** A file that names no alias unmaps nothing. */
  lemma AliasesStay(d: Document, c: Entities, prune: bool, t: TypeDoc, s: string)
    requires ValidDocument(d) && t in d && s !in t.aliases && EntityKey(TypeShape, t.key) in c && Alias(s) in c[EntityKey(TypeShape, t.key)]
    ensures var k, after := EntityKey(TypeShape, t.key), Imported(d, c, prune);
            k in after && Alias(s) in after[k] && after[k][Alias(s)] == c[k][Alias(s)]
  {
    hide Imported, ValidDocument, TypeNumbers;
    TypeImported(d, c, prune, t, Alias(s));
  }

  // ---- the numbers ----

  /** The numbers in the store: zero for an entity that has none, and none for one whose number is no number. */
  lemma NumbersFound(c: Entities, shape: Shape, keys: seq<string>, k: string)
    ensures var m, e := CurrentOrdinals(c, shape, keys), EntityKey(shape, k);
            && (k in m <==> k in keys && e in c && (Ordinal in c[e] ==> c[e][Ordinal].Num?))
            && (k in m ==> m[k] == if Ordinal in c[e] then c[e][Ordinal].n else 0)
  {
  }

  lemma ValueNumbersFound(have: Attrs, id: string)
    ensures var m := ValueOrdinals(have);
            && (id in m <==> ValueOf(id) in have && have[ValueOf(id)].EnumValue?) && (id in m ==> m[id] == have[ValueOf(id)].ordinal)
  {
  }

  /** A type ends with the number its place in the document gets, among those in the store. */
  lemma TypeNumberIs(d: Document, c: Entities, prune: bool, i: nat)
    requires ValidDocument(d) && i < |d|
    ensures Distinct(TypeKeys(d))
    ensures var k, after := EntityKey(TypeShape, d[i].key), Imported(d, c, prune);
            && k in after && Ordinal in after[k]
            && after[k][Ordinal] == Num(N.NumberOf(TypeKeys(d), CurrentOrdinals(c, TypeShape, TypeKeys(d)), i))
  {
    hide Imported, Assigned, CurrentOrdinals, FieldKeys, ValueIds;
    TypeImported(d, c, prune, d[i], Ordinal);
    AssignedIncreases(TypeKeys(d), CurrentOrdinals(c, TypeShape, TypeKeys(d)));
    assert TypeKeys(d)[i] == d[i].key;
    assert d[i].key in Elems(TypeKeys(d));
  }

  /** And a field, and its values. */
  lemma FieldNumberIs(d: Document, c: Entities, prune: bool, t: TypeDoc, i: nat)
    requires ValidDocument(d) && t in d && i < |t.fields|
    ensures Distinct(FieldKeys(t)) && Join(t.key, t.fields[i].key) == FieldKeys(t)[i]
    ensures var k, after := EntityKey(FieldShape, FieldKeys(t)[i]), Imported(d, c, prune);
            && k in after && Ordinal in after[k]
            && after[k][Ordinal] == Num(N.NumberOf(FieldKeys(t), CurrentOrdinals(c, FieldShape, FieldKeys(t)), i))
  {
    hide Imported, Assigned, CurrentOrdinals, TypeKeys, ValueIds, Join;
    FieldImported(d, c, prune, t, t.fields[i], Ordinal);
    AssignedIncreases(FieldKeys(t), CurrentOrdinals(c, FieldShape, FieldKeys(t)));
    assert FieldKeys(t)[i] in Elems(FieldKeys(t));
  }

  lemma ValueNumberIs(d: Document, c: Entities, prune: bool, t: TypeDoc, f: FieldDoc, i: nat)
    requires ValidDocument(d) && t in d && f in t.fields && i < |f.values|
    ensures Distinct(ValueIds(f))
    ensures var k, a, after := EntityKey(FieldShape, Join(t.key, f.key)), ValueOf(f.values[i].id), Imported(d, c, prune);
            && k in after && a in after[k] && after[k][a].EnumValue?
            && after[k][a].ordinal == N.NumberOf(ValueIds(f), ValueOrdinals(AttrsAt(c, k)), i)
  {
    hide Imported, Assigned, ValueOrdinals, TypeKeys, FieldKeys, Join;
    var k := EntityKey(FieldShape, Join(t.key, f.key));
    FieldImported(d, c, prune, t, f, ValueOf(f.values[i].id));
    AssignedIncreases(ValueIds(f), ValueOrdinals(AttrsAt(c, k)));
    assert ValueIds(f)[i] in Elems(ValueIds(f));
    assert f.values[i] in f.values;
  }
}
