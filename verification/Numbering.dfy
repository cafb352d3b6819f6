/** Which attributes of an entity carry its number and its values' numbers, and what those numbers come from. */
module Numbering {
  import opened Order
  import opened Ordinals
  import opened Imports

  /** A value set and aliases added name that value and no other. */
  lemma ValueAdded(m: Attrs, id: string, entry: Data, aliases: Attrs)
    requires forall a :: a in aliases ==> a.ValueAlias?
    requires forall a :: a in m ==> a.ValueOf? || a.ValueAlias?
    ensures forall a :: a in m[ValueOf(id) := entry] + aliases ==> a.ValueOf? || a.ValueAlias?
    ensures forall x :: ValueOf(x) in m[ValueOf(id) := entry] + aliases <==> ValueOf(x) in m || x == id
  {
  }

  lemma {:induction false} ValueNames(values: seq<ValueDoc>, ordinals: map<string, int>)
    ensures forall a :: a in ValueAttributes(values, ordinals) ==> a.ValueOf? || a.ValueAlias?
    ensures forall id :: ValueOf(id) in ValueAttributes(values, ordinals) <==> HasValue(values, id)
  {
    if values != [] {
      hide ValueEntry, ValueAliases, HasValue;
      var n := |values| - 1;
      ValueNames(values[..n], ordinals);
      ValueAdded(ValueAttributes(values[..n], ordinals), values[n].id, ValueEntry(values[n], ordinals), ValueAliases(values[n]));
      forall id ensures HasValue(values, id) <==> HasValue(values[..n], id) || id == values[n].id { ValueAmong(values, id); }
    }
  }

  ghost predicate HasValue(values: seq<ValueDoc>, id: string) { exists v :: v in values && v.id == id }

  lemma ValueAmong(values: seq<ValueDoc>, id: string)
    requires values != []
    ensures HasValue(values, id) <==> HasValue(values[..|values| - 1], id) || id == values[|values| - 1].id
  {
    var n := |values| - 1;
    assert forall v :: v in values <==> v in values[..n] || v == values[n];
  }

  lemma {:induction false} ValueNumbers(values: seq<ValueDoc>, ordinals: map<string, int>, id: string)
    requires ValueOf(id) in ValueAttributes(values, ordinals)
    ensures var x := ValueAttributes(values, ordinals)[ValueOf(id)]; x.EnumValue? && x.ordinal == NumberOf(ordinals, id)
  {
    if values != [] && values[|values| - 1].id != id { ValueNumbers(values[..|values| - 1], ordinals, id); }
  }

  /** Neither a number nor a value. */
  ghost predicate Unnumbered(m: Attrs) { Ordinal !in m && forall id :: ValueOf(id) !in m }

  lemma UnnumberedParts(f: FieldDoc)
    ensures Unnumbered(Described(f.name, f.description)) && Unnumbered(Aliases(f.aliases))
    ensures Unnumbered(Marks(f)) && Unnumbered(Targets(f.targetTypes))
  {
    hide Described, Aliases, Marks;
    DescribedUnnumbered(f.name, f.description);
    AliasesUnnumbered(f.aliases);
    MarksUnnumbered(f);
  }

  lemma AliasesUnnumbered(aliases: map<string, string>)
    ensures Unnumbered(Aliases(aliases))
  {
  }

  lemma MarksUnnumbered(f: FieldDoc)
    ensures Unnumbered(Marks(f))
  {
  }

  lemma UnnumberedMore(a: Attrs, b: Attrs)
    requires Unnumbered(a) && Unnumbered(b)
    ensures Unnumbered(a + b)
  {
  }

  lemma OwnOrdinal(f: FieldDoc, ordinal: int)
    ensures Ordinal in OwnAttributes(f, ordinal) && OwnAttributes(f, ordinal)[Ordinal] == Num(ordinal)
    ensures forall id :: ValueOf(id) !in OwnAttributes(f, ordinal)
  {
    hide Described, Aliases, Marks, Targets;
    UnnumberedParts(f);
    UnnumberedMore(Targets(f.targetTypes), Aliases(f.aliases));
    UnnumberedMore(Marks(f), Targets(f.targetTypes) + Aliases(f.aliases));
    UnnumberedMore(Described(f.name, f.description), Marks(f) + (Targets(f.targetTypes) + Aliases(f.aliases)));
  }

  lemma TypeOrdinal(t: TypeDoc, ordinal: int)
    ensures Ordinal in TypeAttributes(t, ordinal) && TypeAttributes(t, ordinal)[Ordinal] == Num(ordinal)
  {
    hide Described;
    assert Ordinal !in Described(t.name, t.description) by { DescribedUnnumbered(t.name, t.description); }
  }

  lemma DescribedUnnumbered(name: string, description: string)
    ensures Unnumbered(Described(name, description))
  {
  }

  lemma FieldOrdinal(f: FieldDoc, ordinal: int, have: Attrs)
    ensures var want := FieldAttributes(f, ordinal, have);
            && Ordinal in want && want[Ordinal] == Num(ordinal)
            && (forall id :: ValueOf(id) in want <==> id in ValueIds(f))
            && (forall id :: ValueOf(id) in want ==>
                  && want[ValueOf(id)].EnumValue?
                  && want[ValueOf(id)].ordinal == NumberOf(Assigned(ValueIds(f), ValueOrdinals(have)), id))
  {
    hide OwnAttributes, ValueAttributes, Assigned, ValueOrdinals;
    OwnOrdinal(f, ordinal);
    var ordinals := Assigned(ValueIds(f), ValueOrdinals(have));
    ValueNames(f.values, ordinals);
    forall id | ValueOf(id) in ValueAttributes(f.values, ordinals)
      ensures var x := ValueAttributes(f.values, ordinals)[ValueOf(id)]; x.EnumValue? && x.ordinal == NumberOf(ordinals, id)
    {
      ValueNumbers(f.values, ordinals, id);
    }
    forall id ensures id in ValueIds(f) <==> exists v :: v in f.values && v.id == id { ValueIdIs(f, id); }
  }

  lemma ValueIdIs(f: FieldDoc, id: string)
    ensures id in ValueIds(f) <==> exists v :: v in f.values && v.id == id
  {
    if v :| v in f.values && v.id == id {
      var i :| 0 <= i < |f.values| && f.values[i] == v;
      assert ValueIds(f)[i] == id;
    }
    if id in ValueIds(f) {
      var i :| 0 <= i < |ValueIds(f)| && ValueIds(f)[i] == id;
      assert f.values[i] in f.values;
    }
  }

  lemma AssignedKeys(keys: seq<string>, current: map<string, int>)
    ensures Assigned(keys, current).Keys == Elems(keys)
  {
    PutKeys(map[], keys, Numbers(keys, current));
  }

  lemma SameFieldAttributes(f: FieldDoc, ordinal: int, a: Attrs, b: Attrs)
    requires Assigned(ValueIds(f), ValueOrdinals(a)) == Assigned(ValueIds(f), ValueOrdinals(b))
    ensures FieldAttributes(f, ordinal, a) == FieldAttributes(f, ordinal, b)
  {
    hide Assigned, ValueOrdinals, ValueAttributes, OwnAttributes;
  }
}
