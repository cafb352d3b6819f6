/** The write checks of the schema: shape, and the policy on top of it. */
module Check {
  import opened Documents

  datatype Kind = TextKind | Rank | Bool | Number | Date | Enum | OrdinalEnum | Identity | Relation

  datatype FieldDef = FieldDef(kind: Kind, multi: bool, freeform: bool, values: set<string>, targets: set<string>)

  /**
   The live schema (type key to its fields) with what a check asks outside it: how a
   literal parses, which identities exist, and the type of each issue.
   */
  datatype Checker = Checker(
    types: map<string, map<string, FieldDef>>,
    parses: (Kind, Value) -> bool, identities: set<string>, issues: map<string, string>,
    shapeOnly: bool)

  function Shape(ck: Checker): Checker { ck.(shapeOnly := true) }

  /** A type's key is not empty, and every type carries the built-in type field, an enum. */
  ghost predicate WellFormed(ck: Checker) {
    "" !in ck.types &&
    forall t :: t in ck.types ==> TYPE in ck.types[t] && ck.types[t][TYPE].kind == Enum && !ck.types[t][TYPE].multi
  }

  predicate CheckOne(ck: Checker, f: FieldDef, v: Value) {
    match f.kind
    case TextKind => v.Str?
    case Rank => v.Str?
    case Bool => ck.parses(Bool, v)
    case Number => ck.parses(Number, v)
    case Date => v.Str? && ck.parses(Date, v)
    case Enum => v.Str? && (v.s in f.values || f.freeform || ck.shapeOnly)
    case OrdinalEnum => v.Str? && (v.s in f.values || f.freeform || ck.shapeOnly)
    case Identity => v.Str? && v.s in ck.identities
    case Relation => v.Str? && v.s in ck.issues && (f.targets == {} || ck.shapeOnly || ck.issues[v.s] in f.targets)
  }

  /** A value read as a JSON string; null reads as the empty one. */
  function StringValue(v: Value): Option<string> {
    if v.Str? then Some(v.s) else if v == Null then Some("") else None
  }

  /** The type a set of one key leaves: its own value when it sets the type. */
  function TypeAfter(typ: string, key: string, v: Value): string {
    if key == TYPE && StringValue(v).Some? then StringValue(v).value else typ
  }

  /** A set of one field against a type. A schema with no types checks nothing. */
  predicate CheckField(ck: Checker, typ: string, key: string, v: Value) {
    var t := TypeAfter(typ, key, v);
    ck.types == map[] ||
    (t in ck.types && key in ck.types[t] &&
     var f := ck.types[t][key];
     v == Null ||
     (if f.multi then v.Items? && forall x :: x in v.items ==> CheckOne(ck, f, Str(x)) else CheckOne(ck, f, v)))
  }

  /** An item added to or removed from a list-valued field. */
  predicate CheckItem(ck: Checker, typ: string, key: string, item: string) {
    ck.types == map[] ||
    (typ in ck.types && key in ck.types[typ] && ck.types[typ][key].multi && CheckOne(ck, ck.types[typ][key], Str(item)))
  }
}
