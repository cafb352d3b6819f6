/** Deriving a schema from a Jira project. */
module Derivation {
  // Its types, fields and values adopted or added, its names applied to what is aliased, and nothing
  // removed.

  import opened Documents
  import opened Order
  import opened Imports
  import opened Matching
  import opened Ordering

  const SYSTEM := "jira"

  const BUILTINS: set<string> := {"title", "type", "archived", "rank"}

  /** How names are folded: to compare two, and to make a key of one. */
  datatype Naming = Naming(norm: string -> string, slug: string -> string)

  // ---- new keys ----

  function Decimal(n: nat): string {
    var digit := ('0' as int + n % 10) as char;
    if n < 10 then [digit] else Decimal(n / 10) + [digit]
  }

  lemma {:induction false} DecimalInjective(m: nat, n: nat)
    requires Decimal(m) == Decimal(n)
    ensures m == n
  {
    var a, b := Decimal(m), Decimal(n);
    assert a[|a| - 1] == ('0' as int + m % 10) as char && b[|b| - 1] == ('0' as int + n % 10) as char;
    if m >= 10 && n >= 10 {
      assert a[..|a| - 1] == Decimal(m / 10) && b[..|b| - 1] == Decimal(n / 10);
      DecimalInjective(m / 10, n / 10);
    } else if m >= 10 {
      DecimalLength(m / 10);
    } else if n >= 10 {
      DecimalLength(n / 10);
    }
  }

  lemma DecimalLength(n: nat)
    ensures |Decimal(n)| >= 1
  {
  }

  function Suffixed(base: string, n: nat): string { base + "-" + Decimal(n) }

  /** The base with the first suffix from n on that is not used. */
  function FirstFree(base: string, n: nat, used: set<string>): string
    decreases |used|
  {
    var k := Suffixed(base, n);
    if k !in used then k else FirstFree(base, n + 1, used - {k})
  }

  lemma {:induction false} FirstFreeIs(base: string, n: nat, used: set<string>)
    ensures FirstFree(base, n, used) !in used && exists m: nat :: m >= n && FirstFree(base, n, used) == Suffixed(base, m)
    decreases |used|
  {
    var k := Suffixed(base, n);
    if k in used {
      FirstFreeIs(base, n + 1, used - {k});
      var m: nat :| m >= n + 1 && FirstFree(base, n + 1, used - {k}) == Suffixed(base, m);
      SuffixedInjective(base, m, n);
    } else {
      assert FirstFree(base, n, used) == Suffixed(base, n);
    }
  }

  lemma SuffixedInjective(base: string, m: nat, n: nat)
    requires m != n
    ensures Suffixed(base, m) != Suffixed(base, n)
  {
    if Suffixed(base, m) == Suffixed(base, n) {
      assert Suffixed(base, m)[|base| + 1..] == Decimal(m) && Suffixed(base, n)[|base| + 1..] == Decimal(n);
      DecimalInjective(m, n);
    }
  }

  function BaseKey(n: Naming, name: string, jiraId: string, prefix: string): (base: string)
    ensures base != ""
  {
    var s := if n.slug(name) != "" then n.slug(name) else "jira-" + n.slug(jiraId);
    if prefix != "" && !('a' <= s[0] <= 'z') then prefix + s else s
  }

  /** A key nothing in the namespace uses. */
  function KeyFor(n: Naming, name: string, jiraId: string, prefix: string, used: set<string>): (key: string)
    ensures key != "" && key !in used
  {
    var base := BaseKey(n, name, jiraId, prefix);
    if base !in used then base
    else
      FirstFreeIs(base, 2, used);
      FirstFree(base, 2, used)
  }

  // ---- what Jira has ----

  datatype JiraValue = JiraValue(id: string, name: string, group: string)

  /** A Jira field of an issue type, with the local field it asks for. */
  datatype JiraField = JiraField(
    ref: string, key: string, name: string, kind: string, freeform: bool, inverse: string, link: bool,
    targets: seq<string>, values: seq<JiraValue>, ordered: bool, status: bool)

  /** An issue type; its wanted fields before and after the one for its parents. */
  datatype IssueType = IssueType(
    id: string, name: string, description: string, level: int, before: seq<JiraField>, after: seq<JiraField>)

  datatype Project = Project(types: seq<IssueType>, parentName: string)

  function AliasOf(aliases: map<string, string>): Option<string> {
    if SYSTEM in aliases then Some(aliases[SYSTEM]) else None
  }

  predicate SameName(n: Naming, key: string, name: string, jiraName: string, tableKey: string) {
    || key == tableKey
    || (n.norm(jiraName) != "" && (n.norm(key) == n.norm(jiraName) || n.norm(name) == n.norm(jiraName)))
  }

  // ---- values ----

  function Allowed(group: string): seq<string> {
    if group == "indeterminate" then ["started"]
    else if group == "done" then ["completed", "canceled"]
    else ["unstarted", "backlog"]
  }

  function RankOf(category: string): int {
    if category == "started" then 1 else if category == "completed" || category == "canceled" then 2 else 0
  }

  function TouchValue(status: bool, v: ValueDoc, j: JiraValue): ValueDoc {
    v.(name := j.name, aliases := v.aliases[SYSTEM := j.id],
       category := if status && v.category !in Allowed(j.group) then Allowed(j.group)[0] else v.category)
  }

  function ValueKeys(vs: seq<ValueDoc>): set<string> { set v | v in vs :: v.id }

  function NewValue(n: Naming, status: bool, vs: seq<ValueDoc>, j: JiraValue): ValueDoc {
    ValueDoc(KeyFor(n, j.name, j.id, "", ValueKeys(vs)), j.name, if status then Allowed(j.group)[0] else "", "", "",
             map[SYSTEM := j.id])
  }

  /** After the last value ranked no later. */
  function PlaceByRank(vs: seq<ValueDoc>, rank: int): nat {
    if vs == [] then 0
    else if RankOf(vs[|vs| - 1].category) <= rank then |vs|
    else PlaceByRank(vs[..|vs| - 1], rank)
  }

  function ValueLevel(n: Naming, status: bool): Level<ValueDoc, JiraValue> {
    Level((v: ValueDoc) => v.id, (v: ValueDoc) => AliasOf(v.aliases), (v: ValueDoc) => true,
          (v: ValueDoc, j: JiraValue) => SameName(n, v.id, v.name, j.name, ""),
          (v: ValueDoc, j: JiraValue) => true,
          (j: JiraValue) => j.id,
          (vs: seq<ValueDoc>, v: ValueDoc, j: JiraValue) => TouchValue(status, v, j),
          (vs: seq<ValueDoc>, j: JiraValue) => NewValue(n, status, vs, j),
          (vs: seq<ValueDoc>, j: JiraValue) => if status then PlaceByRank(vs, RankOf(Allowed(j.group)[0])) else |vs|,
          false)
  }

  function KeysOfPairs(order: seq<Pair>): seq<string> { seq(|order|, i requires 0 <= i < |order| => order[i].key) }

  /** Jira's values of one field matched onto its value list. */
  function DeriveValues(n: Naming, vs: seq<ValueDoc>, w: JiraField): seq<ValueDoc> {
    var p := PassOver(ValueLevel(n, w.status), vs, w.values);
    if w.ordered then JiraOrder(p.es, KeysOfPairs(p.order)) else p.es
  }

  // ---- fields ----

  predicate IsEnum(kind: string) { kind == "enum" || kind == "ordinal-enum" || kind == "multi-enum" }

  /** Keys a new field or an inverse cannot take. */
  function TakenKeys(fs: seq<FieldDoc>): set<string> {
    (set f | f in fs :: f.key) + (set f | f in fs :: f.inverse) + BUILTINS
  }

  function InsertSorted(xs: seq<string>, x: string): seq<string> {
    if xs == [] || !Less(xs[0], x) then [x] + xs else [xs[0]] + InsertSorted(xs[1..], x)
  }

  function SortStrings(xs: seq<string>): seq<string> {
    if xs == [] then [] else InsertSorted(SortStrings(xs[..|xs| - 1]), xs[|xs| - 1])
  }

  function WithTargets(targets: seq<string>, more: seq<string>): seq<string> {
    if more == [] then targets
    else
      var ts := WithTargets(targets, more[..|more| - 1]);
      if more[|more| - 1] in ts then ts else ts + [more[|more| - 1]]
  }

  /** A field after one Jira field, its name aside. */
  function SettleField(n: Naming, fs: seq<FieldDoc>, f: FieldDoc, w: JiraField): FieldDoc {
    f.(aliases := f.aliases[SYSTEM := w.ref],
       freeform := f.freeform || w.freeform,
       link := f.link || w.link,
       inverse := if f.inverse == "" && w.inverse != "" then KeyFor(n, w.inverse, w.ref, "f-", TakenKeys(fs) + {f.key}) else f.inverse,
       targetTypes := SortStrings(WithTargets(f.targetTypes, w.targets)),
       values := if IsEnum(w.kind) && !w.freeform then DeriveValues(n, f.values, w) else f.values)
  }

  function TouchField(n: Naming, fs: seq<FieldDoc>, f: FieldDoc, w: JiraField): FieldDoc {
    SettleField(n, fs, f.(name := if w.name != "" then w.name else f.name), w)
  }

  function NewField(n: Naming, fs: seq<FieldDoc>, w: JiraField): FieldDoc {
    var key := KeyFor(n, if w.key != "" then w.key else w.name, w.ref, "f-", TakenKeys(fs));
    SettleField(n, fs, FieldDoc(key, w.name, w.kind, "", false, "", false, [], map[], []), w)
  }

  function FieldLevel(n: Naming): Level<FieldDoc, JiraField> {
    Level((f: FieldDoc) => f.key, (f: FieldDoc) => AliasOf(f.aliases), (f: FieldDoc) => f.key !in BUILTINS,
          (f: FieldDoc, w: JiraField) => SameName(n, f.key, f.name, w.name, w.key),
          (f: FieldDoc, w: JiraField) => f.kind == w.kind,
          (w: JiraField) => w.ref,
          (fs: seq<FieldDoc>, f: FieldDoc, w: JiraField) => TouchField(n, fs, f, w),
          (fs: seq<FieldDoc>, w: JiraField) => NewField(n, fs, w),
          (fs: seq<FieldDoc>, w: JiraField) => |fs|,
          true)
  }

  function DeriveFields(n: Naming, fs: seq<FieldDoc>, ws: seq<JiraField>): seq<FieldDoc> {
    PassOver(FieldLevel(n), fs, ws).es
  }

  // ---- types ----

  function TouchType(t: TypeDoc, it: IssueType): TypeDoc {
    t.(name := it.name, description := if it.description != "" then it.description else t.description,
       aliases := t.aliases[SYSTEM := it.id])
  }

  function NewType(n: Naming, ts: seq<TypeDoc>, it: IssueType): TypeDoc {
    TypeDoc(KeyFor(n, it.name, it.id, "t-", set t | t in ts :: t.key), it.name, it.description, None, map[SYSTEM := it.id], [])
  }

  function TypeLevel(n: Naming): Level<TypeDoc, IssueType> {
    Level((t: TypeDoc) => t.key, (t: TypeDoc) => AliasOf(t.aliases), (t: TypeDoc) => true,
          (t: TypeDoc, it: IssueType) => SameName(n, t.key, t.name, it.name, ""),
          (t: TypeDoc, it: IssueType) => true,
          (it: IssueType) => it.id,
          (ts: seq<TypeDoc>, t: TypeDoc, it: IssueType) => TouchType(t, it),
          (ts: seq<TypeDoc>, it: IssueType) => NewType(n, ts, it),
          (ts: seq<TypeDoc>, it: IssueType) => |ts|,
          false)
  }

  function MappedKey(order: seq<Pair>, id: string): Option<string> {
    if order == [] then None
    else if order[|order| - 1].id == id then Some(order[|order| - 1].key)
    else MappedKey(order[..|order| - 1], id)
  }

  /** The types an issue type's parent may have: those one level up. */
  function Above(types: seq<IssueType>, order: seq<Pair>, level: int): seq<string> {
    if types == [] then []
    else
      var it := types[|types| - 1];
      var k := MappedKey(order, it.id);
      Above(types[..|types| - 1], order, level) + if k.Some? && it.level == level + 1 then [k.value] else []
  }

  /** What maps onto one type: the parent's field only when some type is above. */
  function WantsOf(p: Project, order: seq<Pair>, it: IssueType): seq<JiraField> {
    var above := Above(p.types, order, it.level);
    it.before
    + (if above == [] then []
       else [JiraField("parent", "parent", p.parentName, "relation", false, "children", false, above, [], false, false)])
    + it.after
  }

  /** One type's fields derived, the rest of the list as it was. */
  function FieldPass(n: Naming, p: Project, order: seq<Pair>, now: seq<TypeDoc>, it: IssueType): seq<TypeDoc> {
    var k := MappedKey(order, it.id);
    if k.Some? && HasKey(TypeLevel(n), now, k.value) then
      var i := IndexOf(TypeLevel(n), now, k.value);
      now[i := now[i].(fields := DeriveFields(n, now[i].fields, WantsOf(p, order, it)))]
    else now
  }

  /** The fields of the types mapped, issue type by issue type. */
  function FieldPasses(n: Naming, p: Project, order: seq<Pair>, ts: seq<TypeDoc>, its: seq<IssueType>): seq<TypeDoc> {
    if its == [] then ts
    else FieldPass(n, p, order, FieldPasses(n, p, order, ts, its[..|its| - 1]), its[|its| - 1])
  }

  /** Some local type carries a Jira id, and none of those ids is the project's. */
  predicate BoundElsewhere(d: Document, p: Project) {
    && (exists t :: t in d && AliasOf(t.aliases).Some? && AliasOf(t.aliases).value != "")
    && forall t, it :: t in d && it in p.types && AliasOf(t.aliases) == Some(it.id) ==> it.id == ""
  }

  datatype Derived = Ok(doc: Document) | Misbound

  function Derive(n: Naming, d: Document, p: Project): Derived {
    if BoundElsewhere(d, p) then Misbound
    else
      var pass := PassOver(TypeLevel(n), d, p.types);
      Ok(FieldPasses(n, p, pass.order, pass.es, p.types))
  }

  method DeriveDocument(n: Naming, d: Document, p: Project) returns (r: Derived)
    ensures r == Derive(n, d, p)
  {
    if BoundElsewhere(d, p) {
      return Misbound;
    }
    var pass := RunPass(TypeLevel(n), d, p.types);
    var doc := pass.es;
    for i := 0 to |p.types|
      invariant doc == FieldPasses(n, p, pass.order, pass.es, p.types[..i])
    {
      assert p.types[..i + 1][..i] == p.types[..i];
      var it := p.types[i];
      var k := MappedKey(pass.order, it.id);
      if k.Some? && HasKey(TypeLevel(n), doc, k.value) {
        var at := IndexOf(TypeLevel(n), doc, k.value);
        var fields := RunPass(FieldLevel(n), doc[at].fields, WantsOf(p, pass.order, it));
        doc := doc[at := doc[at].(fields := fields.es)];
      }
    }
    assert p.types[..|p.types|] == p.types;
    r := Ok(doc);
  }
}
