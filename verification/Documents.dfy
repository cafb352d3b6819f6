/** The documents a sync compares. */
module Documents {
  // In local terms: field values in canonical form, texts with their digest, comments, and what could not
  // be converted.

  import opened Order

  datatype Option<+T> = None | Some(value: T) {
    function GetOr(default: T): T { if Some? then value else default }
  }

  const BODY := "body"
  const TYPE := "type"

  /** Comparison is by digest, so texts that come back from Jira alike count as one. */
  datatype Text = Text(raw: string, digest: string)

  const EMPTY_DIGEST := "v1:"
  const EMPTY_TEXT := Text("", EMPTY_DIGEST)

  /** A canonical value. An absent value is Null; a list-valued one is the set of its items. */
  datatype Value =
    | Null
    | Str(s: string)
    | Json(raw: string)
    | Body(text: Text)
    | Items(items: set<string>)

  /** Bases equal to no value of either side, for writes accepted of which a later read shows nothing. */
  const UNKNOWN_BASE := Json("{\"jira-sync\":\"unconfirmed\"}")
  const UNKNOWN_COMMENT := "unconfirmed"

  function At(fields: map<string, Value>, k: string): Value {
    if k in fields then fields[k] else Null
  }

  function SetOf(v: Value): set<string> {
    if v.Items? then v.items else {}
  }

  function TextOf(v: Value): Text {
    if v.Body? then v.text else EMPTY_TEXT
  }

  /** Two values of a key are one when their forms are; bases hold forms. */
  function Form(k: string, v: Value): Value {
    if k == BODY then Str(TextOf(v).digest) else v
  }

  /** What may be pending: a field, a comment known to Jira, a comment not yet in Jira. */
  datatype Key = Field(name: string) | Comment(jid: string) | Draft(op: string)

  datatype Reason =
    | NotExported | LossyText | TypeChange | DeletedInJira | Unconverted | Unconfirmed | ShapeRefused

  datatype Skip = Skip(key: Key, reason: Reason, retry: bool)

  /** op is the local add-comment operation (for a Jira comment, the one its property names). */
  datatype DocComment = DocComment(op: string, jid: string, text: Text, lossless: bool, note: bool)

  datatype Doc = Doc(
    id: string, key: string, updated: int, lossy: bool,
    fields: map<string, Value>, skip: set<Skip>, comments: seq<DocComment>)

  function Skipped(d: Doc): set<Key> {
    set s | s in d.skip :: s.key
  }

  /** The last comment listed with a Jira id. */
  function ByJid(cs: seq<DocComment>, jid: string): (r: Option<DocComment>)
    ensures r.Some? ==> r.value in cs && r.value.jid == jid
    ensures r.None? ==> forall c :: c in cs ==> c.jid != jid
  {
    if cs == [] then None
    else if cs[|cs| - 1].jid == jid then Some(cs[|cs| - 1])
    else ByJid(cs[..|cs| - 1], jid)
  }

  /** The last comment listed with an operation id. */
  function ByOp(cs: seq<DocComment>, op: string): (r: Option<DocComment>)
    ensures r.Some? ==> r.value in cs && r.value.op == op
    ensures r.None? ==> forall c :: c in cs ==> c.op != op
  {
    if cs == [] then None
    else if cs[|cs| - 1].op == op then Some(cs[|cs| - 1])
    else ByOp(cs[..|cs| - 1], op)
  }

  /**
   The common ancestor a merge starts from, and with it the writes no read has settled yet:
   `sent` and `sentComments` by their form, `wrote` the clock a read must reach to show them.
   */
  datatype BaseState = BaseState(
    id: string, key: string, updated: int,
    fields: map<string, Value>, comments: map<string, string>,
    retry: set<Key>, gone: string,
    sent: map<string, Value>, sentComments: map<string, string>, wrote: int, unmerged: bool)

  const EMPTY_BASE := BaseState("", "", 0, map[], map[], {}, "", map[], map[], 0, false)

  function OrEmpty(b: Option<BaseState>): BaseState {
    if b.Some? then b.value else EMPTY_BASE
  }
}
