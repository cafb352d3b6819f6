/** Fractional ranks. */
module Rank {
  // A key strictly between two others, so a move is one write on one issue.

  import opened Documents
  import opened Order

  const BASE := 36

  predicate IsDigit(c: char) { '0' <= c <= '9' || 'a' <= c <= 'z' }

  /** A digit's value: decimal digits before letters, the order of a plain string comparison. */
  function Value(c: char): int {
    if '0' <= c <= '9' then c as int - '0' as int else c as int - 'a' as int + 10
  }

  function Digit(n: int): (c: char)
    requires 0 <= n < BASE
    ensures IsDigit(c) && Value(c) == n
  {
    if n < 10 then ('0' as int + n) as char else ('a' as int + n - 10) as char
  }

  lemma DigitsOrdered(c: char, d: char)
    requires IsDigit(c) && IsDigit(d)
    ensures 0 <= Value(c) < BASE && (c < d <==> Value(c) < Value(d)) && (c == d <==> Value(c) == Value(d))
  {
  }

  predicate Valid(key: string) { forall i :: 0 <= i < |key| ==> IsDigit(key[i]) }

  predicate Zeros(key: string) { forall i :: 0 <= i < |key| ==> key[i] == '0' }

  /** A key and the value of its digit at a position, or the fallback past its end. */
  function DigitAt(key: string, at: nat, fallback: int): int {
    if at < |key| then Value(key[at]) else fallback
  }

  function Rest(key: string): string { if key == "" then "" else key[1..] }

  /** The key between lo and hi, digit by digit; below says hi no longer bounds it. */
  function Mid(lo: string, hi: string, below: bool): (r: string)
    requires Valid(lo) && Valid(hi)
    ensures r != "" && Valid(r)
    decreases |lo| + |hi|
  {
    var low, high := DigitAt(lo, 0, 0), if below then BASE else DigitAt(hi, 0, BASE);
    if high - low > 1 then [Digit((low + high) / 2)]
    else [Digit(low)] + Mid(Rest(lo), Rest(hi), below || low < high)
  }

  datatype Result = Key(key: string) | BadDigit | NotBelow | NothingBelow

  /** Why two neighbours have no key between them, if the caller's order is at fault. */
  function Refusal(lo: string, hi: string): Option<Result> {
    if !Valid(lo) || !Valid(hi) then Some(BadDigit)
    else if lo != "" && hi != "" && !Less(lo, hi) then Some(NotBelow)
    else if hi != "" && Zeros(hi) then Some(NothingBelow)
    else None
  }

  function BetweenSpec(lo: string, hi: string): Result {
    if Refusal(lo, hi).Some? then Refusal(lo, hi).value else Key(Mid(lo, hi, hi == ""))
  }

  function From(key: string, at: nat): (rest: string)
    ensures Valid(key) ==> Valid(rest)
  {
    if at < |key| then key[at..] else ""
  }

  /** An empty lo means before everything, an empty hi after everything. */
  method Between(lo: string, hi: string) returns (r: Result)
    ensures r == BetweenSpec(lo, hi)
  {
    var valid := Check(lo);
    if valid {
      valid := Check(hi);
    }
    if !valid {
      return BadDigit;
    }
    if lo != "" && hi != "" && !Less(lo, hi) {
      return NotBelow;
    }
    if hi != "" && Zeros(hi) {
      return NothingBelow;
    }
    var key := Digits(lo, hi);
    r := Key(key);
  }

  /** One more digit of the key, given the digits so far. */
  lemma MidStep(out: string, lo: string, hi: string, at: nat, below: bool)
    requires Valid(lo) && Valid(hi)
    ensures var low, high := DigitAt(lo, at, 0), if below then BASE else DigitAt(hi, at, BASE);
            && 0 <= low < BASE
            && out + Mid(From(lo, at), From(hi, at), below)
               == if high - low > 1 then out + [Digit((low + high) / 2)]
                  else out + [Digit(low)] + Mid(From(lo, at + 1), From(hi, at + 1), below || low < high)
  {
    hide Mid, Valid;
    assert Rest(From(lo, at)) == From(lo, at + 1) && Rest(From(hi, at)) == From(hi, at + 1);
    assert DigitAt(lo, at, 0) == DigitAt(From(lo, at), 0, 0) && DigitAt(hi, at, BASE) == DigitAt(From(hi, at), 0, BASE);
    MidUnfolds(From(lo, at), From(hi, at), below);
  }

  lemma MidUnfolds(lo: string, hi: string, below: bool)
    requires Valid(lo) && Valid(hi)
    ensures var low, high := DigitAt(lo, 0, 0), if below then BASE else DigitAt(hi, 0, BASE);
            && 0 <= low < BASE
            && Mid(lo, hi, below) == if high - low > 1 then [Digit((low + high) / 2)]
                                     else [Digit(low)] + Mid(Rest(lo), Rest(hi), below || low < high)
  {
  }

  method Digits(lo: string, hi: string) returns (key: string)
    requires Valid(lo) && Valid(hi)
    ensures key == Mid(lo, hi, hi == "")
  {
    hide Mid, Valid;
    var out := "";
    var below := hi == "";
    var at := 0;
    while true
      invariant at == |out|
      invariant out + Mid(From(lo, at), From(hi, at), below) == Mid(lo, hi, hi == "")
      decreases |From(lo, at)| + |From(hi, at)|
    {
      MidStep(out, lo, hi, at, below);
      var low, high := DigitAt(lo, at, 0), BASE;
      if !below {
        high := DigitAt(hi, at, BASE);
      }
      if high - low > 1 {
        return out + [Digit((low + high) / 2)];
      }
      out := out + [Digit(low)];
      if low < high {
        below := true;
      }
      at := at + 1;
    }
  }

  method Check(key: string) returns (ok: bool)
    ensures ok == Valid(key)
  {
    for at := 0 to |key|
      invariant forall i :: 0 <= i < at ==> IsDigit(key[i])
    {
      if !IsDigit(key[at]) {
        return false;
      }
    }
    ok := true;
  }

  // ---- strictly between ----

  /** hi is lo followed only by zeros: nothing sorts between them. */
  predicate ZerosAfter(lo: string, hi: string) { lo <= hi && Zeros(hi[|lo|..]) }

  function Max(a: nat, b: nat): nat { if a < b then b else a }

  lemma {:induction false} MidBounds(lo: string, hi: string, below: bool)
    requires Valid(lo) && Valid(hi)
    requires below || Less(lo, hi) || lo == hi == ""
    ensures var r := Mid(lo, hi, below);
            && Less(lo, r) && (!below ==> (Less(r, hi) <==> !ZerosAfter(lo, hi)))
            && |r| <= Max(|lo|, |hi|) + 1 && r[|r| - 1] != '0'
    decreases |lo| + |hi|
  {
    var low, high := DigitAt(lo, 0, 0), if below then BASE else DigitAt(hi, 0, BASE);
    if lo != "" && hi != "" { DigitsOrdered(lo[0], hi[0]); }
    var r := Mid(lo, hi, below);
    DigitsOrdered('0', r[0]);
    if high - low > 1 {
      if lo != "" { DigitsOrdered(lo[0], r[0]); }
      if hi != "" { DigitsOrdered(r[0], hi[0]); }
    } else {
      var lo', hi', below' := Rest(lo), Rest(hi), below || low < high;
      if hi != "" { DigitsOrdered(Digit(low), hi[0]); }
      if lo != "" { DigitsOrdered(Digit(low), lo[0]); }
      MidBounds(lo', hi', below');
      assert r[1..] == Mid(lo', hi', below');
      if !below && low == high { ZerosAfterRest(lo, hi); }
    }
  }

  lemma ZerosAfterRest(lo: string, hi: string)
    requires hi != "" && (if lo == "" then hi[0] == '0' else lo[0] == hi[0])
    ensures ZerosAfter(lo, hi) <==> ZerosAfter(Rest(lo), Rest(hi))
  {
    if lo == "" {
      assert hi == [hi[0]] + hi[1..];
      assert Zeros(hi) <==> Zeros(hi[1..]) by {
        if Zeros(hi[1..]) {
          forall i | 0 <= i < |hi| ensures hi[i] == '0' { if i > 0 { assert hi[i] == hi[1..][i - 1]; } }
        }
      }
    } else {
      assert lo <= hi <==> lo[1..] <= hi[1..] by {
        assert lo == [lo[0]] + lo[1..] && hi == [hi[0]] + hi[1..];
        if lo[1..] <= hi[1..] { assert hi == lo + hi[1..][|lo| - 1..]; }
      }
      if lo <= hi { assert hi[|lo|..] == hi[1..][|lo| - 1..]; }
    }
  }

  /** The key is lo's digits, zeros past its end, and one more halfway to where the room ends: at hi's, as long as the digits are hi's. */
  ghost predicate Halves(lo: string, hi: string, below: bool, r: string) {
    && r != ""
    && var p := |r| - 1;
       var low, high := DigitAt(lo, p, 0), if !below && r[..p] <= hi then DigitAt(hi, p, BASE) else BASE;
       high - low > 1 && Value(r[p]) == (low + high) / 2 && forall i :: 0 <= i < p ==> Value(r[i]) == DigitAt(lo, i, 0)
  }

  lemma {:induction false} MidHalves(lo: string, hi: string, below: bool)
    requires Valid(lo) && Valid(hi)
    requires below || Less(lo, hi) || lo == hi == ""
    ensures Halves(lo, hi, below, Mid(lo, hi, below))
    decreases |lo| + |hi|
  {
    hide Halves;
    var low, high := DigitAt(lo, 0, 0), if below then BASE else DigitAt(hi, 0, BASE);
    if lo != "" && hi != "" { DigitsOrdered(lo[0], hi[0]); }
    var r := Mid(lo, hi, below);
    if high - low > 1 {
      FirstHalves(lo, hi, below);
    } else {
      var below' := below || low < high;
      if hi != "" { DigitsOrdered(Digit(low), hi[0]); }
      MidHalves(Rest(lo), Rest(hi), below');
      RestHalves(lo, hi, below, Digit(low), Mid(Rest(lo), Rest(hi), below'));
    }
  }

  lemma FirstHalves(lo: string, hi: string, below: bool)
    requires Valid(lo) && Valid(hi)
    requires var low, high := DigitAt(lo, 0, 0), if below then BASE else DigitAt(hi, 0, BASE); high - low > 1 && 0 <= low && high <= BASE
    ensures var low, high := DigitAt(lo, 0, 0), if below then BASE else DigitAt(hi, 0, BASE);
            Halves(lo, hi, below, [Digit((low + high) / 2)])
  {
    var low, high := DigitAt(lo, 0, 0), if below then BASE else DigitAt(hi, 0, BASE);
    assert [Digit((low + high) / 2)][..0] == [];
  }

  lemma RestHalves(lo: string, hi: string, below: bool, d: char, rest: string)
    requires Value(d) == DigitAt(lo, 0, 0)
    requires hi != "" && !below ==> (d == hi[0] <==> Value(d) == Value(hi[0])) && Value(d) <= Value(hi[0])
    requires var high := if below then BASE else DigitAt(hi, 0, BASE);
             high - Value(d) <= 1 && Value(d) < BASE && Halves(Rest(lo), Rest(hi), below || Value(d) < high, rest)
    ensures Halves(lo, hi, below, [d] + rest)
  {
    var r := [d] + rest;
    assert r[1..] == rest;
    RestDigits(lo, hi, r);
    assert forall i :: 1 <= i < |r| ==> r[i] == rest[i - 1];
  }

  lemma RestDigits(lo: string, hi: string, r: string)
    requires r != ""
    ensures forall i :: 1 <= i < |r| ==> DigitAt(lo, i, 0) == DigitAt(Rest(lo), i - 1, 0)
    ensures forall i :: 1 <= i < |r| ==> DigitAt(hi, i, BASE) == DigitAt(Rest(hi), i - 1, BASE)
    ensures |r| >= 2 && hi != "" ==> (r[..|r| - 1] <= hi <==> r[0] == hi[0] && r[1..][..|r| - 2] <= hi[1..])
    ensures |r| >= 2 && hi == "" ==> !(r[..|r| - 1] <= hi)
  {
    if |r| >= 2 && hi != "" {
      var p := |r| - 1;
      assert r[..p] == [r[0]] + r[1..][..p - 1] && hi == [hi[0]] + hi[1..];
      if r[0] == hi[0] && r[1..][..p - 1] <= hi[1..] { assert forall i :: 1 <= i < p ==> r[i] == r[1..][i - 1] && hi[i] == hi[1..][i - 1]; }
      if r[..p] <= hi { assert forall i :: 0 <= i < p ==> r[i] == hi[i]; }
    }
  }

  /**
   A key between two neighbours sorts strictly above lo, and strictly below hi exactly when hi
   is not lo followed only by zeros; it is at most one digit longer than the longer of them,
   never ends in a zero, and is lo's digits with one more halfway up the room there is.
   */
  lemma BetweenIsBetween(lo: string, hi: string)
    requires BetweenSpec(lo, hi).Key?
    ensures var r := BetweenSpec(lo, hi).key;
            && Valid(r) && Less(lo, r)
            && (hi != "" ==> (Less(r, hi) <==> !ZerosAfter(lo, hi)))
            && |r| <= Max(|lo|, |hi|) + 1 && r[|r| - 1] != '0' && Halves(lo, hi, hi == "", r)
  {
    hide Halves;
    MidBounds(lo, hi, hi == "");
    MidHalves(lo, hi, hi == "");
  }

  /** A key that an insert may leave in a list: it ends above zero. */
  ghost predicate Ends(key: string) { Valid(key) && key != "" && key[|key| - 1] != '0' }

  lemma {:induction false} NothingBelowZeros(key: string, hi: string)
    requires Zeros(hi) && Valid(key) && Less(key, hi)
    ensures Zeros(key)
  {
    if key != "" {
      DigitsOrdered(key[0], hi[0]);
      assert key[0] == '0' by { assert hi[0] == '0'; DigitsOrdered('0', key[0]); }
      NothingBelowZeros(key[1..], hi[1..]);
      forall i | 0 <= i < |key| ensures key[i] == '0' { if i > 0 { assert key[i] == key[1..][i - 1]; } }
    }
  }

  lemma {:induction false} SomethingBelow(hi: string) returns (key: string)
    requires Valid(hi) && !Zeros(hi)
    ensures Ends(key) && Less(key, hi)
  {
    if hi[0] == '0' {
      var rest := SomethingBelow(hi[1..]);
      key := ['0'] + rest;
      assert key[1..] == rest;
    } else {
      key := "01";
      DigitsOrdered('0', hi[0]);
    }
  }

  /**
   Two neighbours are refused exactly when one holds a character that is no digit, or both are
   there and lo is not below hi, or no key that ends above zero sorts below hi.
   */
  lemma RefusedExactly(lo: string, hi: string)
    ensures var r := BetweenSpec(lo, hi);
            && (r.BadDigit? <==> exists i :: (0 <= i < |lo| && !IsDigit(lo[i])) || (0 <= i < |hi| && !IsDigit(hi[i])))
            && (r.NotBelow? <==> Valid(lo) && Valid(hi) && lo != "" && hi != "" && !Less(lo, hi))
            && (r.NothingBelow? <==> && Valid(lo) && Valid(hi) && hi != "" && (lo == "" || Less(lo, hi))
                                     && forall key :: Ends(key) ==> !Less(key, hi))
  {
    if Valid(lo) && Valid(hi) && hi != "" {
      if Zeros(hi) {
        forall key | Ends(key) ensures !Less(key, hi) { if Less(key, hi) { NothingBelowZeros(key, hi); } }
      } else {
        var key := SomethingBelow(hi);
      }
    }
  }

  /** The neighbours that answer with a key above both. */
  lemma ZerosAfterFails()
    ensures BetweenSpec("a", "a0").Key? && Less("a0", BetweenSpec("a", "a0").key)
  {
    assert Mid("a", "a0", false) == "a" + Mid("", "0", false);
    assert Mid("", "0", false) == "0" + Mid("", "", false);
    assert Mid("", "", false) == "i";
    var r := "a0i";
    assert BetweenSpec("a", "a0") == Key(r);
    assert r[1..] == "0i" && "a0"[1..] == "0" && "0i"[1..] == "i" && "0"[1..] == "";
    assert Less("", "i") && Less("0", "0i");
  }

  // ---- a list kept by inserts ----

  /** A list in strict order, every key ending in a digit above zero. */
  ghost predicate Sound(keys: seq<string>) {
    Ascending(keys) && forall i :: 0 <= i < |keys| ==> Valid(keys[i]) && keys[i] != "" && keys[i][|keys[i]| - 1] != '0'
  }

  function Above(keys: seq<string>, at: nat): string
    requires at <= |keys|
  {
    if at == 0 then "" else keys[at - 1]
  }

  function Below(keys: seq<string>, at: nat): string
    requires at <= |keys|
  {
    if at == |keys| then "" else keys[at]
  }

  lemma SoundBounds(keys: seq<string>, at: nat)
    requires Sound(keys) && at <= |keys|
    ensures var lo, hi := Above(keys, at), Below(keys, at);
            Refusal(lo, hi).None? && (hi != "" ==> !ZerosAfter(lo, hi))
  {
    var lo, hi := Above(keys, at), Below(keys, at);
    if hi != "" {
      assert hi[|hi| - 1] != '0';
      assert |lo| < |hi| ==> hi[|lo|..][|hi| - 1 - |lo|] == hi[|hi| - 1];
      if lo == hi { LessAsymmetric(lo, hi); }
    }
  }

  /** An insert anywhere in a sound list has a key, and the list it makes is sound. */
  lemma InsertKeepsSound(keys: seq<string>, at: nat)
    requires Sound(keys) && at <= |keys|
    ensures var r := BetweenSpec(Above(keys, at), Below(keys, at));
            r.Key? && Sound(keys[..at] + [r.key] + keys[at..])
  {
    hide Halves;
    var lo, hi := Above(keys, at), Below(keys, at);
    SoundBounds(keys, at);
    BetweenIsBetween(lo, hi);
    var r := BetweenSpec(lo, hi).key;
    var after := keys[..at] + [r] + keys[at..];
    forall i | 0 <= i < at ensures Less(keys[i], r) {
      if i < at - 1 { LessTransitive(keys[i], lo, r); }
    }
    forall i | at <= i < |keys| ensures Less(r, keys[i]) {
      if at < i { LessTransitive(r, hi, keys[i]); }
    }
  }

  /** The list after inserts at the given positions (each taken within the list), if every one finds a key. */
  function Inserts(keys: seq<string>, ats: seq<nat>): Option<seq<string>>
    decreases |ats|
  {
    if ats == [] then Some(keys)
    else
      var at := if ats[0] <= |keys| then ats[0] else |keys|;
      var r := BetweenSpec(Above(keys, at), Below(keys, at));
      if r.Key? then Inserts(keys[..at] + [r.key] + keys[at..], ats[1..]) else None
  }

  /** Any sequence of inserts into an empty list succeeds and keeps the list strictly sorted. */
  lemma {:induction false} InsertsNeverFail(keys: seq<string>, ats: seq<nat>)
    requires Sound(keys)
    ensures Inserts(keys, ats).Some? && Sound(Inserts(keys, ats).value)
    ensures |Inserts(keys, ats).value| == |keys| + |ats|
    decreases |ats|
  {
    if ats != [] {
      var at := if ats[0] <= |keys| then ats[0] else |keys|;
      InsertKeepsSound(keys, at);
      var r := BetweenSpec(Above(keys, at), Below(keys, at));
      InsertsNeverFail(keys[..at] + [r.key] + keys[at..], ats[1..]);
    }
  }

  lemma EmptyListNeverFails(ats: seq<nat>)
    ensures Inserts([], ats).Some? && Ascending(Inserts([], ats).value) && |Inserts([], ats).value| == |ats|
  {
    InsertsNeverFail([], ats);
  }
}
