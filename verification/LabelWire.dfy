/**
 The wire format of a label set (src/agents.rs, `render_labels`, and the parse
 `compose_labels` begins with): pairs written with `=`, joined by commas.
 */
module LabelWire {
  import opened Splitting
  import opened Wrappers

  type LabelSet = map<string, string>

  /** Which keys the label grammar takes; what a rule has to refuse is `OnTheWire`. */
  type KeyRule = string -> bool

  /** What Unicode calls white space, which is what trimming takes off. */
  predicate Space(c: char) {
    var code := c as int;
    || 0x9 <= code <= 0xD || code == 0x20 || code == 0x85 || code == 0xA0 || code == 0x1680 || 0x2000 <= code <= 0x200A
    || code == 0x2028 || code == 0x2029 || code == 0x202F || code == 0x205F || code == 0x3000
  }

  predicate Control(c: char) {
    (c as int) < 0x20 || 0x7F <= (c as int) <= 0x9F
  }

  /** A value the grammar takes: from 1 to 256 characters, none of them a control. */
  predicate GoodValue(value: string) {
    0 < |value| <= 256 && forall i :: 0 <= i < |value| ==> !Control(value[i])
  }

  /** A value the grammar takes, by its length and where its characters lie: no C0 control, no DEL and no C1 control. */
  lemma WhatAValueIs(value: string)
    ensures GoodValue(value) <==>
      && value != "" && |value| < 257
      && forall c :: c in value ==> c as int / 0x20 != 0 && c as int / 0x20 != 4 && c as int != 0x7F
  {
    forall i | 0 <= i < |value|
      ensures value[i] in value
      ensures Control(value[i]) <==>
        value[i] as int / 0x20 == 0 || value[i] as int / 0x20 == 4 || value[i] as int == 0x7F
    {
    }
  }

  /** The twenty-five characters Unicode gives the property White_Space. */
  const WHITE_SPACE: set<int> := {
    0x9, 0xA, 0xB, 0xC, 0xD, 0x20, 0x85, 0xA0, 0x1680, 0x2000, 0x2001, 0x2002, 0x2003, 0x2004, 0x2005, 0x2006, 0x2007,
    0x2008, 0x2009, 0x200A, 0x2028, 0x2029, 0x202F, 0x205F, 0x3000
  }

  lemma WhatASpaceIs(c: char)
    ensures Space(c) <==> c as int in WHITE_SPACE
  {
  }

  /** A rule for keys the wire format can carry: a key starts with no space and holds none of its marks. */
  ghost predicate OnTheWire(rule: KeyRule) {
    forall key :: rule(key) ==> key != "" && !Space(key[0]) && '=' !in key && ',' !in key
  }

  function TrimStart(s: string): string {
    if s != "" && Space(s[0]) then TrimStart(s[1..]) else s
  }

  function TrimEnd(s: string): (trimmed: string)
    ensures trimmed <= s && (trimmed != "" ==> !Space(trimmed[|trimmed| - 1]))
  {
    if s != "" && Space(s[|s| - 1]) then TrimEnd(s[..|s| - 1]) else s
  }

  function Trim(s: string): string {
    TrimEnd(TrimStart(s))
  }

  ghost predicate AllSpace(s: string) {
    forall i :: 0 <= i < |s| ==> Space(s[i])
  }

  /** Trimming takes off the space a text starts and ends with, all of it, and nothing else. */
  lemma TrimsBothEnds(s: string) returns (lead: string, trail: string)
    ensures s == lead + Trim(s) + trail && AllSpace(lead) && AllSpace(trail)
    ensures Trim(s) != "" ==> !Space(Trim(s)[0]) && !Space(Trim(s)[|Trim(s)| - 1])
  {
    lead := TrimsTheStart(s);
    trail := TrimsTheEnd(TrimStart(s));
  }

  lemma {:induction false} TrimsTheStart(s: string) returns (lead: string)
    ensures s == lead + TrimStart(s) && AllSpace(lead) && (TrimStart(s) != "" ==> !Space(TrimStart(s)[0]))
  {
    lead := "";
    if s != "" && Space(s[0]) {
      var rest := TrimsTheStart(s[1..]);
      lead := [s[0]] + rest;
      assert s == [s[0]] + s[1..];
    }
  }

  lemma {:induction false} TrimsTheEnd(s: string) returns (trail: string)
    ensures s == TrimEnd(s) + trail && AllSpace(trail)
  {
    trail := "";
    if s != "" && Space(s[|s| - 1]) {
      var front := s[..|s| - 1];
      var rest := TrimsTheEnd(front);
      trail := rest + [s[|s| - 1]];
      assert s == front + [s[|s| - 1]];
    }
  }

  predicate Blank(s: string) {
    TrimEnd(s) == ""
  }

  // ---- trimming ----------------------------------------------------------

  lemma {:induction false} TrimEndJoined(a: string, b: string, whole: string)
    requires whole == a + b && TrimEnd(b) != ""
    ensures TrimEnd(whole) == a + TrimEnd(b)
    decreases |b|
  {
    if Space(b[|b| - 1]) {
      var less, front := b[..|b| - 1], whole[..|whole| - 1];
      assert front == a + less && whole[|whole| - 1] == b[|b| - 1];
      TrimEndJoined(a, less, front);
    } else {
      assert whole[|whole| - 1] == b[|b| - 1];
    }
  }

  /** What trimming takes off a text is space alone. */
  lemma {:induction false} TrimEndKeepsTo(s: string, i: nat)
    requires i < |s| && !Space(s[i])
    ensures |TrimEnd(s)| > i
  {
    if Space(s[|s| - 1]) {
      TrimEndKeepsTo(s[..|s| - 1], i);
    }
  }

  lemma TrimmedIsGood(value: string)
    requires GoodValue(value) && !Blank(value)
    ensures GoodValue(TrimEnd(value))
  {
    assert forall i :: 0 <= i < |TrimEnd(value)| ==> TrimEnd(value)[i] == value[i];
  }

  // ---- one pair ----------------------------------------------------------

  function Pair(key: string, value: string): string {
    key + "=" + value
  }

  /** Where a pair's key ends: at its first `=`, or nowhere. */
  function KeyEnd(pair: string): (end: Option<nat>)
    ensures end.Some? ==> end.value < |pair|
  {
    if pair == "" then None
    else if pair[0] == '=' then Some(0)
    else match KeyEnd(pair[1..]) case None => None case Some(end) => Some(end + 1)
  }

  lemma {:induction false} KeyEndIs(key: string, value: string, pair: string)
    requires '=' !in key && pair == key + "=" + value
    ensures KeyEnd(pair) == Some(|key|)
  {
    if key != "" {
      assert key[0] in key && pair[1..] == key[1..] + "=" + value;
      KeyEndIs(key[1..], value, pair[1..]);
    }
  }

  datatype Malformed = NoEquals | BadKey | BadValue

  function ReadPair(pair: string, rule: KeyRule): Result<(string, string), Malformed> {
    match KeyEnd(pair)
    case None => Err(NoEquals)
    case Some(end) =>
      if !rule(pair[..end]) then Err(BadKey)
      else if !GoodValue(pair[end + 1..]) then Err(BadValue)
      else Ok((pair[..end], pair[end + 1..]))
  }

  /** A pair reads as what is before its first `=` and what is after, where the grammar takes both. */
  lemma ReadsAtTheFirstEquals(key: string, value: string, pair: string, rule: KeyRule)
    requires '=' !in key && pair == key + "=" + value
    ensures ReadPair(pair, rule) ==
      if !rule(key) then Err(BadKey) else if !GoodValue(value) then Err(BadValue) else Ok((key, value))
  {
    KeyEndIs(key, value, pair);
    assert pair[..|key|] == key && pair[|key| + 1..] == value;
  }

  lemma {:induction false} NoEqualsIsRefused(pair: string, rule: KeyRule)
    requires '=' !in pair
    ensures ReadPair(pair, rule) == Err(NoEquals)
  {
    if pair != "" {
      assert pair[0] in pair;
      NoEqualsIsRefused(pair[1..], rule);
    }
  }

  /** Every pair read into one set, the last of a key repeated. */
  function ReadPairs(pairs: seq<string>, rule: KeyRule): Result<LabelSet, Malformed> {
    if pairs == [] then Ok(map[])
    else
      match ReadPairs(pairs[..|pairs| - 1], rule)
      case Err(why) => Err(why)
      case Ok(labels) =>
        match ReadPair(Trim(pairs[|pairs| - 1]), rule)
        case Err(why) => Err(why)
        case Ok(pair) => Ok(labels[pair.0 := pair.1])
  }

  /** What a label set inherited as `text` reads as: nothing where it is blank. */
  function Parse(text: string, rule: KeyRule): Result<LabelSet, Malformed> {
    if Trim(text) == "" then Ok(map[]) else ReadPairs(Split(Trim(text), ','), rule)
  }

  ghost predicate Readable(labels: LabelSet, rule: KeyRule) {
    forall key :: key in labels ==> rule(key) && GoodValue(labels[key])
  }

  /** A trimmed pair reads as its key, and its value with the space taken off its end. */
  lemma PairReads(key: string, value: string, rule: KeyRule)
    requires OnTheWire(rule) && rule(key) && GoodValue(value)
    ensures ReadPair(Trim(Pair(key, value)), rule) == if Blank(value) then Err(BadValue) else Ok((key, TrimEnd(value)))
  {
    var pair, trimmed := Pair(key, value), Pair(key, TrimEnd(value));
    assert pair[0] == key[0];
    PairTrims(key, value, pair);
    PairSplits(key, TrimEnd(value), trimmed);
    if !Blank(value) {
      TrimmedIsGood(value);
    }
  }

  lemma PairSplits(key: string, value: string, pair: string)
    requires '=' !in key && pair == key + "=" + value
    ensures KeyEnd(pair) == Some(|key|) && pair[..|key|] == key && pair[|key| + 1..] == value
  {
    KeyEndIs(key, value, pair);
  }

  lemma PairTrims(key: string, value: string, pair: string)
    requires pair == key + "=" + value
    ensures TrimEnd(pair) == key + "=" + TrimEnd(value)
  {
    if Blank(value) {
      BlankIsTrimmedOff(key + "=", value, pair);
      assert (key + "=")[|key|] == '=';
      assert key + "=" + "" == key + "=";
    } else {
      TrimEndJoined(key + "=", value, pair);
    }
  }

  lemma {:induction false} BlankIsTrimmedOff(a: string, blank: string, whole: string)
    requires whole == a + blank && Blank(blank) && a != "" && !Space(a[|a| - 1])
    ensures TrimEnd(whole) == a
    decreases |blank|
  {
    if blank == "" {
      assert whole == a;
    } else {
      var less, front := blank[..|blank| - 1], whole[..|whole| - 1];
      assert whole[|whole| - 1] == blank[|blank| - 1] && front == a + less;
      BlankIsTrimmedOff(a, less, front);
    }
  }
}
