/**
 Rendering a label set, and reading it back (src/agents.rs, `render_labels`): a rendered
 set reads as itself, but for the space its values end with.
 */
module LabelRender {
  import opened LabelWire
  import opened Splitting
  import opened Wrappers

  // ---- key order ---------------------------------------------------------

  /** Whether `a` comes no later than `b`, compared a character at a time. */
  predicate AtMost(a: string, b: string) {
    a == "" || (b != "" && (a[0] < b[0] || (a[0] == b[0] && AtMost(a[1..], b[1..]))))
  }

  lemma {:induction false} AtMostIsTotal(a: string, b: string)
    ensures AtMost(a, b) || AtMost(b, a)
  {
    if a != "" && b != "" && a[0] == b[0] {
      AtMostIsTotal(a[1..], b[1..]);
    }
  }

  lemma {:induction false} AtMostIsStrict(a: string, b: string)
    requires AtMost(a, b) && AtMost(b, a)
    ensures a == b
  {
    if a != "" && b != "" {
      AtMostIsStrict(a[1..], b[1..]);
      assert a == [a[0]] + a[1..] && b == [b[0]] + b[1..];
    }
  }

  lemma {:induction false} AtMostJoins(a: string, b: string, c: string)
    requires AtMost(a, b) && AtMost(b, c)
    ensures AtMost(a, c)
  {
    if a != "" && a[0] == b[0] && b[0] == c[0] {
      AtMostJoins(a[1..], b[1..], c[1..]);
    }
  }

  ghost predicate IsLeast(keys: set<string>, key: string) {
    key in keys && forall other :: other in keys ==> AtMost(key, other)
  }

  lemma {:induction false} LeastExists(keys: set<string>)
    requires keys != {}
    ensures exists least :: IsLeast(keys, least)
    decreases |keys|
  {
    var one :| one in keys;
    AtMostIsTotal(one, one);
    if keys == {one} {
      assert IsLeast(keys, one);
    } else {
      LeastExists(keys - {one});
      var rest :| IsLeast(keys - {one}, rest);
      AtMostIsTotal(one, rest);
      LeastOfBoth(keys, one, rest);
    }
  }

  lemma LeastOfBoth(keys: set<string>, one: string, rest: string)
    requires one in keys && IsLeast(keys - {one}, rest) && AtMost(one, one) && (AtMost(one, rest) || AtMost(rest, one))
    ensures exists least :: IsLeast(keys, least)
  {
    var least := if AtMost(one, rest) then one else rest;
    forall other | other in keys ensures AtMost(least, other) {
      if other != one && least == one {
        AtMostJoins(one, rest, other);
      }
    }
    assert IsLeast(keys, least);
  }

  ghost function LeastOf(keys: set<string>): (least: string)
    requires keys != {}
    ensures IsLeast(keys, least)
  {
    LeastExists(keys);
    var least :| IsLeast(keys, least);
    least
  }

  /** A set of keys in order, each once. */
  ghost function InOrder(keys: set<string>): seq<string>
    decreases |keys|
  {
    if keys == {} then [] else [LeastOf(keys)] + InOrder(keys - {LeastOf(keys)})
  }

  // ---- rendering ---------------------------------------------------------

  ghost function PairsIn(labels: LabelSet, keys: seq<string>): seq<string>
    requires forall i :: 0 <= i < |keys| ==> keys[i] in labels
  {
    if keys == [] then [] else PairsIn(labels, keys[..|keys| - 1]) + [Pair(keys[|keys| - 1], labels[keys[|keys| - 1]])]
  }

  lemma {:induction false} InOrderIsAll(keys: set<string>)
    ensures forall i :: 0 <= i < |InOrder(keys)| ==> InOrder(keys)[i] in keys
    ensures |InOrder(keys)| == |keys|
    decreases |keys|
  {
    if keys != {} {
      InOrderIsAll(keys - {LeastOf(keys)});
    }
  }

  lemma {:induction false} InOrderHasAll(keys: set<string>, key: string)
    requires key in keys
    ensures key in InOrder(keys)
    decreases |keys|
  {
    if key != LeastOf(keys) {
      InOrderHasAll(keys - {LeastOf(keys)}, key);
    }
  }

  ghost function Rendered(labels: LabelSet): string {
    InOrderIsAll(labels.Keys);
    Join(PairsIn(labels, InOrder(labels.Keys)), ',')
  }

  /** A label set rendered: its pairs in key order. */
  method RenderLabels(labels: LabelSet) returns (text: string)
    ensures text == Rendered(labels)
  {
    InOrderIsAll(labels.Keys);
    ghost var order := InOrder(labels.Keys);
    var left, pairs: seq<string> := labels.Keys, [];
    ghost var done: seq<string> := [];
    while left != {}
      invariant left <= labels.Keys && order == done + InOrder(left)
      invariant forall i :: 0 <= i < |done| ==> done[i] in labels
      invariant pairs == PairsIn(labels, done)
      decreases left
    {
      LeastExists(left);
      var least :| least in left && forall other :: other in left ==> AtMost(least, other);
      AtMostIsStrict(least, LeastOf(left));
      ghost var next := done + [least];
      assert next[..|done|] == done;
      assert done + ([least] + InOrder(left - {least})) == next + InOrder(left - {least});
      pairs := pairs + [Pair(least, labels[least])];
      done, left := next, left - {least};
    }
    assert done + [] == done;
    text := Join(pairs, ',');
  }

  // ---- reading back ------------------------------------------------------

  ghost predicate AnyBlank(labels: LabelSet, keys: seq<string>)
    requires forall i :: 0 <= i < |keys| ==> keys[i] in labels
  {
    exists i :: 0 <= i < |keys| && Blank(labels[keys[i]])
  }

  function TrimmedAt(labels: LabelSet, keys: seq<string>): LabelSet
    requires forall i :: 0 <= i < |keys| ==> keys[i] in labels
  {
    if keys == [] then map[]
    else TrimmedAt(labels, keys[..|keys| - 1])[keys[|keys| - 1] := TrimEnd(labels[keys[|keys| - 1]])]
  }

  lemma {:induction false} PairsRead(labels: LabelSet, keys: seq<string>, rule: KeyRule)
    requires OnTheWire(rule) && Readable(labels, rule) && forall i :: 0 <= i < |keys| ==> keys[i] in labels
    ensures ReadPairs(PairsIn(labels, keys), rule) == if AnyBlank(labels, keys) then Err(BadValue)
      else Ok(TrimmedAt(labels, keys))
  {
    if keys != [] {
      var front, last := keys[..|keys| - 1], keys[|keys| - 1];
      PairsRead(labels, front, rule);
      BlankAmong(labels, keys, front, last);
      LastPairReads(labels, last, PairsIn(labels, front), PairsIn(labels, keys), rule);
    }
  }

  lemma LastPairReads(labels: LabelSet, last: string, front: seq<string>, pairs: seq<string>, rule: KeyRule)
    requires OnTheWire(rule) && Readable(labels, rule) && last in labels && pairs == front + [Pair(last, labels[last])]
    ensures ReadPairs(front, rule).Err? ==> ReadPairs(pairs, rule) == ReadPairs(front, rule)
    ensures ReadPairs(front, rule).Ok? ==>
              ReadPairs(pairs, rule) ==
              if Blank(labels[last]) then Err(BadValue)
              else Ok(ReadPairs(front, rule).value[last := TrimEnd(labels[last])])
  {
    PairReads(last, labels[last], rule);
    ReadPairsNext(front, Pair(last, labels[last]), pairs, rule);
  }

  lemma ReadPairsNext(front: seq<string>, last: string, pairs: seq<string>, rule: KeyRule)
    requires pairs == front + [last]
    ensures ReadPairs(front, rule).Err? ==> ReadPairs(pairs, rule) == ReadPairs(front, rule)
    ensures ReadPairs(front, rule).Ok? && ReadPair(Trim(last), rule).Err? ==>
      ReadPairs(pairs, rule) == Err(ReadPair(Trim(last), rule).error)
    ensures ReadPairs(front, rule).Ok? && ReadPair(Trim(last), rule).Ok? ==>
              var pair := ReadPair(Trim(last), rule).value;
              ReadPairs(pairs, rule) == Ok(ReadPairs(front, rule).value[pair.0 := pair.1])
  {
    assert pairs[..|pairs| - 1] == front && pairs[|pairs| - 1] == last;
  }

  lemma BlankAmong(labels: LabelSet, keys: seq<string>, front: seq<string>, last: string)
    requires keys == front + [last] && forall i :: 0 <= i < |keys| ==> keys[i] in labels
    requires last in labels && forall i :: 0 <= i < |front| ==> front[i] in labels
    ensures AnyBlank(labels, keys) <==> AnyBlank(labels, front) || Blank(labels[last])
  {
    if AnyBlank(labels, front) {
      var i :| 0 <= i < |front| && Blank(labels[front[i]]);
      assert keys[i] == front[i];
    }
    assert keys[|front|] == last;
  }

  lemma {:induction false} TrimmedIs(labels: LabelSet, keys: seq<string>)
    requires forall i :: 0 <= i < |keys| ==> keys[i] in labels
    ensures forall key :: key in TrimmedAt(labels, keys) <==> key in keys
    ensures forall key :: key in TrimmedAt(labels, keys) ==>
      key in labels && TrimmedAt(labels, keys)[key] == TrimEnd(labels[key])
  {
    if keys != [] {
      TrimmedIs(labels, keys[..|keys| - 1]);
      assert keys == keys[..|keys| - 1] + [keys[|keys| - 1]];
    }
  }

  /** Reading trims each pair anyway, so what the whole text was trimmed of is no matter. */
  lemma TrimmedLastReads(pairs: seq<string>, rule: KeyRule, trimmed: seq<string>)
    requires pairs != [] && pairs[|pairs| - 1] != "" && !Space(pairs[|pairs| - 1][0])
    requires trimmed == pairs[|pairs| - 1 := TrimEnd(pairs[|pairs| - 1])]
    ensures ReadPairs(trimmed, rule) == ReadPairs(pairs, rule)
  {
    var last := pairs[|pairs| - 1];
    TrimEndKeepsTo(last, 0);
    assert trimmed[..|trimmed| - 1] == pairs[..|pairs| - 1];
    TrimTwice(last);
  }

  lemma TrimTwice(last: string)
    requires last != "" && !Space(last[0]) && TrimEnd(last) != ""
    ensures Trim(TrimEnd(last)) == Trim(last)
  {
    assert TrimEnd(last)[0] == last[0];
  }

  lemma JoinTrims(pairs: seq<string>, trimmed: seq<string>)
    requires pairs != [] && TrimEnd(pairs[|pairs| - 1]) != ""
    requires trimmed == pairs[|pairs| - 1 := TrimEnd(pairs[|pairs| - 1])]
    ensures TrimEnd(Join(pairs, ',')) == Join(trimmed, ',')
  {
    if |pairs| > 1 {
      assert trimmed[..|trimmed| - 1] == pairs[..|pairs| - 1];
      TrimEndJoined(Join(pairs[..|pairs| - 1], ',') + ",", pairs[|pairs| - 1], Join(pairs, ','));
    }
  }

  ghost predicate Whole(pairs: seq<string>) {
    && Without(pairs, ',')
    && forall i :: 0 <= i < |pairs| ==> pairs[i] != "" && !Space(pairs[i][0])
  }

  /** A text of whole pairs parses as its pairs do. */
  lemma JoinedParses(pairs: seq<string>, rule: KeyRule)
    requires pairs != [] && Whole(pairs)
    ensures Parse(Join(pairs, ','), rule) == ReadPairs(pairs, rule)
  {
    var last := pairs[|pairs| - 1];
    var trimmed := pairs[|pairs| - 1 := TrimEnd(last)];
    JoinStarts(pairs, ',');
    TrimEndKeepsTo(last, 0);
    JoinTrims(pairs, trimmed);
    TrimmedLastReads(pairs, rule, trimmed);
    CommasTrim(pairs, trimmed);
    SplitJoin(trimmed, ',');
    assert trimmed[0] != "";
    JoinStarts(trimmed, ',');
  }

  lemma CommasTrim(pairs: seq<string>, trimmed: seq<string>)
    requires pairs != [] && Without(pairs, ',') && trimmed == pairs[|pairs| - 1 := TrimEnd(pairs[|pairs| - 1])]
    ensures Without(trimmed, ',')
  {
  }

  lemma {:induction false} PairsAreWhole(labels: LabelSet, keys: seq<string>, rule: KeyRule)
    requires OnTheWire(rule) && Readable(labels, rule) && NoCommaIn(labels)
    requires forall i :: 0 <= i < |keys| ==> keys[i] in labels
    ensures |PairsIn(labels, keys)| == |keys| && Whole(PairsIn(labels, keys))
  {
    if keys != [] {
      PairsAreWhole(labels, keys[..|keys| - 1], rule);
      PairIsWhole(keys[|keys| - 1], labels[keys[|keys| - 1]], rule);
    }
  }

  lemma PairIsWhole(key: string, value: string, rule: KeyRule)
    requires OnTheWire(rule) && rule(key) && ',' !in value
    ensures Pair(key, value) != "" && !Space(Pair(key, value)[0]) && ',' !in Pair(key, value)
  {
    assert Pair(key, value)[0] == key[0];
  }

  ghost predicate NoCommaIn(labels: LabelSet) {
    forall key :: key in labels ==> ',' !in labels[key]
  }

  ghost predicate NoneBlank(labels: LabelSet) {
    forall key :: key in labels ==> !Blank(labels[key])
  }

  function Trimmed(labels: LabelSet): LabelSet {
    map key | key in labels :: TrimEnd(labels[key])
  }

  /** A rendered set reads back, its values' trailing space gone, exactly where no value is all space. */
  lemma RenderedParses(labels: LabelSet, rule: KeyRule)
    requires OnTheWire(rule) && Readable(labels, rule) && NoCommaIn(labels) && labels != map[]
    ensures Parse(Rendered(labels), rule) == if NoneBlank(labels) then Ok(Trimmed(labels)) else Err(BadValue)
  {
    var keys := InOrder(labels.Keys);
    InOrderIsAll(labels.Keys);
    PairsAreWhole(labels, keys, rule);
    assert labels.Keys != {};
    JoinedParses(PairsIn(labels, keys), rule);
    PairsRead(labels, keys, rule);
    OrderedIsAll(labels, keys);
  }

  lemma OrderedIsAll(labels: LabelSet, keys: seq<string>)
    requires keys == InOrder(labels.Keys) && forall i :: 0 <= i < |keys| ==> keys[i] in labels
    ensures AnyBlank(labels, keys) <==> !NoneBlank(labels)
    ensures TrimmedAt(labels, keys) == Trimmed(labels)
  {
    TrimmedIs(labels, keys);
    forall key | key in labels ensures key in keys {
      InOrderHasAll(labels.Keys, key);
    }
    BlankIsAmong(labels, keys);
  }

  lemma BlankIsAmong(labels: LabelSet, keys: seq<string>)
    requires forall i :: 0 <= i < |keys| ==> keys[i] in labels
    requires forall key :: key in labels ==> key in keys
    ensures AnyBlank(labels, keys) <==> !NoneBlank(labels)
  {
    if !NoneBlank(labels) {
      var key :| key in labels && Blank(labels[key]);
      var i :| 0 <= i < |keys| && keys[i] == key;
      assert Blank(labels[keys[i]]);
    }
  }

  /** So a set none of whose values ends in space reads back as itself, and no other does. */
  lemma RoundTripsExactly(labels: LabelSet, rule: KeyRule)
    requires OnTheWire(rule) && Readable(labels, rule) && NoCommaIn(labels) && labels != map[]
    ensures Parse(Rendered(labels), rule) == Ok(labels) <==>
      forall key :: key in labels ==> !Space(labels[key][|labels[key]| - 1])
  {
    RenderedParses(labels, rule);
    TrimmedIsSame(labels, rule);
  }

  lemma TrimmedIsSame(labels: LabelSet, rule: KeyRule)
    requires Readable(labels, rule)
    ensures NoneBlank(labels) && Trimmed(labels) == labels <==>
      forall key :: key in labels ==> !Space(labels[key][|labels[key]| - 1])
  {
    if forall key :: key in labels ==> !Space(labels[key][|labels[key]| - 1]) {
      assert Trimmed(labels) == labels;
    }
    if Trimmed(labels) == labels {
      forall key | key in labels ensures !Space(labels[key][|labels[key]| - 1]) {
        assert Trimmed(labels)[key] == labels[key];
      }
    }
  }
}
