/**
 Labels composed for a launch (src/agents.rs, `compose_labels`): what a repository stamped
 stands, the engine's own keys are the launch's, and a launch under a launch starts over.
 */
module Labels {
  import opened LabelRender
  import opened LabelWire
  import opened Splitting
  import opened Wrappers

  const PREFIX := "onepipeline."
  const RUN_ID := "onepipeline.run_id"
  const PROJECT := "onepipeline.project"
  const SCOPE := "onepipeline.scope"
  const NODE := "onepipeline.node"
  const STEP := "onepipeline.step"
  const ATTEMPT := "onepipeline.attempt"

  datatype Launched =
    | Node(node: string, step: Option<string>, attempt: string)
    | Observer
    | PrAuthor(node: string, attempt: string)
    | ReviewReply(node: string, attempt: string)

  datatype Stamp = Stamp(run: string, project: Option<string>, launched: Launched)

  function ScopeOf(launched: Launched): string {
    match launched
    case Node(_, _, _) => "node"
    case Observer => "observer"
    case PrAuthor(_, _) => "pr-author"
    case ReviewReply(_, _) => "review-reply"
  }

  function LaunchedPairs(launched: Launched): seq<(string, string)> {
    match launched
    case Node(node, step, attempt) =>
      [(NODE, node)] + (if step.Some? then [(STEP, step.value)] else []) + [(ATTEMPT, attempt)]
    case Observer => []
    case PrAuthor(node, attempt) => [(NODE, node), (ATTEMPT, attempt)]
    case ReviewReply(node, attempt) => [(NODE, node), (ATTEMPT, attempt)]
  }

  /** What a launch is told apart by: its scope's word, and its node, step and attempt where it has them. */
  datatype Words = Words(scope: string, node: Option<string>, step: Option<string>, attempt: Option<string>)

  ghost function WordsOf(launched: Launched): Words {
    match launched
    case Node(node, step, attempt) => Words("node", Some(node), step, Some(attempt))
    case Observer => Words("observer", None, None, None)
    case PrAuthor(node, attempt) => Words("pr-author", Some(node), None, Some(attempt))
    case ReviewReply(node, attempt) => Words("review-reply", Some(node), None, Some(attempt))
  }

  ghost predicate KeysDistinct(pairs: seq<(string, string)>) {
    forall i, j :: 0 <= i < j < |pairs| ==> pairs[i].0 != pairs[j].0
  }

  /** Whether `key` is among the pairs with this value, or not at all. */
  ghost predicate Stamped(pairs: seq<(string, string)>, key: string, value: Option<string>) {
    match value
    case Some(value) =>
      (key, value) in pairs && forall i :: 0 <= i < |pairs| && pairs[i].0 == key ==> pairs[i].1 == value
    case None => forall i :: 0 <= i < |pairs| ==> pairs[i].0 != key
  }

  /** Whether pairs say of a launch what its words are, each under its key. */
  ghost predicate TellsOf(pairs: seq<(string, string)>, words: Words) {
    && Stamped(pairs, "onepipeline.scope", Some(words.scope)) && Stamped(pairs, "onepipeline.node", words.node)
    && Stamped(pairs, "onepipeline.step", words.step) && Stamped(pairs, "onepipeline.attempt", words.attempt)
  }

  /** The engine's own pairs for one launch: each key once, and only those that launch carries. */
  method Pairs(stamp: Stamp) returns (pairs: seq<(string, string)>)
    ensures pairs == PairsOf(stamp)
    ensures Engines(pairs) && KeysDistinct(pairs)
    ensures Stamped(pairs, RUN_ID, Some(stamp.run)) && Stamped(pairs, PROJECT, stamp.project)
    ensures TellsOf(pairs, WordsOf(stamp.launched))
  {
    StampsAreTheEngines(stamp);
    PairsAreWhatTheyAre(stamp);
    pairs := [(RUN_ID, stamp.run), (SCOPE, ScopeOf(stamp.launched))];
    if stamp.project.Some? {
      pairs := pairs + [(PROJECT, stamp.project.value)];
    }
    pairs := pairs + LaunchedPairs(stamp.launched);
  }

  function PairsOf(stamp: Stamp): seq<(string, string)> {
    FramePairs(stamp.run, ScopeOf(stamp.launched), stamp.project) + LaunchedPairs(stamp.launched)
  }

  predicate IsEngine(key: string) {
    PREFIX <= key
  }

  predicate Engines(pairs: seq<(string, string)>) {
    forall i :: 0 <= i < |pairs| ==> IsEngine(pairs[i].0)
  }

  lemma StampsAreTheEngines(stamp: Stamp)
    ensures Engines(PairsOf(stamp))
  {
    assert IsEngine(RUN_ID) && IsEngine(SCOPE) && IsEngine(PROJECT) && IsEngine(NODE) && IsEngine(STEP) &&
      IsEngine(ATTEMPT);
  }

  lemma KeysDiffer()
    ensures RUN_ID != SCOPE && RUN_ID != PROJECT && RUN_ID != NODE && RUN_ID != STEP && RUN_ID != ATTEMPT
    ensures SCOPE != PROJECT && SCOPE != NODE && SCOPE != STEP && SCOPE != ATTEMPT
    ensures PROJECT != NODE && PROJECT != STEP && PROJECT != ATTEMPT
    ensures NODE != STEP && NODE != ATTEMPT && STEP != ATTEMPT
  {
    assert RUN_ID[12] == 'r' && SCOPE[12] == 's' && PROJECT[12] == 'p' && NODE[12] == 'n' && STEP[12] == 's' &&
      ATTEMPT[12] == 'a';
    assert SCOPE[13] == 'c' && STEP[13] == 't';
  }

  /** Pairs whose keys are each once say of a key what the one pair under it says. */
  lemma StampedAt(pairs: seq<(string, string)>, i: nat)
    requires i < |pairs| && KeysDistinct(pairs)
    ensures Stamped(pairs, pairs[i].0, Some(pairs[i].1))
  {
    assert (pairs[i].0, pairs[i].1) == pairs[i];
  }

  /** Two runs of pairs joined: what each says, where they share no key. */
  lemma JoinedPairs(front: seq<(string, string)>, back: seq<(string, string)>)
    requires KeysDistinct(front) && KeysDistinct(back)
    requires forall i, j :: 0 <= i < |front| && 0 <= j < |back| ==> front[i].0 != back[j].0
    ensures KeysDistinct(front + back)
  {
  }

  lemma StampedInFront(front: seq<(string, string)>, back: seq<(string, string)>, key: string, value: Option<string>)
    requires Stamped(front, key, value) && Stamped(back, key, None)
    ensures Stamped(front + back, key, value) && Stamped(back + front, key, value)
  {
    if value.Some? {
      var i :| 0 <= i < |front| && front[i] == (key, value.value);
      assert (front + back)[i] == front[i] && (back + front)[|back| + i] == front[i];
    }
  }

  /** What a launch adds of its own: its node, its step and its attempt where it has them. */
  lemma LaunchedPairsAre(launched: Launched)
    ensures var pairs := LaunchedPairs(launched);
      && KeysDistinct(pairs)
      && Stamped(pairs, NODE, WordsOf(launched).node) && Stamped(pairs, ATTEMPT, WordsOf(launched).attempt)
      && Stamped(pairs, STEP, WordsOf(launched).step)
      && Stamped(pairs, RUN_ID, None) && Stamped(pairs, PROJECT, None) && Stamped(pairs, SCOPE, None)
  {
    KeysDiffer();
    var pairs := LaunchedPairs(launched);
    if !launched.Observer? {
      assert pairs[0] == (NODE, launched.node) && pairs[|pairs| - 1] == (ATTEMPT, launched.attempt);
      assert launched.Node? && launched.step.Some? ==> pairs[1] == (STEP, launched.step.value);
    }
  }

  lemma HeadPairsAre(run: string, scope: string)
    ensures var pairs := [(RUN_ID, run), (SCOPE, scope)];
      && KeysDistinct(pairs) && Stamped(pairs, RUN_ID, Some(run)) && Stamped(pairs, SCOPE, Some(scope))
      && Stamped(pairs, PROJECT, None)
      && Stamped(pairs, NODE, None) && Stamped(pairs, STEP, None) && Stamped(pairs, ATTEMPT, None)
  {
    KeysDiffer();
    var pairs := [(RUN_ID, run), (SCOPE, scope)];
    StampedAt(pairs, 0);
    StampedAt(pairs, 1);
  }

  /** The pairs every launch has: its run's, its scope's and its project's where it has one. */
  function FramePairs(run: string, scope: string, project: Option<string>): seq<(string, string)> {
    [(RUN_ID, run), (SCOPE, scope)] + (if project.Some? then [(PROJECT, project.value)] else [])
  }

  lemma FramePairsAre(run: string, scope: string, project: Option<string>)
    ensures var pairs := FramePairs(run, scope, project);
      && KeysDistinct(pairs) && Stamped(pairs, RUN_ID, Some(run)) && Stamped(pairs, SCOPE, Some(scope))
      && Stamped(pairs, PROJECT, project)
      && Stamped(pairs, NODE, None) && Stamped(pairs, STEP, None) && Stamped(pairs, ATTEMPT, None)
  {
    KeysDiffer();
    HeadPairsAre(run, scope);
    var head, pairs := [(RUN_ID, run), (SCOPE, scope)], FramePairs(run, scope, project);
    if project.Some? {
      assert pairs[2] == (PROJECT, project.value) && pairs[0] == head[0] && pairs[1] == head[1];
      StampedAt(pairs, 0);
      StampedAt(pairs, 1);
      StampedAt(pairs, 2);
    } else {
      assert pairs == head;
    }
  }

  lemma ApartAreDistinct(frame: seq<(string, string)>, launched: Launched)
    requires KeysDistinct(frame)
    requires Stamped(frame, NODE, None) && Stamped(frame, STEP, None) && Stamped(frame, ATTEMPT, None)
    ensures KeysDistinct(frame + LaunchedPairs(launched))
  {
    LaunchedPairsAre(launched);
    JoinedPairs(frame, LaunchedPairs(launched));
  }

  lemma PairsAreWhatTheyAre(stamp: Stamp)
    ensures var pairs := PairsOf(stamp);
      && KeysDistinct(pairs)
      && Stamped(pairs, RUN_ID, Some(stamp.run)) && Stamped(pairs, PROJECT, stamp.project)
      && Stamped(pairs, SCOPE, Some(ScopeOf(stamp.launched)))
      && Stamped(pairs, NODE, WordsOf(stamp.launched).node) && Stamped(pairs, ATTEMPT, WordsOf(stamp.launched).attempt)
      && Stamped(pairs, STEP, WordsOf(stamp.launched).step)
  {
    var frame, own := FramePairs(stamp.run, ScopeOf(stamp.launched), stamp.project), LaunchedPairs(stamp.launched);
    FramePairsAre(stamp.run, ScopeOf(stamp.launched), stamp.project);
    LaunchedPairsAre(stamp.launched);
    ApartAreDistinct(frame, stamp.launched);
    StampedInFront(frame, own, RUN_ID, Some(stamp.run));
    StampedInFront(frame, own, PROJECT, stamp.project);
    StampedInFront(frame, own, SCOPE, Some(ScopeOf(stamp.launched)));
    StampedInFront(own, frame, NODE, WordsOf(stamp.launched).node);
    StampedInFront(own, frame, STEP, WordsOf(stamp.launched).step);
    StampedInFront(own, frame, ATTEMPT, WordsOf(stamp.launched).attempt);
  }

  // ---- composing ---------------------------------------------------------

  datatype Refusal = NotALabelSet(why: Malformed) | GrammarRefuses | CarriesComma

  /** What a repository stamped: every key but the engine's. */
  function Foreign(labels: LabelSet): LabelSet {
    map key | key in labels && !IsEngine(key) :: labels[key]
  }

  function Overlaid(labels: LabelSet, pairs: seq<(string, string)>): LabelSet {
    if pairs == [] then labels
    else Overlaid(labels, pairs[..|pairs| - 1])[pairs[|pairs| - 1].0 := pairs[|pairs| - 1].1]
  }

  function Inherited(inherited: Option<string>, rule: KeyRule): Result<LabelSet, Malformed> {
    if inherited.None? then Ok(map[]) else Parse(inherited.value, rule)
  }

  /** The set a launch is stamped with, or why it cannot be. */
  ghost function Composed(
    inherited: Option<string>, pairs: seq<(string, string)>, rule: KeyRule
  ): Result<LabelSet, Refusal> {
    match Inherited(inherited, rule)
    case Err(why) => Err(NotALabelSet(why))
    case Ok(labels) =>
      var composed := Overlaid(Foreign(labels), pairs);
      if !Readable(composed, rule) then Err(GrammarRefuses)
      else if !NoCommaIn(composed) then Err(CarriesComma)
      else Ok(composed)
  }

  /** One launch's labels in the wire format: the inherited ones but the engine's, with its own put in. */
  method ComposeLabels(inherited: Option<string>, stamp: Stamp, rule: KeyRule) returns (text: Result<string, Refusal>)
    ensures match Composed(inherited, PairsOf(stamp), rule)
            case Ok(labels) => text == Ok(Rendered(labels))
            case Err(why) => text == Err(why)
  {
    var read := InheritedLabels(inherited, rule);
    if read.Err? {
      return Err(NotALabelSet(read.error));
    }
    var pairs := Pairs(stamp);
    var labels := Overlay(Foreign(read.value), pairs);
    if key :| key in labels && !(rule(key) && GoodValue(labels[key])) {
      return Err(GrammarRefuses);
    }
    assert Readable(labels, rule);
    if key :| key in labels && ',' in labels[key] {
      return Err(CarriesComma);
    }
    var rendered := RenderLabels(labels);
    text := Ok(rendered);
  }

  method InheritedLabels(inherited: Option<string>, rule: KeyRule) returns (read: Result<LabelSet, Malformed>)
    ensures read == Inherited(inherited, rule)
  {
    if inherited.Some? && Trim(inherited.value) != "" {
      return ReadPairs(Split(Trim(inherited.value), ','), rule);
    }
    return Ok(map[]);
  }

  method Overlay(inherited: LabelSet, pairs: seq<(string, string)>) returns (labels: LabelSet)
    ensures labels == Overlaid(inherited, pairs)
  {
    labels := inherited;
    for i := 0 to |pairs|
      invariant labels == Overlaid(inherited, pairs[..i])
    {
      assert pairs[..i + 1][..i] == pairs[..i];
      labels := labels[pairs[i].0 := pairs[i].1];
    }
    assert pairs[..|pairs|] == pairs;
  }

  /** What a set holds under a key, where it holds anything. */
  ghost function In(labels: LabelSet, key: string): Option<string> {
    if key in labels then Some(labels[key]) else None
  }

  /**
   Whether a set is the one a launch composes of what it inherits: under the engine's prefix, its own run,
   project and words and nothing else; under any other key, what it inherits.
   */
  ghost predicate IsComposition(read: LabelSet, stamp: Stamp, labels: LabelSet) {
    var words := WordsOf(stamp.launched);
    && In(labels, "onepipeline.run_id") == Some(stamp.run) && In(labels, "onepipeline.project") == stamp.project
    && In(labels, "onepipeline.scope") == Some(words.scope) && In(labels, "onepipeline.node") == words.node
    && In(labels, "onepipeline.step") == words.step && In(labels, "onepipeline.attempt") == words.attempt
    && forall key :: key !in {RUN_ID, PROJECT, SCOPE, NODE, STEP, ATTEMPT} ==>
      In(labels, key) == if |key| >= 12 && key[..12] == "onepipeline." then None else In(read, key)
  }

  lemma OverlaidHas(labels: LabelSet, pairs: seq<(string, string)>, key: string, value: Option<string>)
    requires KeysDistinct(pairs) && Stamped(pairs, key, value)
    ensures In(Overlaid(labels, pairs), key) == if value.Some? then value else In(labels, key)
  {
    OverlaidIs(labels, pairs, key);
    if value.Some? {
      var i :| 0 <= i < |pairs| && pairs[i] == (key, value.value);
      OverlaidAt(pairs, i);
    } else if key in Overlaid(map[], pairs) {
      OverlaidFrom(pairs, key);
    }
  }

  lemma OthersAreNotStamped(stamp: Stamp, key: string)
    requires key !in {RUN_ID, PROJECT, SCOPE, NODE, STEP, ATTEMPT}
    ensures Stamped(PairsOf(stamp), key, None)
  {
  }

  lemma EnginesStartWithIt(key: string)
    ensures IsEngine(key) <==> |key| >= 12 && key[..12] == "onepipeline."
  {
  }

  lemma OverlaidIsComposition(read: LabelSet, stamp: Stamp)
    ensures IsComposition(read, stamp, Overlaid(Foreign(read), PairsOf(stamp)))
  {
    var pairs, foreign, words := PairsOf(stamp), Foreign(read), WordsOf(stamp.launched);
    PairsAreWhatTheyAre(stamp);
    OverlaidHas(foreign, pairs, RUN_ID, Some(stamp.run));
    OverlaidHas(foreign, pairs, PROJECT, stamp.project);
    OverlaidHas(foreign, pairs, SCOPE, Some(words.scope));
    OverlaidHas(foreign, pairs, NODE, words.node);
    OverlaidHas(foreign, pairs, STEP, words.step);
    OverlaidHas(foreign, pairs, ATTEMPT, words.attempt);
    assert IsEngine(PROJECT) && IsEngine(NODE) && IsEngine(STEP) && IsEngine(ATTEMPT);
    forall key | key !in {RUN_ID, PROJECT, SCOPE, NODE, STEP, ATTEMPT}
      ensures In(Overlaid(foreign, pairs), key) ==
        if |key| >= 12 && key[..12] == "onepipeline." then None else In(read, key)
    {
      OthersAreNotStamped(stamp, key);
      OverlaidHas(foreign, pairs, key, None);
      EnginesStartWithIt(key);
    }
  }

  lemma RefusedWhere(labels: LabelSet, rule: KeyRule)
    ensures Readable(labels, rule) <==> !exists key :: key in labels && !(rule(key) && GoodValue(labels[key]))
    ensures NoCommaIn(labels) <==> !exists key :: key in labels && ',' in labels[key]
  {
  }

  /** What a launch is stamped with, key by key, or which refusal it meets. */
  lemma ComposedIs(inherited: Option<string>, stamp: Stamp, rule: KeyRule) returns (labels: LabelSet)
    ensures match Inherited(inherited, rule)
      case Err(why) => Composed(inherited, PairsOf(stamp), rule) == Err(NotALabelSet(why))
      case Ok(read) =>
        && IsComposition(read, stamp, labels)
        && Composed(inherited, PairsOf(stamp), rule) ==
             if exists key :: key in labels && !(rule(key) && GoodValue(labels[key])) then Err(GrammarRefuses)
             else if exists key :: key in labels && ',' in labels[key] then Err(CarriesComma)
             else Ok(labels)
  {
    labels := map[];
    if Inherited(inherited, rule).Ok? {
      var read := Inherited(inherited, rule).value;
      labels := Overlaid(Foreign(read), PairsOf(stamp));
      OverlaidIsComposition(read, stamp);
      RefusedWhere(labels, rule);
    }
  }

  // ---- what composing keeps ----------------------------------------------

  lemma {:induction false} OverlaidKeepsForeign(labels: LabelSet, pairs: seq<(string, string)>)
    requires Engines(pairs)
    ensures Foreign(Overlaid(labels, pairs)) == Foreign(labels)
  {
    if pairs != [] {
      var front, last := pairs[..|pairs| - 1], pairs[|pairs| - 1];
      OverlaidKeepsForeign(labels, front);
      assert IsEngine(last.0);
      assert Foreign(Overlaid(labels, front)[last.0 := last.1]) == Foreign(Overlaid(labels, front));
    }
  }

  /** Whether every value of a set is as trimming leaves it. */
  ghost predicate Tight(labels: LabelSet) {
    forall key :: key in labels ==> labels[key] != "" && TrimEnd(labels[key]) == labels[key]
  }

  lemma {:induction false} ReadIsTight(pairs: seq<string>, rule: KeyRule)
    requires ReadPairs(pairs, rule).Ok?
    ensures Tight(ReadPairs(pairs, rule).value)
  {
    if pairs != [] {
      ReadIsTight(pairs[..|pairs| - 1], rule);
      ReadPairIsTight(Trim(pairs[|pairs| - 1]), rule);
    }
  }

  lemma ReadPairIsTight(pair: string, rule: KeyRule)
    requires ReadPair(pair, rule).Ok? && (pair != "" ==> !Space(pair[|pair| - 1]))
    ensures var value := ReadPair(pair, rule).value.1; value != "" && TrimEnd(value) == value
  {
    var value := ReadPair(pair, rule).value.1;
    assert value[|value| - 1] == pair[|pair| - 1];
  }

  lemma InheritedIsTight(inherited: Option<string>, rule: KeyRule)
    requires Inherited(inherited, rule).Ok?
    ensures Tight(Inherited(inherited, rule).value)
  {
    if inherited.Some? && Trim(inherited.value) != "" {
      ReadIsTight(Split(Trim(inherited.value), ','), rule);
    }
  }

  /** Whether a stamp gives some key a value that is all space. */
  ghost predicate StampsBlank(pairs: seq<(string, string)>) {
    exists key :: key in Overlaid(map[], pairs) && Blank(Overlaid(map[], pairs)[key])
  }

  lemma {:induction false} OverlaidIs(labels: LabelSet, pairs: seq<(string, string)>, key: string)
    ensures key in Overlaid(labels, pairs) <==> key in labels || key in Overlaid(map[], pairs)
    ensures key in Overlaid(labels, pairs) ==>
              Overlaid(labels, pairs)[key] == if key in Overlaid(map[], pairs) then Overlaid(map[], pairs)[key]
                else labels[key]
  {
    if pairs != [] {
      OverlaidIs(labels, pairs[..|pairs| - 1], key);
    }
  }

  lemma BlankIsStamped(labels: LabelSet, pairs: seq<(string, string)>)
    requires Tight(labels)
    ensures NoneBlank(Overlaid(labels, pairs)) <==> !StampsBlank(pairs)
  {
    if key :| key in Overlaid(labels, pairs) && Blank(Overlaid(labels, pairs)[key]) {
      OverlaidIs(labels, pairs, key);
      assert key in Overlaid(map[], pairs);
    }
    if StampsBlank(pairs) {
      var key :| key in Overlaid(map[], pairs) && Blank(Overlaid(map[], pairs)[key]);
      OverlaidIs(labels, pairs, key);
    }
  }

  /** What a composed set reads back as, where it reads: the repository's part of it untouched. */
  lemma ReadBackForeign(labels: LabelSet, pairs: seq<(string, string)>)
    requires Tight(labels) && Engines(pairs)
    ensures Foreign(Trimmed(Overlaid(Foreign(labels), pairs))) == Foreign(labels)
  {
    OverlaidKeepsForeign(Foreign(labels), pairs);
    var composed := Overlaid(Foreign(labels), pairs);
    assert Foreign(composed) == Foreign(labels);
    ForeignOfTrimmed(composed, labels);
  }

  lemma ForeignOfTrimmed(composed: LabelSet, labels: LabelSet)
    requires Tight(labels) && Foreign(composed) == Foreign(labels)
    ensures Foreign(Trimmed(composed)) == Foreign(labels)
  {
    forall key | key in composed && !IsEngine(key) ensures TrimEnd(composed[key]) == composed[key] {
      assert key in Foreign(composed);
      assert key in labels && labels[key] == composed[key];
    }
    assert Foreign(Trimmed(composed)) == Foreign(composed);
  }

  lemma StampIsSomething(labels: LabelSet, stamp: Stamp)
    ensures Overlaid(labels, PairsOf(stamp)) != map[]
  {
    var pairs := PairsOf(stamp);
    assert pairs[|pairs| - 1].0 in Overlaid(labels, pairs);
  }

  /** What one composed text is read as by the next launch. */
  lemma ComposedReadsBack(inherited: Option<string>, stamp: Stamp, rule: KeyRule, labels: LabelSet)
    requires OnTheWire(rule) && Composed(inherited, PairsOf(stamp), rule) == Ok(labels)
    ensures Parse(Rendered(labels), rule) == if StampsBlank(PairsOf(stamp)) then Err(BadValue) else Ok(Trimmed(labels))
    ensures Foreign(Trimmed(labels)) == Foreign(Inherited(inherited, rule).value)
  {
    var read, pairs := Inherited(inherited, rule).value, PairsOf(stamp);
    InheritedIsTight(inherited, rule);
    StampsAreTheEngines(stamp);
    StampIsSomething(Foreign(read), stamp);
    BlankIsStamped(Foreign(read), pairs);
    RenderedParses(labels, rule);
    ReadBackForeign(read, pairs);
  }

  /**
   A launch under a launch is stamped as it would have been alone: the outer stamp leaves
   no trace, whatever its values, exactly unless one of them is nothing but space.
   */
  lemma NestedStampingIsStable(inherited: Option<string>, outer: Stamp, inner: Stamp, rule: KeyRule, labels: LabelSet)
    requires OnTheWire(rule) && Composed(inherited, PairsOf(outer), rule) == Ok(labels)
    ensures Composed(Some(Rendered(labels)), PairsOf(inner), rule) == Composed(inherited, PairsOf(inner), rule)
       <==> !StampsBlank(PairsOf(outer))
  {
    ComposedReadsBack(inherited, outer, rule, labels);
    OnlyForeignCounts(inherited, Some(Rendered(labels)), PairsOf(inner), rule);
  }

  /** What a launch is stamped with is settled by what it inherits that is not the engine's. */
  lemma OnlyForeignCounts(inherited: Option<string>, other: Option<string>, pairs: seq<(string, string)>, rule: KeyRule)
    requires Inherited(inherited, rule).Ok?
    requires Inherited(other, rule).Ok? ==>
      Foreign(Inherited(other, rule).value) == Foreign(Inherited(inherited, rule).value)
    ensures Composed(other, pairs, rule) == Composed(inherited, pairs, rule) <==> Inherited(other, rule).Ok?
  {
  }

  /**
   Every label a repository stamped is on the launch, as it was inherited, and comes out of a launch
   under it the same.
   */
  lemma RepositoryLabelsSurvive(inherited: Option<string>, stamp: Stamp, rule: KeyRule, labels: LabelSet, key: string)
    requires OnTheWire(rule) && Composed(inherited, PairsOf(stamp), rule) == Ok(labels) && !IsEngine(key)
    ensures SameAt(labels, Inherited(inherited, rule).value, key)
    ensures !StampsBlank(PairsOf(stamp)) ==>
      Parse(Rendered(labels), rule).Ok? && SameAt(Parse(Rendered(labels), rule).value, labels, key)
  {
    var read := Inherited(inherited, rule).value;
    ComposedReadsBack(inherited, stamp, rule, labels);
    StampsAreTheEngines(stamp);
    OverlaidKeepsForeign(Foreign(read), PairsOf(stamp));
    assert Foreign(Foreign(read)) == Foreign(read);
    SameForeign(labels, read, key);
    SameForeign(Trimmed(labels), read, key);
  }

  ghost predicate SameAt(a: LabelSet, b: LabelSet, key: string) {
    (key in a <==> key in b) && (key in a ==> a[key] == b[key])
  }

  lemma SameForeign(a: LabelSet, b: LabelSet, key: string)
    requires Foreign(a) == Foreign(b) && !IsEngine(key)
    ensures SameAt(a, b, key)
  {
    assert key in Foreign(a) <==> key in Foreign(b);
    if key in a {
      assert Foreign(a)[key] == a[key] && Foreign(b)[key] == b[key];
    }
  }

  // ---- where a stamp does not come back ----------------------------------

  predicate EndsInSpace(value: string) {
    value != "" && Space(value[|value| - 1])
  }

  lemma {:induction false} OverlaidFrom(pairs: seq<(string, string)>, key: string)
    requires key in Overlaid(map[], pairs)
    ensures (key, Overlaid(map[], pairs)[key]) in pairs
  {
    if pairs[|pairs| - 1].0 != key {
      OverlaidFrom(pairs[..|pairs| - 1], key);
    } else {
      assert pairs[|pairs| - 1] == (key, Overlaid(map[], pairs)[key]);
    }
  }

  lemma {:induction false} OverlaidAt(pairs: seq<(string, string)>, i: nat)
    requires i < |pairs| && KeysDistinct(pairs)
    ensures pairs[i].0 in Overlaid(map[], pairs) && Overlaid(map[], pairs)[pairs[i].0] == pairs[i].1
  {
    if i < |pairs| - 1 {
      OverlaidAt(pairs[..|pairs| - 1], i);
    }
  }

  /** A set read and overlaid: a value of it that ends in space is one put over it. */
  lemma SpacesAreStamped(read: LabelSet, pairs: seq<(string, string)>, labels: LabelSet, key: string)
    requires Tight(read) && labels == Overlaid(read, pairs) && key in labels && EndsInSpace(labels[key])
    ensures (key, labels[key]) in pairs
  {
    OverlaidIs(read, pairs, key);
    if key in Overlaid(map[], pairs) {
      OverlaidFrom(pairs, key);
    }
  }

  lemma StampedIsThere(read: LabelSet, pairs: seq<(string, string)>, labels: LabelSet, i: nat)
    requires KeysDistinct(pairs) && labels == Overlaid(read, pairs) && i < |pairs|
    ensures pairs[i].0 in labels && labels[pairs[i].0] == pairs[i].1
  {
    OverlaidAt(pairs, i);
    OverlaidIs(read, pairs, pairs[i].0);
  }

  lemma SpacesOfASet(read: LabelSet, pairs: seq<(string, string)>, labels: LabelSet)
    requires Tight(read) && KeysDistinct(pairs) && labels == Overlaid(read, pairs)
    ensures (forall key :: key in labels ==> !EndsInSpace(labels[key])) <==>
              forall i :: 0 <= i < |pairs| ==> !EndsInSpace(pairs[i].1)
  {
    forall i | 0 <= i < |pairs| ensures pairs[i].0 in labels && labels[pairs[i].0] == pairs[i].1 {
      StampedIsThere(read, pairs, labels, i);
    }
    forall key | key in labels && EndsInSpace(labels[key]) ensures (key, labels[key]) in pairs {
      SpacesAreStamped(read, pairs, labels, key);
    }
  }

  /** A launch's labels read back as they were written exactly where none of its own values ends in space. */
  lemma ComposedRoundTripsExactly(inherited: Option<string>, stamp: Stamp, rule: KeyRule, labels: LabelSet)
    requires OnTheWire(rule) && Composed(inherited, PairsOf(stamp), rule) == Ok(labels)
    ensures Parse(Rendered(labels), rule) == Ok(labels) <==>
              forall i :: 0 <= i < |PairsOf(stamp)| ==> !EndsInSpace(PairsOf(stamp)[i].1)
  {
    var read := Foreign(Inherited(inherited, rule).value);
    StampIsSomething(read, stamp);
    PairsAreWhatTheyAre(stamp);
    InheritedIsTight(inherited, rule);
    SpacesOfASet(read, PairsOf(stamp), labels);
    RoundTripsExactly(labels, rule);
    assert forall key :: key in labels ==> GoodValue(labels[key]);
  }

  lemma ComposedOfGood(pairs: seq<(string, string)>, rule: KeyRule)
    requires forall i :: 0 <= i < |pairs| ==> rule(pairs[i].0) && GoodValue(pairs[i].1) && ',' !in pairs[i].1
    ensures Composed(None, pairs, rule) == Ok(Overlaid(map[], pairs))
  {
    var labels := Overlaid(map[], pairs);
    forall key | key in labels ensures rule(key) && GoodValue(labels[key]) && ',' !in labels[key] {
      OverlaidFrom(pairs, key);
    }
    assert Foreign(map[]) == map[];
  }

  /**
   A project that is one space is stamped, and what it leaves stops every launch under it,
   though the same launch alone goes through.
   */
  lemma BlankProjectStopsNesting(rule: KeyRule, inner: Stamp) returns (labels: LabelSet)
    requires OnTheWire(rule) && rule(RUN_ID) && rule(SCOPE) && rule(PROJECT)
    ensures Composed(None, PairsOf(Stamp("r", Some(" "), Observer)), rule) == Ok(labels)
    ensures Composed(Some(Rendered(labels)), PairsOf(inner), rule) == Err(NotALabelSet(BadValue))
    ensures Composed(None, PairsOf(Stamp("r", None, Observer)), rule).Ok?
  {
    var outer, alone := Stamp("r", Some(" "), Observer), Stamp("r", None, Observer);
    ComposedOfGood(PairsOf(outer), rule);
    ComposedOfGood(PairsOf(alone), rule);
    labels := Overlaid(map[], PairsOf(outer));
    PairsAreWhatTheyAre(outer);
    OverlaidAt(PairsOf(outer), 2);
    assert PairsOf(outer)[2] == (PROJECT, " ");
    assert Blank(" ");
    ComposedReadsBack(None, outer, rule, labels);
  }

  lemma NothingBlank(pairs: seq<(string, string)>)
    requires forall i :: 0 <= i < |pairs| ==> !Blank(pairs[i].1)
    ensures !StampsBlank(pairs)
  {
    if StampsBlank(pairs) {
      var key :| key in Overlaid(map[], pairs) && Blank(Overlaid(map[], pairs)[key]);
      OverlaidFrom(pairs, key);
    }
  }

  /** And a node id that ends in space is read back without it. */
  lemma SpacedNodeIsTrimmed(rule: KeyRule) returns (labels: LabelSet)
    requires OnTheWire(rule) && rule(RUN_ID) && rule(SCOPE) && rule(NODE) && rule(ATTEMPT)
    ensures Composed(None, PairsOf(Stamp("r", None, Node("a ", None, "1"))), rule) == Ok(labels)
    ensures NODE in labels && labels[NODE] == "a "
    ensures Parse(Rendered(labels), rule) == Ok(Trimmed(labels)) && Trimmed(labels)[NODE] == "a"
  {
    var stamp := Stamp("r", None, Node("a ", None, "1"));
    var pairs := PairsOf(stamp);
    SpacedPairs(rule);
    ComposedOfGood(pairs, rule);
    NothingBlank(pairs);
    labels := Overlaid(map[], pairs);
    PairsAreWhatTheyAre(stamp);
    OverlaidAt(pairs, 2);
    ComposedReadsBack(None, stamp, rule, labels);
  }

  lemma SpacedPairs(rule: KeyRule)
    requires rule(RUN_ID) && rule(SCOPE) && rule(NODE) && rule(ATTEMPT)
    ensures var pairs := PairsOf(Stamp("r", None, Node("a ", None, "1")));
      && |pairs| == 4 && pairs[2] == (NODE, "a ") && TrimEnd("a ") == "a"
      && forall i :: 0 <= i < 4 ==>
        rule(pairs[i].0) && GoodValue(pairs[i].1) && ',' !in pairs[i].1 && !Blank(pairs[i].1)
  {
    var pairs := PairsOf(Stamp("r", None, Node("a ", None, "1")));
    assert pairs == [(RUN_ID, "r"), (SCOPE, "node"), (NODE, "a "), (ATTEMPT, "1")];
    assert "a "[..1] == "a" && TrimEnd("a ") == TrimEnd("a") == "a";
    assert TrimEnd("node") == "node" && TrimEnd("r") == "r" && TrimEnd("1") == "1";
  }
}
