/**
 Folding a run that will grow no more (src/checkpoint.rs, `fold_ended_and_checkpoint` and
 `covering_whole`): its last instant covered too, so that its document answers for the
 whole journal without the journal being opened.
 */
module CheckpointEnded {
  import opened Checkpoint
  import opened CheckpointRuns
  import opened Coverage
  import opened Folding
  import opened Journal
  import opened Merging
  import opened Wrappers

  ghost function Ended<S, A>(fold: Fold<S, A>, cached: Cached<S, A>, file: File): Cached<S, A> {
    var rest := FinishedLinesFrom(file, cached.coverage.bytes);
    if rest == [] then cached else Took(fold, cached, rest, Covered)
  }

  /** The cuts of an ended fold: those it was opened with, and the end of the journal. */
  function EndedCuts(lines: seq<FinishedLine>, cuts: seq<nat>): seq<nat> {
    if LastCut(cuts) == |lines| then cuts else cuts + [|lines|]
  }

  /** Fold a run proved ended, and write every record of it covered. */
  method FoldEnded<S, A>(fold: Fold<S, A>, root: RunRoot<S, A>) returns (projected: Projected<S, A>)
    requires LengthOf(root.journal) <= U64_MAX
    modifies root`document
    ensures fresh(projected)
    ensures var before := Opened(fold, root.run, old(root.document), root.journal);
      && projected.View() == Ended(fold, before, root.journal)
      && (!root.writable ==> root.document == old(root.document))
      && (root.writable && FinishedLinesFrom(root.journal, before.coverage.bytes) == [] ==>
           root.document ==
           if MovedOn(fold, Starting(fold, root.run, old(root.document), root.journal), root.journal) then
             Some(DocumentOf(root.run, before))
           else old(root.document))
      && (root.writable && FinishedLinesFrom(root.journal, before.coverage.bytes) != [] ==>
           root.document == Some(DocumentOf(root.run, projected.View())))
  {
    projected := OpenWith(fold, root, true);
    var rest := FinishedLinesFrom(root.journal, projected.coverage.bytes);
    if rest != [] {
      CoversItAll(rest);
      projected.TakeWith(root, rest, Covered, true);
      SameDocument(fold, root.run, projected.View());
    }
  }

  lemma CoversItAll(rest: seq<FinishedLine>)
    ensures Extent(rest, Covered) == |rest|
  {
  }

  lemma SameDocument<S, A>(fold: Fold<S, A>, run: string, cached: Cached<S, A>)
    ensures DocumentOf(run, cached).coverage == cached.coverage && DocumentOf(run, cached).state == cached.covered
  {
  }

  /** An ended fold covers every line there is: its marker stops at the end of the journal. */
  lemma EndedCoversEverything<S(!new), A(!new)>(fold: Fold<S, A>, cached: Cached<S, A>, file: File, cuts: seq<nat>)
      returns (longer: seq<nat>)
    requires Current(fold, cached, AllLines(file), cuts)
    ensures longer == EndedCuts(AllLines(file), cuts) && LastCut(longer) == |AllLines(file)|
    ensures Current(fold, Ended(fold, cached, file), AllLines(file), longer)
    ensures Ended(fold, cached, file).state == Ended(fold, cached, file).covered
  {
    var lines := AllLines(file);
    MarkerWithin(fold, cached, file, cuts);
    longer := EndedCuts(lines, cuts);
    if FinishedLinesFrom(file, cached.coverage.bytes) != [] {
      var cut := TookIsCurrent(fold, cached, lines, cuts, Covered);
      assert cut == |lines| != LastCut(cuts);
    }
    CoveredIsAll(fold, Ended(fold, cached, file), lines, longer);
  }

  lemma CoveredIsAll<S(!new), A(!new)>(fold: Fold<S, A>, cached: Cached<S, A>, lines: seq<FinishedLine>, cuts: seq<nat>)
    requires Current(fold, cached, lines, cuts) && LastCut(cuts) == |lines|
    ensures cached.state == cached.covered && cached.covered == StateOver(fold, fold.empty, OrderOver(lines, cuts))
  {
    assert lines[|lines|..] == [];
    assert Merged(Records([])) == [];
    assert Barriered(lines, cuts) + [] == Barriered(lines, cuts);
  }

  /**
   What is resumed from a document, and what nothing is resumed from, read on as themselves where
   nothing is past them.
   */
  lemma ResumesAsItStands<S, A>(fold: Fold<S, A>, document: Document<S, A>)
    ensures Opens(fold, Resumed(document), []) == Resumed(document)
    ensures Opens(fold, Empty(fold), []) == Empty(fold)
  {
  }

  /**
   An ended run's state off its document alone, where that covers just as much as a summary says the
   journal holds.
   */
  function CoveringWhole<S, A>(
    fold: Fold<S, A>, run: string, document: Option<Document<S, A>>, len: nat, count: nat
  ): Option<S> {
    if document.Some? && document.value.version == CHECKPOINT_SCHEMA_VERSION && document.value.run == run
       && document.value.coverage.bytes == len && document.value.coverage.records == count
       && SealedWith(fold, document.value.coverage, document.value.state, document.value.tally) ==
         document.value.coverage.digest
    then Some(document.value.state) else None
  }

  /** What it answers, with the journal as long as the summary says, is the fold of every line, none read. */
  lemma AnsweredWithoutTheJournal<S(!new), A(!new)>(
    fold: Fold<S, A>, run: string, document: Option<Document<S, A>>, file: File, cuts: seq<nat>
  )
    requires CoveringWhole(fold, run, document, LengthOf(file), |AllLines(file)|).Some?
    requires Holds(fold, Resumed(document.value), AllLines(file), cuts)
    ensures Usable(fold, run, document, file) && LastCut(cuts) == |AllLines(file)|
    ensures CoveringWhole(fold, run, document, LengthOf(file), |AllLines(file)|).value
         == StateOver(fold, fold.empty, OrderOver(AllLines(file), cuts))
  {
    var lines := AllLines(file);
    CoveringIsExact(lines[..LastCut(cuts)], document.value.coverage.digest);
    assert lines[|lines|..] == [];
    assert Merged(Records([])) == [];
    assert Barriered(lines, cuts) + [] == Barriered(lines, cuts);
  }

  /** And a document an ended fold wrote is one it answers off, of a journal that ends in a whole line. */
  lemma EndedDocumentAnswers<S(!new), A(!new)>(
    fold: Fold<S, A>, run: string, cached: Cached<S, A>, file: File, cuts: seq<nat>
  )
    requires Current(fold, cached, AllLines(file), cuts) && LastCut(cuts) == |AllLines(file)| > 0 && file.tail.None?
    ensures CoveringWhole(fold, run, Some(DocumentOf(run, cached)), LengthOf(file), |AllLines(file)|) ==
      Some(cached.state)
  {
    CoveredIsAll(fold, cached, AllLines(file), cuts);
    MarkerAt(fold, cached, file, cuts, |file.lines|);
    assert file.lines[..|file.lines|] == file.lines;
  }
}
