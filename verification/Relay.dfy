/**
 The lines of a relayed launch (src/agentgraph.rs, `relayed_lines`): yielded as they
 arrive, and ended by the pipe's own end or by a silence that began with the graph over.
 */
module Relay {

  /** One wait on the reading thread: a line, the pipe's end, or a silence, with whether the graph was over by then. */
  datatype Arrival<T> = Line(line: T) | Silence(over: bool) | Disconnected

  datatype Answer<T> = Yielded(line: T) | Ended | Waiting

  /** Whether the wait before `n` was a silence that found the graph over. */
  predicate QuietAndOver<T>(arriving: seq<Arrival<T>>, n: nat)
    requires n <= |arriving|
  {
    n > 0 && arriving[n - 1].Silence? && arriving[n - 1].over
  }

  /** Whether the stream ends at wait `n`: on the pipe, or on a whole silence after one that found the graph over. */
  predicate EndsAt<T>(arriving: seq<Arrival<T>>, n: nat)
    requires n < |arriving|
  {
    arriving[n].Disconnected? || (arriving[n].Silence? && QuietAndOver(arriving, n))
  }

  ghost predicate Runs<T>(arriving: seq<Arrival<T>>, from: nat, end: nat)
    requires end <= |arriving|
  {
    forall k :: from <= k < end ==> !EndsAt(arriving, k)
  }

  function LinesOf<T>(arrived: seq<Arrival<T>>): seq<T> {
    if arrived == [] then []
    else
      var last := arrived[|arrived| - 1];
      LinesOf(arrived[..|arrived| - 1]) + if last.Line? then [last.line] else []
  }

  lemma {:induction false} SilencesHaveNoLines<T>(arrived: seq<Arrival<T>>, from: nat)
    requires from <= |arrived| && forall k :: from <= k < |arrived| ==> !arrived[k].Line?
    ensures LinesOf(arrived) == LinesOf(arrived[..from])
    decreases |arrived|
  {
    if from == |arrived| {
      assert arrived[..from] == arrived;
    } else {
      var front := arrived[..|arrived| - 1];
      SilencesHaveNoLines(front, from);
      assert front[..from] == arrived[..from];
    }
  }

  class RelayedLines {
    // What the last whole silence found: the graph over, or still running.
    var foundOver: bool

    constructor ()
      ensures !foundOver
    {
      foundOver := false;
    }

    /** The next line, or the end, from the waits after the first `from`. */
    method Next<T>(arriving: seq<Arrival<T>>, from: nat) returns (answer: Answer<T>, reached: nat)
      requires from <= |arriving| && foundOver == QuietAndOver(arriving, from)
      modifies this
      ensures from <= reached <= |arriving|
      ensures match answer
              case Yielded(line) =>
                from < reached && arriving[reached - 1] == Line(line) && Runs(arriving, from, reached)
              case Ended => from < reached && EndsAt(arriving, reached - 1) && Runs(arriving, from, reached - 1)
              case Waiting => reached == |arriving| && Runs(arriving, from, reached)
      ensures forall k :: from <= k < reached && (k < reached - 1 || !answer.Yielded?) ==> !arriving[k].Line?
      ensures !answer.Ended? ==> foundOver == QuietAndOver(arriving, reached)
    {
      reached := from;
      while reached < |arriving|
        invariant from <= reached <= |arriving| && foundOver == QuietAndOver(arriving, reached)
        invariant Runs(arriving, from, reached)
        invariant forall k :: from <= k < reached ==> arriving[k].Silence?
      {
        reached := reached + 1;
        match arriving[reached - 1] {
          case Line(line) =>
            foundOver := false;
            return Yielded(line), reached;
          case Disconnected =>
            return Ended, reached;
          case Silence(over) =>
            if foundOver {
              return Ended, reached;
            }
            foundOver := over;
        }
      }
      answer := Waiting;
    }
  }

  /** What a whole stream is: every line before its end, in order, and an end nowhere but where `EndsAt` puts it. */
  ghost predicate IsRelayed<T>(arriving: seq<Arrival<T>>, lines: seq<T>, ended: bool, reached: nat) {
    && reached <= |arriving| && lines == LinesOf(arriving[..reached])
    && if ended then reached > 0 && EndsAt(arriving, reached - 1) && Runs(arriving, 0, reached - 1)
       else reached == |arriving| && Runs(arriving, 0, reached)
  }

  method Relayed<T>(arriving: seq<Arrival<T>>) returns (lines: seq<T>, ended: bool, reached: nat)
    ensures IsRelayed(arriving, lines, ended, reached)
  {
    var relay := new RelayedLines();
    lines, ended, reached := [], false, 0;
    var waiting := false;
    while !ended && !waiting
      invariant reached <= |arriving| && lines == LinesOf(arriving[..reached])
      invariant !ended ==> Runs(arriving, 0, reached) && relay.foundOver == QuietAndOver(arriving, reached)
      invariant ended ==> reached > 0 && EndsAt(arriving, reached - 1) && Runs(arriving, 0, reached - 1)
      invariant waiting ==> reached == |arriving|
      decreases |arriving| - reached, !ended && !waiting
    {
      var from := reached;
      var answer: Answer<T>;
      answer, reached := relay.Next(arriving, from);
      Taken(arriving, from, reached, answer);
      match answer {
        case Yielded(line) => lines := lines + [line];
        case Ended => ended := true;
        case Waiting => waiting := true;
      }
    }
  }

  /** What one call takes off the stream is the one line it yields. */
  lemma Taken<T>(arriving: seq<Arrival<T>>, from: nat, reached: nat, answer: Answer<T>)
    requires from <= reached <= |arriving|
    requires answer.Yielded? ==> from < reached && arriving[reached - 1] == Line(answer.line)
    requires forall k :: from <= k < reached && (k < reached - 1 || !answer.Yielded?) ==> !arriving[k].Line?
    ensures LinesOf(arriving[..reached]) == LinesOf(arriving[..from]) + if answer.Yielded? then [answer.line] else []
  {
    var quiet := if answer.Yielded? then reached - 1 else reached;
    SilencesHaveNoLines(arriving[..quiet], from);
    assert arriving[..quiet][..from] == arriving[..from];
    assert answer.Yielded? ==> arriving[..reached][..quiet] == arriving[..quiet];
  }

  // ---- with the graph over from some moment on ---------------------------

  /** Whether what each silence finds of the graph is that it is over from the wait `over` on, and running before. */
  ghost predicate OverFrom<T>(arriving: seq<Arrival<T>>, over: nat) {
    forall k :: 0 <= k < |arriving| && arriving[k].Silence? ==> (arriving[k].over <==> k >= over)
  }

  /** No silence of a running graph ends its stream; of a graph that is over, two in a row do. */
  lemma EndsWithinTwoSilences<T>(
    arriving: seq<Arrival<T>>, lines: seq<T>, ended: bool, reached: nat, over: nat, quiet: nat
  )
    requires IsRelayed(arriving, lines, ended, reached) && OverFrom(arriving, over)
    ensures ended && arriving[reached - 1].Silence? ==> over < reached - 1
    ensures over <= quiet && quiet + 1 < |arriving| && arriving[quiet].Silence? && arriving[quiet + 1].Silence? ==>
              ended && reached <= quiet + 2
  {
    if over <= quiet && quiet + 1 < |arriving| && arriving[quiet].Silence? && arriving[quiet + 1].Silence? {
      var next := quiet + 1;
      assert EndsAt(arriving, next);
    }
  }

  /** Whatever arrives before two silences have run together with the graph over is yielded: a late burst is whole. */
  lemma LateBurstIsWhole<T>(arriving: seq<Arrival<T>>, lines: seq<T>, ended: bool, reached: nat, over: nat, k: nat)
    requires IsRelayed(arriving, lines, ended, reached) && OverFrom(arriving, over)
    requires k < |arriving| && arriving[k].Line?
    requires forall j :: 0 <= j < k ==> !arriving[j].Disconnected?
    requires forall j, next :: over <= j < k && next == j + 1 && next < |arriving| && arriving[j].Silence? ==>
      !arriving[next].Silence?
    ensures k < reached && arriving[k].line in lines
  {
    if ended && reached <= k {
      assert false;
    }
    LineIsKept(arriving, reached, k);
  }

  lemma {:induction false} LineIsKept<T>(arriving: seq<Arrival<T>>, reached: nat, k: nat)
    requires k < reached <= |arriving| && arriving[k].Line?
    ensures arriving[k].line in LinesOf(arriving[..reached])
  {
    var front := arriving[..reached];
    assert front[..reached - 1] == arriving[..reached - 1];
    if k < reached - 1 {
      LineIsKept(arriving, reached - 1, k);
    }
  }
}
