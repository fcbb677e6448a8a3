/** What happened to a client stream and what its span holds in the end, stated happening by happening. */
module StreamOutcome {
  import opened Common
  import opened ClientStream

  // ----- what happened -----

  /** Some call failed with this error, or the context ended with it. An end of stream is no failure of RecvMsg. */
  ghost predicate Reported(past: seq<Happening>, e: Error)
  {
    || Header(Some(e)) in past
    || SendMsg(Some(e)) in past
    || (RecvMsg(Some(e)) in past && e != EOF)
    || CloseSend(Some(e)) in past
    || ContextDone(e) in past
  }

  /** The stream ended as it should: all messages received, or the only one, or nobody listens any more. */
  ghost predicate EndedCleanly(serverStreams: bool, past: seq<Happening>)
  {
    || RecvMsg(Some(EOF)) in past
    || (RecvMsg(None) in past && !serverStreams)
    || Collected in past
  }

  ghost predicate Over(serverStreams: bool, past: seq<Happening>)
  {
    (exists e :: Reported(past, e)) || EndedCleanly(serverStreams, past)
  }

  lemma OneHappening(serverStreams: bool, h: Happening, e: Error)
    ensures Finishes(serverStreams, h) == Some(Some(e)) <==> Reported([h], e)
    ensures Finishes(serverStreams, h) == Some(None) <==> EndedCleanly(serverStreams, [h])
    ensures Finishes(serverStreams, h).None? <==> !Over(serverStreams, [h])
  {
    if Finishes(serverStreams, h).Some? && Finishes(serverStreams, h).value.Some? {
      assert Reported([h], Finishes(serverStreams, h).value.value);
    }
  }

  lemma CausesAreReports(s: State, e: Error)
    ensures Caused(s, Some(e)) <==> Reported(s.past, e)
    ensures Caused(s, None) <==> EndedCleanly(s.serverStreams, s.past)
  {
    forall k | 0 <= k < |s.past|
      ensures Finishes(s.serverStreams, s.past[k]) == Some(Some(e)) <==> Reported([s.past[k]], e)
      ensures Finishes(s.serverStreams, s.past[k]) == Some(None) <==> EndedCleanly(s.serverStreams, [s.past[k]])
    {
      OneHappening(s.serverStreams, s.past[k], e);
    }
  }

  lemma OverIff(s: State)
    ensures (exists k :: 0 <= k < |s.past| && Finishes(s.serverStreams, s.past[k]).Some?) <==>
            Over(s.serverStreams, s.past)
  {
    forall e ensures Caused(s, Some(e)) <==> Reported(s.past, e)
      ensures Caused(s, None) <==> EndedCleanly(s.serverStreams, s.past)
    {
      CausesAreReports(s, e);
    }
    if k :| 0 <= k < |s.past| && Finishes(s.serverStreams, s.past[k]).Some? {
      var cause := Finishes(s.serverStreams, s.past[k]).value;
      assert Caused(s, cause);
    }
  }

  // ----- any interleaving -----

  /** At rest the span ends in Finish exactly when the stream is over, and is empty otherwise. */
  lemma FinishedIffOver(s: State)
    requires Reachable(s) && Resting(s)
    ensures (s.span != [] && s.span[|s.span| - 1] == Finish) <==> Over(s.serverStreams, s.past)
    ensures !Over(s.serverStreams, s.past) ==> s.span == []
  {
    FinishedIffTerminated(s);
    OverIff(s);
    ReachableRace(s);
  }

  lemma BodyNamesItsError(err: Option<Error>, decorated: bool, i: nat)
    requires i < |Body(err, decorated)|
    ensures var event := Body(err, decorated)[i];
            && !event.Finish?
            && (event.LogError? || event.ErrorTag? ==> err == Some(event.error))
            && (event.Decorate? ==> event.err == err)
  {
  }

  /** Whatever the span says about an error was reported, at every moment. */
  lemma TagsAreReported(s: State, i: nat)
    requires Reachable(s) && i < |s.span|
    ensures s.span[i].LogError? || s.span[i].ErrorTag? ==> Reported(s.past, s.span[i].error)
    ensures s.span[i].Decorate? && s.span[i].err.Some? ==> Reported(s.past, s.span[i].err.value)
    ensures s.span[i] == Decorate(None) ==> EndedCleanly(s.serverStreams, s.past)
  {
    SpanIsFinishedOnce(s);
    var err, k: nat :| Caused(s, err) && k <= |Body(err, s.decorated)| &&
      (s.span == Body(err, s.decorated)[..k] || s.span == Body(err, s.decorated)[..k] + [Finish]);
    CausesAreReports(s, if err.Some? then err.value else EOF);
    if i < k {
      BodyNamesItsError(err, s.decorated, i);
    }
  }

  /** The span of a stream that ended in this error, and of one that ended without. */
  function Failure(e: Error, decorated: bool): seq<SpanEvent>
  {
    if decorated then [LogError(e), ErrorTag(e), Decorate(Some(e)), Finish] else [LogError(e), ErrorTag(e), Finish]
  }

  function Success(decorated: bool): seq<SpanEvent>
  {
    if decorated then [Decorate(None), Finish] else [Finish]
  }

  ghost predicate NoPanic(es: seq<Step>) { forall k :: 0 <= k < |es| ==> !es[k].Panic? }

  /** A finish that is over has run its whole body. */
  ghost predicate Whole(s: State)
  {
    |s.span| > 0 && s.span[|s.span| - 1] == Finish ==>
      exists err :: Finished(s, err, |Body(err, s.decorated)|) && Caused(s, err)
  }

  lemma WorkIsNotFinished(s: State, w: nat)
    requires Winner(s, w) && |s.span| > 0
    ensures s.span[|s.span| - 1] != Finish
  {
    var body := Body(s.threads[w].err, s.decorated);
    assert s.span[|s.span| - 1] == body[|s.span| - 1];
  }

  lemma FinishIsWhole(s: State, t: nat)
    requires Origins(s) && Race(s) && Enabled(s, FinishSpan(t))
    ensures Whole(Apply(s, FinishSpan(t)))
  {
    var s', err := Apply(s, FinishSpan(t)), s.threads[t].err;
    assert Active(s.threads[t]);
    var w: nat :| Winner(s, w);
    WinnerMoves(s, w, FinishSpan(t));
    CausedStays(s, s', err);
    assert Finished(s', err, |Body(err, s'.decorated)|);
  }

  lemma RunningStaysWhole(s: State, e: Step)
    requires Untouched(s) || exists w: nat :: Winner(s, w)
    requires Enabled(s, e) && !e.Happen? && !e.Panic? && !e.FinishSpan?
    ensures Whole(Apply(s, e))
  {
    var s' := Apply(s, e);
    if Untouched(s) {
      UntouchedKept(s, e);
    } else {
      var w: nat :| Winner(s, w);
      if Mover(e) == w {
        WinnerMoves(s, w, e);
        assert Winner(s', w) by {
          assert Active(s'.threads[w]);
        }
      } else {
        OtherMoves(s, w, e);
      }
      if |s'.span| > 0 {
        WorkIsNotFinished(s', w);
      }
    }
  }

  lemma FinishedStaysWhole(s: State, err: Option<Error>, e: Step)
    requires Finished(s, err, |Body(err, s.decorated)|) && Caused(s, err) && Enabled(s, e)
    ensures Whole(Apply(s, e))
  {
    var s' := Apply(s, e);
    if e.Happen? {
      HappenOnlyAddsCallers(s, e.h);
      CausedStays(s, s', err);
      assert Finished(s', err, |Body(err, s'.decorated)|);
    } else {
      StepFrame(s, e);
      CausedStays(s, s', err);
      FinishedKept(s, err, |Body(err, s.decorated)|, e);
      assert Finished(s', err, |Body(err, s'.decorated)|);
    }
  }

  lemma WholeKept(s: State, e: Step)
    requires Origins(s) && Race(s) && Whole(s) && Enabled(s, e) && !e.Panic?
    ensures Whole(Apply(s, e))
  {
    if err, k: nat :| Finished(s, err, k) {
      var whole :| Finished(s, whole, |Body(whole, s.decorated)|) && Caused(s, whole);
      FinishedStaysWhole(s, whole, e);
    } else if e.Happen? {
      HappenOnlyAddsCallers(s, e.h);
      if w: nat :| Winner(s, w) && |s.span| > 0 {
        WorkIsNotFinished(s, w);
      }
    } else if e.FinishSpan? {
      FinishIsWhole(s, e.t);
    } else {
      RunningStaysWhole(s, e);
    }
  }

  lemma {:induction false} RunKeepsWhole(serverStreams: bool, decorated: bool, es: seq<Step>)
    requires Exec(Start(serverStreams, decorated), es).Some? && NoPanic(es)
    ensures Whole(Exec(Start(serverStreams, decorated), es).value)
  {
    if es != [] {
      var init, e := es[..|es| - 1], es[|es| - 1];
      assert forall k :: 0 <= k < |init| ==> init[k] == es[k];
      RunKeepsWhole(serverStreams, decorated, init);
      RunKeeps(serverStreams, decorated, init);
      WholeKept(Exec(Start(serverStreams, decorated), init).value, e);
    }
  }

  lemma WholeAtRest(s: State)
    requires Whole(s) && |s.span| > 0 && s.span[|s.span| - 1] == Finish
    ensures (EndedCleanly(s.serverStreams, s.past) && s.span == Success(s.decorated)) ||
            (exists e :: Reported(s.past, e) && s.span == Failure(e, s.decorated))
  {
    var err :| Finished(s, err, |Body(err, s.decorated)|) && Caused(s, err);
    CausesAreReports(s, if err.Some? then err.value else EOF);
    if err.Some? {
      assert s.span == Failure(err.value, s.decorated);
    }
  }

  /** When no span call panics, a stream that is over leaves the whole record of one failure that was reported, or of
      a clean end that happened, and nothing else. */
  lemma SpanTellsWhatHappened(serverStreams: bool, decorated: bool, es: seq<Step>)
    requires Exec(Start(serverStreams, decorated), es).Some? && NoPanic(es)
    requires Resting(Exec(Start(serverStreams, decorated), es).value)
    ensures var s := Exec(Start(serverStreams, decorated), es).value;
            || (!Over(serverStreams, s.past) && s.span == [])
            || (EndedCleanly(serverStreams, s.past) && s.span == Success(decorated))
            || (exists e :: Reported(s.past, e) && s.span == Failure(e, decorated))
  {
    var s := Exec(Start(serverStreams, decorated), es).value;
    assert Reachable(s);
    RunKeepsWhole(serverStreams, decorated, es);
    SetUpStays(serverStreams, decorated, es);
    FinishedIffOver(s);
    if Over(serverStreams, s.past) {
      WholeAtRest(s);
    }
  }

  // ----- one call at a time -----

  /** The calls have not ended the stream before hs[k]. */
  ghost predicate OpenUntil(serverStreams: bool, hs: seq<Happening>, k: int)
  {
    0 <= k < |hs| && !Over(serverStreams, hs[..k])
  }

  lemma OpenMeansNoFinish(serverStreams: bool, hs: seq<Happening>, j: nat)
    requires j < |hs| && !Over(serverStreams, hs)
    ensures Finishes(serverStreams, hs[j]).None?
  {
    OneHappening(serverStreams, hs[j], EOF);
    if e :| Reported([hs[j]], e) {
      assert Reported(hs, e);
    }
  }

  /** One call after another, the first happening that ends the stream decides: its error is recorded, or none if it
      is a clean end; before it nothing is. */
  lemma FirstEndDecides(serverStreams: bool, hs: seq<Happening>, k: int, e: Error)
    ensures !Over(serverStreams, hs) ==> AfterAll(serverStreams, hs) == Status(false, None)
    ensures OpenUntil(serverStreams, hs, k) && Reported([hs[k]], e) ==>
              AfterAll(serverStreams, hs) == Status(true, Some(e))
    ensures OpenUntil(serverStreams, hs, k) && EndedCleanly(serverStreams, [hs[k]]) ==>
              AfterAll(serverStreams, hs) == Status(true, None)
  {
    FirstTerminationIsTheCause(serverStreams, hs);
    if !Over(serverStreams, hs) {
      forall j | 0 <= j < |hs| ensures Finishes(serverStreams, hs[j]).None? {
        OpenMeansNoFinish(serverStreams, hs, j);
      }
      UnfinishedHasNoCause(serverStreams, hs);
    }
    if OpenUntil(serverStreams, hs, k) {
      forall j | 0 <= j < k ensures Finishes(serverStreams, hs[j]).None? {
        OpenMeansNoFinish(serverStreams, hs[..k], j);
      }
      OneHappening(serverStreams, hs[k], e);
      var s := AfterAll(serverStreams, hs);
      if Finishes(serverStreams, hs[k]).Some? {
        var first :| FirstTermination(serverStreams, hs, first, s.cause);
        assert first == k;
      }
    }
  }

  /** A finished span is, or will be, the whole record of this cause. */
  ghost predicate Tells(s: State, cause: Option<Error>)
  {
    s.isFinished ==>
      || (exists w: nat :: Winner(s, w) && s.threads[w].err == cause)
      || Finished(s, cause, |Body(cause, s.decorated)|)
  }

  lemma TellsStillByStep(s: State, cause: Option<Error>, e: Step)
    requires s.isFinished && Tells(s, cause) && Enabled(s, e) && !e.Happen? && !e.Panic?
    ensures Tells(Apply(s, e), cause)
  {
    var s' := Apply(s, e);
    StepFrame(s, e);
    if w: nat :| Winner(s, w) && s.threads[w].err == cause {
      OthersStay(s, e);
      if Mover(e) == w {
        WinnerMoves(s, w, e);
      } else {
        OtherMoves(s, w, e);
      }
      assert e != WatcherCalls || w != 0;
      assert s'.threads[w].err == cause;
    } else {
      FinishedKept(s, cause, |Body(cause, s.decorated)|, e);
    }
  }

  lemma TellsFromTheRace(s: State, e: Step)
    requires Recorded(s) && Race(s) && !s.isFinished && Enabled(s, e) && !e.Happen?
    ensures Tells(Apply(s, e), AfterAll(s.serverStreams, s.past).cause)
  {
    RecordedBeforeTheRace(s, e);
    UntouchedKept(s, e);
    StepFrame(s, e);
  }

  lemma TellsStillByHappening(s: State, h: Happening)
    requires Recorded(s) && Resting(s) && Enabled(s, Happen(h))
    requires Tells(s, AfterAll(s.serverStreams, s.past).cause)
    ensures var s' := Apply(s, Happen(h)); Tells(s', AfterAll(s'.serverStreams, s'.past).cause)
  {
    HappenOnlyAddsCallers(s, h);
    var s' := Apply(s, Happen(h));
    assert s'.past == s.past + [h] && s'.past[..|s.past|] == s.past;
  }

  lemma {:induction false} SequentialRunsTell(serverStreams: bool, decorated: bool, es: seq<Step>)
    requires Exec(Start(serverStreams, decorated), es).Some? && Sequential(Start(serverStreams, decorated), es)
    requires NoPanic(es)
    ensures var s := Exec(Start(serverStreams, decorated), es).value;
            Tells(s, AfterAll(s.serverStreams, s.past).cause)
  {
    if es != [] {
      var s0, init, e := Start(serverStreams, decorated), es[..|es| - 1], es[|es| - 1];
      assert forall k :: 0 <= k < |init| ==> init[k] == es[k] && init[..k] == es[..k];
      SequentialRunsTell(serverStreams, decorated, init);
      SequentialRunsRecord(serverStreams, decorated, init);
      RunKeeps(serverStreams, decorated, init);
      var m := Exec(s0, init).value;
      if e.Happen? {
        TellsStillByHappening(m, e.h);
      } else {
        StepFrame(m, e);
        if m.isFinished {
          TellsStillByStep(m, AfterAll(m.serverStreams, m.past).cause, e);
        } else {
          TellsFromTheRace(m, e);
        }
      }
    }
  }

  /** What the span tells at rest. */
  lemma TellsAtRest(s: State, k: int, e: Error)
    requires Race(s) && Resting(s) && Tells(s, AfterAll(s.serverStreams, s.past).cause)
    requires Over(s.serverStreams, s.past) ==> s.isFinished
    ensures OpenUntil(s.serverStreams, s.past, k) && Reported([s.past[k]], e) ==> s.span == Failure(e, s.decorated)
    ensures OpenUntil(s.serverStreams, s.past, k) && EndedCleanly(s.serverStreams, [s.past[k]]) ==>
              s.span == Success(s.decorated)
  {
    FirstEndDecides(s.serverStreams, s.past, k, e);
    assert forall w: nat :: !Winner(s, w);
    if OpenUntil(s.serverStreams, s.past, k) {
      if Reported([s.past[k]], e) {
        assert Reported(s.past, e);
      }
    }
  }

  /** The same of the span itself, when every goroutine has run before the next thing happens and no span call panics:
      the first end of the stream is the one the span tells. */
  lemma SequentialSpansTellTheFirstEnd(serverStreams: bool, decorated: bool, es: seq<Step>, k: int, e: Error)
    requires Exec(Start(serverStreams, decorated), es).Some? && Sequential(Start(serverStreams, decorated), es)
    requires Resting(Exec(Start(serverStreams, decorated), es).value) && NoPanic(es)
    ensures var s := Exec(Start(serverStreams, decorated), es).value;
            && (!Over(serverStreams, s.past) ==> s.span == [])
            && (OpenUntil(serverStreams, s.past, k) && Reported([s.past[k]], e) ==> s.span == Failure(e, decorated))
            && (OpenUntil(serverStreams, s.past, k) && EndedCleanly(serverStreams, [s.past[k]]) ==>
                  s.span == Success(decorated))
  {
    var s := Exec(Start(serverStreams, decorated), es).value;
    assert Reachable(s);
    SetUpStays(serverStreams, decorated, es);
    RunKeeps(serverStreams, decorated, es);
    FinishedIffOver(s);
    SequentialRunsTell(serverStreams, decorated, es);
    TellsAtRest(s, k, e);
  }

  // ----- everything comes to rest -----

  /** How many steps a goroutine has left at most. */
  function Left(g: Goroutine, decorated: bool): nat
  {
    var n := |Body(g.err, decorated)|;
    match g.pc
    case Watching => 7
    case Calling => n + 3
    case Won => n + 2
    case Working(k) => if k <= n then n - k + 1 else 0
    case Done => 0
  }

  function LeftInAll(gs: seq<Goroutine>, decorated: bool): nat
  {
    if gs == [] then 0 else LeftInAll(gs[..|gs| - 1], decorated) + Left(gs[|gs| - 1], decorated)
  }

  lemma {:induction false} LessLeft(gs: seq<Goroutine>, t: nat, g: Goroutine, decorated: bool)
    requires t < |gs| && Left(g, decorated) < Left(gs[t], decorated)
    ensures LeftInAll(gs[t := g], decorated) < LeftInAll(gs, decorated)
  {
    var n := |gs| - 1;
    if t == n {
      assert gs[t := g][..n] == gs[..n];
    } else {
      LessLeft(gs[..n], t, g, decorated);
      assert gs[t := g][..n] == gs[..n][t := g];
    }
  }

  /** A goroutine that is not at rest has a step of its own. */
  function StepOf(s: State, t: nat): Step
    requires t < |s.threads|
  {
    match s.threads[t].pc
    case Watching => if s.closes > 0 then WatcherLeaves else WatcherCalls
    case Calling => CompareAndSwap(t)
    case Won => CloseChannel(t)
    case Working(k) => if k == |Body(s.threads[t].err, s.decorated)| then FinishSpan(t) else Work(t)
    case Done => WatcherLeaves
  }

  ghost predicate Idle(s: State, t: nat)
    requires t < |s.threads|
  {
    s.threads[t].pc == Done || (t == 0 && s.threads[t].pc == Watching && s.closes == 0 && s.contextErr.None?)
  }

  lemma StepOfIsEnabled(s: State, t: nat)
    requires Origins(s) && Race(s) && t < |s.threads| && !Idle(s, t)
    ensures Enabled(s, StepOf(s, t))
  {
    if s.threads[t].pc.Working? {
      assert Active(s.threads[t]);
      var w: nat :| Winner(s, w);
    }
  }

  lemma OwnMove(s: State, t: nat) returns (g: Goroutine)
    requires t < |s.threads| && !Idle(s, t) && Enabled(s, StepOf(s, t)) && (t > 0 ==> !s.threads[t].pc.Watching?)
    ensures Apply(s, StepOf(s, t)).threads == s.threads[t := g]
    ensures Left(g, s.decorated) < Left(s.threads[t], s.decorated)
  {
    g := Apply(s, StepOf(s, t)).threads[t];
  }

  lemma StepOfLeavesLess(s: State, t: nat)
    requires t < |s.threads| && !Idle(s, t) && Enabled(s, StepOf(s, t)) && (t > 0 ==> !s.threads[t].pc.Watching?)
    ensures LeftInAll(Apply(s, StepOf(s, t)).threads, s.decorated) < LeftInAll(s.threads, s.decorated)
  {
    var g := OwnMove(s, t);
    LessLeft(s.threads, t, g, s.decorated);
  }

  lemma StepStaysReachable(s: State, e: Step)
    requires Reachable(s) && Enabled(s, e)
    ensures Reachable(Apply(s, e))
  {
    var streams, decorated, es :| Exec(Start(streams, decorated), es) == Some(s);
    assert (es + [e])[..|es|] == es;
    assert Exec(Start(streams, decorated), es + [e]) == Some(Apply(s, e));
  }

  lemma ExecStep(s: State, e: Step, es: seq<Step>)
    requires Enabled(s, e) && Exec(Apply(s, e), es).Some?
    ensures Exec(s, [e] + es) == Exec(Apply(s, e), es)
  {
    if es == [] {
      assert [e][..0] == [];
      assert [e] + es == [e];
      assert Exec(s, [e][..0]) == Some(s);
    } else {
      var n := |es| - 1;
      ExecStep(s, e, es[..n]);
      assert ([e] + es)[..|es|] == [e] + es[..n] && ([e] + es)[|es|] == es[n];
    }
  }

  lemma MoveOn(s: State, t: nat) returns (e: Step)
    requires Reachable(s) && t < |s.threads| && !Idle(s, t)
    ensures Enabled(s, e) && !e.Happen? && !e.Panic? && Reachable(Apply(s, e))
    ensures LeftInAll(Apply(s, e).threads, s.decorated) < LeftInAll(s.threads, s.decorated)
  {
    e := StepOf(s, t);
    ReachableRace(s);
    StepOfIsEnabled(s, t);
    StepOfLeavesLess(s, t);
    StepStaysReachable(s, e);
  }

  /** From every state the goroutines come to rest by their own steps, without a panic and whatever has happened. */
  lemma GoroutinesComeToRest(s: State) returns (es: seq<Step>)
    requires Reachable(s)
    ensures NoPanic(es) && forall k :: 0 <= k < |es| ==> !es[k].Happen?
    ensures Exec(s, es).Some? && Resting(Exec(s, es).value) && Exec(s, es).value.past == s.past
    decreases LeftInAll(s.threads, s.decorated)
  {
    if Resting(s) {
      return [];
    }
    var t :| 0 <= t < |s.threads| && s.threads[t].pc != Done &&
      !(t == 0 && s.threads[t].pc == Watching && s.closes == 0 && s.contextErr.None?);
    var e := MoveOn(s, t);
    StepFrame(s, e);
    var rest := GoroutinesComeToRest(Apply(s, e));
    ExecStep(s, e, rest);
    return [e] + rest;
  }
}
