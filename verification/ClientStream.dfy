/** The client stream's span: user calls, a watcher goroutine and a finalizer race to finish it once. Every
    atomic action of every goroutine is one step, in any interleaving. */
module ClientStream {
  import opened Common

  datatype Error = EOF | Other(message: string)

  /** What the outside does to the stream: the result of a wrapped call, the end of its context, or its
      collection. */
  datatype Happening =
    | Header(err: Option<Error>)
    | SendMsg(err: Option<Error>)
    | RecvMsg(err: Option<Error>)
    | CloseSend(err: Option<Error>)
    | ContextDone(cause: Error)
    | Collected

  /** The error finishFunc is called with, if this happening calls it. An end of stream is a clean finish only when
      receiving; a reply finishes a stream on which the server sends one message. */
  function Finishes(serverStreams: bool, h: Happening): Option<Option<Error>>
  {
    match h
    case Header(err) => if err.Some? then Some(err) else None
    case SendMsg(err) => if err.Some? then Some(err) else None
    case RecvMsg(err) =>
      if err == Some(EOF) then Some(None)
      else if err.Some? then Some(err)
      else if !serverStreams then Some(None)
      else None
    case CloseSend(err) => if err.Some? then Some(err) else None
    case ContextDone(cause) => Some(Some(cause))
    case Collected => Some(None)
  }

  // ----- one goroutine at a time -----

  /** The stream object when calls come one after another. `cause` is what the span was finished with. */
  class OpenTracingClientStream {
    const serverStreams: bool
    var isFinished: bool
    var cause: Option<Error>

    constructor (serverStreams: bool)
      ensures this.serverStreams == serverStreams && !isFinished && cause == None
    {
      this.serverStreams := serverStreams;
      isFinished, cause := false, None;
    }

    method FinishFunc(err: Option<Error>)
      modifies this
      ensures isFinished
      ensures cause == if old(isFinished) then old(cause) else err
    {
      if isFinished {
        return;
      }
      isFinished, cause := true, err;
    }

    method OnHeader(err: Option<Error>)
      modifies this
      ensures Status(isFinished, cause) == After(serverStreams, old(Status(isFinished, cause)), Header(err))
      ensures isFinished == (old(isFinished) || err.Some?)
      ensures cause == if old(isFinished) || err.None? then old(cause) else err
    {
      if err.Some? {
        FinishFunc(err);
      }
    }

    method OnSendMsg(err: Option<Error>)
      modifies this
      ensures Status(isFinished, cause) == After(serverStreams, old(Status(isFinished, cause)), SendMsg(err))
      ensures isFinished == (old(isFinished) || err.Some?)
      ensures cause == if old(isFinished) || err.None? then old(cause) else err
    {
      if err.Some? {
        FinishFunc(err);
      }
    }

    method OnRecvMsg(err: Option<Error>)
      modifies this
      ensures Status(isFinished, cause) == After(serverStreams, old(Status(isFinished, cause)), RecvMsg(err))
      ensures isFinished == (old(isFinished) || err.Some? || !serverStreams)
      ensures old(isFinished) || (err.None? && serverStreams) ==> cause == old(cause)
      ensures !old(isFinished) && (err == Some(EOF) || (err.None? && !serverStreams)) ==> cause == None
      ensures !old(isFinished) && err.Some? && err != Some(EOF) ==> cause == err
    {
      if err == Some(EOF) {
        FinishFunc(None);
        return;
      } else if err.Some? {
        FinishFunc(err);
        return;
      }
      if !serverStreams {
        FinishFunc(None);
      }
    }

    method OnCloseSend(err: Option<Error>)
      modifies this
      ensures Status(isFinished, cause) == After(serverStreams, old(Status(isFinished, cause)), CloseSend(err))
      ensures isFinished == (old(isFinished) || err.Some?)
      ensures cause == if old(isFinished) || err.None? then old(cause) else err
    {
      if err.Some? {
        FinishFunc(err);
      }
    }
  }

  datatype Status = Status(isFinished: bool, cause: Option<Error>)

  function After(serverStreams: bool, s: Status, h: Happening): Status
  {
    var f := Finishes(serverStreams, h);
    if s.isFinished || f.None? then s else Status(true, f.value)
  }

  function AfterAll(serverStreams: bool, hs: seq<Happening>): Status
  {
    if hs == [] then Status(false, None)
    else After(serverStreams, AfterAll(serverStreams, hs[..|hs| - 1]), hs[|hs| - 1])
  }

  /** hs[k] is the first happening that finishes the span, and it does so with this cause. */
  ghost predicate FirstTermination(serverStreams: bool, hs: seq<Happening>, k: int, cause: Option<Error>)
  {
    && 0 <= k < |hs|
    && Finishes(serverStreams, hs[k]) == Some(cause)
    && forall j :: 0 <= j < k ==> Finishes(serverStreams, hs[j]).None?
  }

  /** In a sequential run the span is finished exactly when something terminating happened, with the cause of the first
      such happening. */
  lemma {:induction false} FirstTerminationIsTheCause(serverStreams: bool, hs: seq<Happening>)
    ensures var s := AfterAll(serverStreams, hs);
            && (s.isFinished <==> exists k :: 0 <= k < |hs| && Finishes(serverStreams, hs[k]).Some?)
            && (s.isFinished ==> exists k :: FirstTermination(serverStreams, hs, k, s.cause))
  {
    if hs != [] {
      var init, n := hs[..|hs| - 1], |hs| - 1;
      FirstTerminationIsTheCause(serverStreams, init);
      var s := AfterAll(serverStreams, init);
      if s.isFinished {
        var k :| FirstTermination(serverStreams, init, k, s.cause);
        assert FirstTermination(serverStreams, hs, k, s.cause);
      } else {
        assert forall j :: 0 <= j < n ==> hs[j] == init[j];
        if Finishes(serverStreams, hs[n]).Some? {
          assert FirstTermination(serverStreams, hs, n, Finishes(serverStreams, hs[n]).value);
        }
      }
    }
  }

  // ----- every interleaving -----

  datatype SpanEvent = LogError(error: Error) | ErrorTag(error: Error) | Decorate(err: Option<Error>) | Finish

  /** What finishFunc does to the span between winning the compare-and-swap and the deferred Finish. */
  function Body(err: Option<Error>, decorated: bool): seq<SpanEvent>
  {
    (if err.Some? then [LogError(err.value), ErrorTag(err.value)] else []) + (if decorated then [Decorate(err)] else [])
  }

  /** A goroutine inside finishFunc: before the compare-and-swap, before closing the channel, after `k` body events, or
      returned. The watcher first waits in its select. */
  datatype Pc = Watching | Calling | Won | Working(k: nat) | Done

  datatype Goroutine = Goroutine(pc: Pc, err: Option<Error>)

  datatype State = State(
    serverStreams: bool, decorated: bool,
    isFinished: bool,
    closes: nat,                    // how often finishChan was closed
    contextErr: Option<Error>,      // set once the stream's context is done
    span: seq<SpanEvent>,
    threads: seq<Goroutine>,        // threads[0] is the watcher
    past: seq<Happening>)

  datatype Step =
    | Happen(h: Happening)
    | WatcherLeaves          // the select takes the closed channel
    | WatcherCalls           // the select takes the done context
    | CompareAndSwap(t: nat)
    | CloseChannel(t: nat)
    | Work(t: nat)           // one body event
    | FinishSpan(t: nat)     // the deferred Finish after the whole body
    | Panic(t: nat)          // a span call panics: the deferred Finish still runs

  function Start(serverStreams: bool, decorated: bool): State
  {
    State(serverStreams, decorated, false, 0, None, [], [Goroutine(Watching, None)], [])
  }

  predicate At(s: State, t: nat, pc: Pc) { t < |s.threads| && s.threads[t].pc == pc }

  predicate Enabled(s: State, e: Step)
  {
    match e
    case Happen(h) => h.ContextDone? ==> s.contextErr.None?
    case WatcherLeaves => At(s, 0, Watching) && s.closes > 0
    case WatcherCalls => At(s, 0, Watching) && s.contextErr.Some?
    case CompareAndSwap(t) => At(s, t, Calling)
    case CloseChannel(t) => At(s, t, Won)
    case Work(t) =>
      t < |s.threads| && s.threads[t].pc.Working? && s.threads[t].pc.k < |Body(s.threads[t].err, s.decorated)|
    case FinishSpan(t) =>
      t < |s.threads| && s.threads[t].pc == Working(|Body(s.threads[t].err, s.decorated)|)
    case Panic(t) => t < |s.threads| && s.threads[t].pc.Working?
  }

  function Move(s: State, t: nat, pc: Pc): State
    requires t < |s.threads|
  {
    s.(threads := s.threads[t := s.threads[t].(pc := pc)])
  }

  function Apply(s: State, e: Step): State
    requires Enabled(s, e)
  {
    match e
    case Happen(h) =>
      var f := Finishes(s.serverStreams, h);
      var s' := s.(past := s.past + [h]);
      if h.ContextDone? then s'.(contextErr := Some(h.cause))
      else if f.Some? then s'.(threads := s.threads + [Goroutine(Calling, f.value)])
      else s'
    case WatcherLeaves => Move(s, 0, Done)
    case WatcherCalls => s.(threads := s.threads[0 := Goroutine(Calling, s.contextErr)])
    case CompareAndSwap(t) => if s.isFinished then Move(s, t, Done) else Move(s, t, Won).(isFinished := true)
    case CloseChannel(t) => Move(s, t, Working(0)).(closes := s.closes + 1)
    case Work(t) =>
      Move(s, t, Working(s.threads[t].pc.k + 1))
        .(span := s.span + [Body(s.threads[t].err, s.decorated)[s.threads[t].pc.k]])
    case FinishSpan(t) => Move(s, t, Done).(span := s.span + [Finish])
    case Panic(t) => Move(s, t, Done).(span := s.span + [Finish])
  }

  function Exec(s: State, es: seq<Step>): Option<State>
  {
    if es == [] then Some(s)
    else
      match Exec(s, es[..|es| - 1])
      case None => None
      case Some(m) => if Enabled(m, es[|es| - 1]) then Some(Apply(m, es[|es| - 1])) else None
  }

  ghost predicate Reachable(s: State)
  {
    exists streams, decorated, es :: Exec(Start(streams, decorated), es) == Some(s)
  }

  /** The goroutine has won the compare-and-swap and not returned yet. */
  predicate Active(g: Goroutine) { g.pc.Won? || g.pc.Working? }

  /** Goroutine `w` is working: it closed the channel, and the span holds exactly its first k body events. */
  ghost predicate Winner(s: State, w: nat)
  {
    && w < |s.threads| && Active(s.threads[w]) && s.isFinished
    && (forall u :: 0 <= u < |s.threads| && u != w ==> !Active(s.threads[u]))
    && (s.threads[w].pc.Won? ==> s.closes == 0 && s.span == [])
    && (s.threads[w].pc.Working? ==>
          && s.closes == 1
          && s.threads[w].pc.k <= |Body(s.threads[w].err, s.decorated)|
          && s.span == Body(s.threads[w].err, s.decorated)[..s.threads[w].pc.k])
  }

  /** The span of a finish that is over: part of one caller's body, in order, then Finish. */
  ghost predicate Finished(s: State, err: Option<Error>, k: nat)
  {
    && s.isFinished && s.closes == 1
    && (forall u :: 0 <= u < |s.threads| ==> !Active(s.threads[u]))
    && k <= |Body(err, s.decorated)| && s.span == Body(err, s.decorated)[..k] + [Finish]
  }

  ghost predicate Untouched(s: State)
  {
    && !s.isFinished && s.closes == 0 && s.span == []
    && forall u :: 0 <= u < |s.threads| ==> !Active(s.threads[u]) && s.threads[u].pc != Done
  }

  /** Callers carry the error of something that happened. */
  ghost predicate Caused(s: State, err: Option<Error>)
  {
    exists k :: 0 <= k < |s.past| && Finishes(s.serverStreams, s.past[k]) == Some(err)
  }

  ghost predicate Origins(s: State)
  {
    && |s.threads| > 0
    && (forall t :: 0 <= t < |s.threads| && s.threads[t].pc != Watching ==>
          (t == 0 && s.threads[t].pc == Done && s.isFinished) || Caused(s, s.threads[t].err))
    && (forall t :: 0 < t < |s.threads| ==> s.threads[t].pc != Watching)
    && (s.contextErr.Some? ==> Caused(s, Some(s.contextErr.value)))
    && (forall k :: 0 <= k < |s.past| && Finishes(s.serverStreams, s.past[k]).Some? ==>
          s.past[k].ContextDone? || |s.threads| > 1)
    && (forall k :: 0 <= k < |s.past| && s.past[k].ContextDone? ==> s.contextErr.Some?)
  }

  ghost predicate Race(s: State)
  {
    Untouched(s) || (exists w: nat :: Winner(s, w)) ||
    (exists err, k: nat :: Finished(s, err, k) && Caused(s, err))
  }

  lemma CausedStays(s: State, s': State, err: Option<Error>)
    requires Caused(s, err) && s.past <= s'.past && s.serverStreams == s'.serverStreams
    ensures Caused(s', err)
  {
    var k :| 0 <= k < |s.past| && Finishes(s.serverStreams, s.past[k]) == Some(err);
    assert s'.past[k] == s.past[k];
  }

  /** What a happening leaves as it is: it only adds a caller. */
  ghost predicate OnlyCallersAdded(s: State, s': State)
  {
    && s'.(contextErr := s.contextErr, threads := s.threads, past := s.past) == s
    && s.threads <= s'.threads && s.past <= s'.past
    && forall u :: |s.threads| <= u < |s'.threads| ==> s'.threads[u].pc == Calling
  }

  lemma HappenOnlyAddsCallers(s: State, h: Happening)
    requires Enabled(s, Happen(h))
    ensures OnlyCallersAdded(s, Apply(s, Happen(h)))
  {
  }

  lemma CallersKeepRace(s: State, s': State)
    requires Race(s) && OnlyCallersAdded(s, s')
    ensures Race(s')
  {
    assert forall u :: 0 <= u < |s.threads| ==> s'.threads[u] == s.threads[u];
    if w: nat :| Winner(s, w) {
      assert Winner(s', w);
    } else if err, k: nat :| Finished(s, err, k) && Caused(s, err) {
      CausedStays(s, s', err);
      assert Finished(s', err, k);
    }
  }

  lemma HappenKeepsCauses(s: State, h: Happening)
    requires Enabled(s, Happen(h))
    ensures var s' := Apply(s, Happen(h));
            && (forall err :: Caused(s, err) ==> Caused(s', err))
            && (Finishes(s.serverStreams, h).Some? ==> Caused(s', Finishes(s.serverStreams, h).value))
  {
    var s' := Apply(s, Happen(h));
    assert s'.past[|s.past|] == h;
    forall err | Caused(s, err) ensures Caused(s', err) {
      CausedStays(s, s', err);
    }
  }

  lemma HappenKeepsOrigins(s: State, h: Happening)
    requires Origins(s) && Enabled(s, Happen(h))
    ensures Origins(Apply(s, Happen(h)))
  {
    var s', n := Apply(s, Happen(h)), |s.past|;
    HappenKeepsCauses(s, h);
    assert s'.past[n] == h && forall k :: 0 <= k < n ==> s'.past[k] == s.past[k];
    assert forall u :: 0 <= u < |s.threads| ==> s'.threads[u] == s.threads[u];
  }

  lemma SameCauses(s: State, s': State)
    requires s'.past == s.past && s'.serverStreams == s.serverStreams
    ensures forall err :: Caused(s, err) <==> Caused(s', err)
  {
  }

  /** What a step of a goroutine leaves as it is. */
  lemma StepFrame(s: State, e: Step)
    requires !e.Happen? && Enabled(s, e)
    ensures var s' := Apply(s, e);
            && s'.past == s.past && s'.serverStreams == s.serverStreams && s'.decorated == s.decorated
            && s'.contextErr == s.contextErr && |s'.threads| == |s.threads|
            && (s.isFinished ==> s'.isFinished)
  {
  }

  /** The goroutine a step belongs to. */
  function Mover(e: Step): nat
    requires !e.Happen?
  {
    match e
    case WatcherLeaves => 0
    case WatcherCalls => 0
    case CompareAndSwap(t) => t
    case CloseChannel(t) => t
    case Work(t) => t
    case FinishSpan(t) => t
    case Panic(t) => t
  }

  lemma OthersStay(s: State, e: Step)
    requires !e.Happen? && Enabled(s, e)
    ensures var s' := Apply(s, e);
            && Mover(e) < |s.threads| == |s'.threads|
            && (forall u :: 0 <= u < |s.threads| && u != Mover(e) ==> s'.threads[u] == s.threads[u])
            && s'.threads[Mover(e)].pc != Watching
            && (e != WatcherCalls ==> s'.threads[Mover(e)].err == s.threads[Mover(e)].err)
  {
  }

  /** Where goroutine t comes from. */
  ghost predicate Origin(s: State, t: nat)
    requires t < |s.threads|
  {
    s.threads[t].pc != Watching ==>
      (t == 0 && s.threads[t].pc == Done && s.isFinished) || Caused(s, s.threads[t].err)
  }

  lemma MoverKeepsOrigin(s: State, e: Step)
    requires Origins(s) && !e.Happen? && Enabled(s, e)
    requires e == WatcherLeaves ==> s.isFinished
    ensures Mover(e) < |Apply(s, e).threads| && Origin(Apply(s, e), Mover(e))
  {
    var s', m := Apply(s, e), Mover(e);
    OthersStay(s, e);
    StepFrame(s, e);
    SameCauses(s, s');
    if e == WatcherCalls {
      assert s'.threads[0].err == s.contextErr;
    } else if e != WatcherLeaves {
      assert Origin(s, m) && s.threads[m].pc != Watching && s.threads[m].pc != Done;
    }
  }

  lemma OriginsKept(s: State, e: Step)
    requires Origins(s) && !e.Happen? && Enabled(s, e)
    requires e == WatcherLeaves ==> s.isFinished
    ensures Origins(Apply(s, e))
  {
    var s' := Apply(s, e);
    MoverKeepsOrigin(s, e);
    OthersStay(s, e);
    StepFrame(s, e);
    SameCauses(s, s');
    forall t | 0 <= t < |s'.threads| && t != Mover(e) ensures Origin(s', t) {
      assert Origin(s, t);
    }
  }

  lemma UntouchedKept(s: State, e: Step)
    requires Untouched(s) && !e.Happen? && Enabled(s, e)
    ensures Untouched(Apply(s, e)) || (e.CompareAndSwap? && Winner(Apply(s, e), e.t))
  {
    OthersStay(s, e);
  }

  lemma WinnerMoves(s: State, w: nat, e: Step)
    requires Winner(s, w) && !e.Happen? && Enabled(s, e) && Mover(e) == w
    ensures Winner(Apply(s, e), w) ||
            (s.threads[w].pc.Working? && Finished(Apply(s, e), s.threads[w].err, s.threads[w].pc.k))
  {
    OthersStay(s, e);
    if e.Work? {
      var body, k := Body(s.threads[w].err, s.decorated), s.threads[w].pc.k;
      assert body[..k + 1] == body[..k] + [body[k]];
    }
  }

  lemma OtherMoves(s: State, w: nat, e: Step)
    requires Winner(s, w) && !e.Happen? && Enabled(s, e) && Mover(e) != w
    ensures Winner(Apply(s, e), w)
  {
    OthersStay(s, e);
    assert !Active(s.threads[Mover(e)]);
  }

  lemma FinishedKept(s: State, err: Option<Error>, k: nat, e: Step)
    requires Finished(s, err, k) && !e.Happen? && Enabled(s, e)
    ensures Finished(Apply(s, e), err, k)
  {
    OthersStay(s, e);
  }

  lemma RaceKept(s: State, e: Step)
    requires Origins(s) && Race(s) && !e.Happen? && Enabled(s, e)
    ensures Race(Apply(s, e))
  {
    SameCauses(s, Apply(s, e));
    if Untouched(s) {
      UntouchedKept(s, e);
    } else if w: nat :| Winner(s, w) {
      if Mover(e) == w {
        WinnerMoves(s, w, e);
      } else {
        OtherMoves(s, w, e);
      }
      assert Caused(s, s.threads[w].err);
    } else {
      var err, k: nat :| Finished(s, err, k) && Caused(s, err);
      FinishedKept(s, err, k, e);
    }
  }

  lemma {:induction false} RunKeeps(serverStreams: bool, decorated: bool, es: seq<Step>)
    requires Exec(Start(serverStreams, decorated), es).Some?
    ensures var s := Exec(Start(serverStreams, decorated), es).value; Origins(s) && Race(s)
  {
    if es != [] {
      var init, e := es[..|es| - 1], es[|es| - 1];
      RunKeeps(serverStreams, decorated, init);
      var m := Exec(Start(serverStreams, decorated), init).value;
      if e.Happen? {
        HappenKeepsOrigins(m, e.h);
        HappenOnlyAddsCallers(m, e.h);
        CallersKeepRace(m, Apply(m, e));
      } else {
        OriginsKept(m, e);
        RaceKept(m, e);
      }
    }
  }

  lemma ReachableRace(s: State)
    requires Reachable(s)
    ensures Origins(s) && Race(s)
  {
    var streams, decorated, es :| Exec(Start(streams, decorated), es) == Some(s);
    RunKeeps(streams, decorated, es);
  }

  // ----- main results -----

  /** At most one goroutine is ever between winning the compare-and-swap and returning, so nobody else touches the
      span. */
  lemma OnlyTheWinnerTouchesTheSpan(s: State, t: nat, u: nat)
    requires Reachable(s) && t < |s.threads| && u < |s.threads|
    requires Active(s.threads[t]) && Active(s.threads[u])
    ensures t == u
  {
    ReachableRace(s);
    var w: nat :| Winner(s, w);
  }

  /** Over all interleavings: the channel is closed at most once; the span holds events of one caller only, in order,
      followed by at most one Finish; and that caller's error comes from something that terminated the stream. */
  lemma SpanIsFinishedOnce(s: State)
    requires Reachable(s)
    ensures s.closes <= 1
    ensures s.span != [] ==>
              exists err, k: nat :: Caused(s, err) && k <= |Body(err, s.decorated)| &&
                (s.span == Body(err, s.decorated)[..k] || s.span == Body(err, s.decorated)[..k] + [Finish])
  {
    ReachableRace(s);
  }

  /** So nothing follows a Finish, and an error tag names an error that terminated the stream. */
  lemma NothingFollowsFinish(s: State, i: nat)
    requires Reachable(s) && i < |s.span|
    ensures s.span[i].Finish? ==> i == |s.span| - 1
    ensures s.span[i].ErrorTag? ==> Caused(s, Some(s.span[i].error))
  {
    SpanIsFinishedOnce(s);
    var err, k: nat :| Caused(s, err) && k <= |Body(err, s.decorated)| &&
      (s.span == Body(err, s.decorated)[..k] || s.span == Body(err, s.decorated)[..k] + [Finish]);
    if i < k {
      assert s.span[i] == Body(err, s.decorated)[i];
    }
  }

  /** Nothing is left to run: every goroutine has returned, or the watcher waits for something that has not happened. */
  predicate Resting(s: State)
  {
    forall t :: 0 <= t < |s.threads| ==>
      s.threads[t].pc == Done || (t == 0 && s.threads[t].pc == Watching && s.closes == 0 && s.contextErr.None?)
  }

  /** When everything has run, the span is finished exactly when something terminating happened. */
  lemma FinishedIffTerminated(s: State)
    requires Reachable(s) && Resting(s)
    ensures (s.span != [] && s.span[|s.span| - 1] == Finish) <==>
            exists k :: 0 <= k < |s.past| && Finishes(s.serverStreams, s.past[k]).Some?
  {
    ReachableRace(s);
    if k :| 0 <= k < |s.past| && Finishes(s.serverStreams, s.past[k]).Some? {
      if s.past[k].ContextDone? {
        assert s.threads[0].pc == Done;
      } else {
        assert s.threads[1].pc == Done;
      }
      assert !Untouched(s);
    }
  }

  /** Once the span is being finished the watcher can always leave, and whichever branch its select takes, nothing but
      its own position changes. */
  lemma WatcherAlwaysLeaves(s: State)
    requires Reachable(s) && s.closes > 0 && At(s, 0, Watching)
    ensures Enabled(s, WatcherLeaves) && Apply(s, WatcherLeaves) == Move(s, 0, Done)
    ensures Enabled(s, WatcherCalls) ==>
              var called := Apply(s, WatcherCalls);
              Enabled(called, CompareAndSwap(0)) &&
              Apply(called, CompareAndSwap(0)) == s.(threads := s.threads[0 := Goroutine(Done, s.contextErr)])
  {
    ReachableRace(s);
  }

  // ----- one call at a time, over the same machine -----

  /** Everything has run whenever something new happens. */
  ghost predicate Sequential(s0: State, es: seq<Step>)
  {
    forall k :: 0 <= k < |es| && es[k].Happen? ==>
      Exec(s0, es[..k]).Some? && Resting(Exec(s0, es[..k]).value)
  }

  /** Before the compare-and-swap is won, everyone who may win it carries the cause in `status`; after that it is what
      the winner carries. */
  ghost predicate Carries(s: State, status: Status)
  {
    if !s.isFinished then
      && (forall t :: 0 <= t < |s.threads| && s.threads[t].pc.Calling? ==> status == Status(true, s.threads[t].err))
      && (s.contextErr.Some? ==> status == Status(true, s.contextErr))
    else
      && status.isFinished
      && ((exists w: nat :: Winner(s, w) && s.threads[w].err == status.cause) ||
          (exists k: nat :: Finished(s, status.cause, k)))
  }

  /** The machine has recorded what the calls do one after another. */
  ghost predicate Recorded(s: State) { Carries(s, AfterAll(s.serverStreams, s.past)) }

  lemma RecordedBeforeTheRace(s: State, e: Step)
    requires Recorded(s) && Race(s) && !s.isFinished && !e.Happen? && Enabled(s, e)
    ensures Recorded(Apply(s, e))
  {
    var s' := Apply(s, e);
    UntouchedKept(s, e);
    OthersStay(s, e);
    StepFrame(s, e);
    assert e == WatcherCalls ==> s'.threads[0].err == s.contextErr;
    if s'.isFinished {
      assert Winner(s', e.t) && s'.threads[e.t].err == s.threads[e.t].err;
    }
  }

  lemma RecordedAfterTheRace(s: State, e: Step)
    requires Recorded(s) && s.isFinished && !e.Happen? && Enabled(s, e)
    ensures Recorded(Apply(s, e))
  {
    var s', status := Apply(s, e), AfterAll(s.serverStreams, s.past);
    StepFrame(s, e);
    if w: nat :| Winner(s, w) && s.threads[w].err == status.cause {
      OthersStay(s, e);
      if Mover(e) == w {
        WinnerMoves(s, w, e);
      } else {
        OtherMoves(s, w, e);
      }
      assert e != WatcherCalls || w != 0;
      assert s'.threads[w].err == status.cause;
    } else {
      var k: nat :| Finished(s, status.cause, k);
      FinishedKept(s, status.cause, k, e);
    }
  }

  lemma HappenAfterFinish(s: State, h: Happening, status: Status)
    requires s.isFinished && Resting(s) && Carries(s, status) && Enabled(s, Happen(h))
    ensures Carries(Apply(s, Happen(h)), After(s.serverStreams, status, h))
  {
    var k: nat :| Finished(s, status.cause, k);
    HappenOnlyAddsCallers(s, h);
    assert Finished(Apply(s, Happen(h)), status.cause, k);
  }

  lemma HappenBeforeFinish(s: State, h: Happening)
    requires !s.isFinished && Resting(s) && s.contextErr.None? && Enabled(s, Happen(h))
    ensures Carries(Apply(s, Happen(h)), After(s.serverStreams, Status(false, None), h))
  {
  }

  lemma {:induction false} UnfinishedHasNoCause(serverStreams: bool, hs: seq<Happening>)
    requires !AfterAll(serverStreams, hs).isFinished
    ensures AfterAll(serverStreams, hs) == Status(false, None)
  {
    if hs != [] {
      UnfinishedHasNoCause(serverStreams, hs[..|hs| - 1]);
    }
  }

  lemma HappenRecorded(s: State, h: Happening)
    requires Reachable(s) && Resting(s) && Recorded(s) && Enabled(s, Happen(h))
    ensures Recorded(Apply(s, Happen(h)))
  {
    if s.isFinished {
      HappenAfterFinish(s, h, AfterAll(s.serverStreams, s.past));
    } else {
      ReachableRace(s);
      FinishedIffTerminated(s);
      FirstTerminationIsTheCause(s.serverStreams, s.past);
      UnfinishedHasNoCause(s.serverStreams, s.past);
      HappenBeforeFinish(s, h);
    }
  }

  lemma {:induction false} SequentialRunsRecord(serverStreams: bool, decorated: bool, es: seq<Step>)
    requires Exec(Start(serverStreams, decorated), es).Some? && Sequential(Start(serverStreams, decorated), es)
    ensures Recorded(Exec(Start(serverStreams, decorated), es).value)
  {
    if es != [] {
      var s0, init, e := Start(serverStreams, decorated), es[..|es| - 1], es[|es| - 1];
      assert forall k :: 0 <= k < |init| ==> init[k] == es[k] && init[..k] == es[..k];
      SequentialRunsRecord(serverStreams, decorated, init);
      var m := Exec(s0, init).value;
      assert Reachable(m);
      ReachableRace(m);
      if e.Happen? {
        HappenRecorded(m, e.h);
      } else if m.isFinished {
        RecordedAfterTheRace(m, e);
      } else {
        RecordedBeforeTheRace(m, e);
      }
    }
  }

  /** When every caller and the watcher have run before the next thing happens, the interleaving machine does what the
      sequential reading says: at rest the span is finished exactly when something terminating has happened, and it
      was finished with the cause of the first such happening. */
  lemma SequentialRunsFinishWithTheFirstCause(serverStreams: bool, decorated: bool, es: seq<Step>)
    requires Exec(Start(serverStreams, decorated), es).Some? && Sequential(Start(serverStreams, decorated), es)
    requires Resting(Exec(Start(serverStreams, decorated), es).value)
    ensures var s := Exec(Start(serverStreams, decorated), es).value;
            var status := AfterAll(serverStreams, s.past);
            if status.isFinished
            then exists k: nat, first :: FirstTermination(serverStreams, s.past, first, status.cause) &&
                   k <= |Body(status.cause, decorated)| && s.span == Body(status.cause, decorated)[..k] + [Finish]
            else s.span == []
  {
    var s := Exec(Start(serverStreams, decorated), es).value;
    assert Reachable(s);
    SequentialRunsRecord(serverStreams, decorated, es);
    RunKeeps(serverStreams, decorated, es);
    SetUpStays(serverStreams, decorated, es);
    FinishedIffTerminated(s);
    FirstTerminationIsTheCause(serverStreams, s.past);
  }

  lemma {:induction false} SetUpStays(serverStreams: bool, decorated: bool, es: seq<Step>)
    requires Exec(Start(serverStreams, decorated), es).Some?
    ensures var s := Exec(Start(serverStreams, decorated), es).value;
            s.serverStreams == serverStreams && s.decorated == decorated
  {
    if es != [] {
      var init, e := es[..|es| - 1], es[|es| - 1];
      SetUpStays(serverStreams, decorated, init);
      var m := Exec(Start(serverStreams, decorated), init).value;
      if e.Happen? {
        HappenOnlyAddsCallers(m, e.h);
      } else {
        StepFrame(m, e);
      }
    }
  }
}
