/** `NonBlockingSuperConsoleOutput` of `superconsole/src/output.rs`: one producer and a writer
    thread, joined by a channel for one frame and an unbounded channel of errors. */
module ConsoleOutput {
  import opened Options

  datatype Target = Main | Aux
  datatype Frame = Frame(data: seq<char>, target: Target)
  type Error = nat

  const CAPACITY: nat := 1

  /** Where the producer is: between calls, past the error check of `output_to`, in `finalize` with
      the sender dropped, past its wait for an error, or done. */
  datatype Producer =
    | Between
    | Sending(frame: Frame)
    | AwaitingError
    | Joining(outcome: Option<Error>)
    | Finalized(outcome: Option<Error>)

  /** `sent`, `attempted`, `failures` and `reported` are the history: frames accepted, frames the
      writer tried, errors it met and errors returned by `output_to`. `promised` says that
      `should_render` returned true and no `output_to` has completed since. */
  datatype State = State(
    producer: Producer, channel: seq<Frame>, inHand: Option<Frame>, errors: seq<Error>, writing: bool,
    main: seq<Frame>, aux: seq<Frame>,
    sent: seq<Frame>, attempted: seq<Frame>, failures: seq<Error>, reported: seq<Error>, promised: bool)

  const START := State(Between, [], None, [], true, [], [], [], [], [], [], false)

  /** `CallOutput` carries the error the call returns at once, if it does; otherwise it goes on to
      `Send`. */
  datatype Event =
    | AskRender(answer: bool)
    | CallOutput(frame: Frame, error: Option<Error>)
    | Send
    | CallFinalize
    | TakeError
    | Join
    | Receive
    | Write(failure: Option<Error>)
    | Stop

  /** `!errors.is_empty() || !sender.is_full()` */
  predicate ShouldRender(s: State) {
    s.errors != [] || |s.channel| < CAPACITY
  }

  /** The error `output_to` takes from the channel before anything else. */
  function Waiting(s: State): Option<Error> {
    if s.errors != [] then Some(s.errors[0]) else None
  }

  function Open(s: State): bool {
    s.producer.Between? || s.producer.Sending?
  }

  function Next(s: State, e: Event): Option<State> {
    match e
    case AskRender(answer) =>
      if !s.producer.Between? || answer != ShouldRender(s) then None
      else Some(s.(promised := answer))
    case CallOutput(frame, error) =>
      if !s.producer.Between? || error != Waiting(s) then None
      else if s.errors != [] then
        Some(s.(errors := s.errors[1..], reported := s.reported + [s.errors[0]], promised := false))
      else Some(s.(producer := Sending(frame)))
    case Send =>
      if !s.producer.Sending? || |s.channel| >= CAPACITY then None
      else
        var frame := s.producer.frame;
        Some(s.(producer := Between, channel := s.channel + [frame], sent := s.sent + [frame], promised := false))
    case CallFinalize =>
      if !s.producer.Between? then None else Some(s.(producer := AwaitingError))
    case TakeError =>
      if !s.producer.AwaitingError? then None
      else if s.errors != [] then Some(s.(producer := Joining(Some(s.errors[0])), errors := []))
      else if s.writing then None
      else Some(s.(producer := Joining(None)))
    case Join =>
      if !s.producer.Joining? || s.writing then None
      else Some(s.(producer := Finalized(s.producer.outcome)))
    case Receive =>
      if !s.writing || s.inHand.Some? || s.channel == [] then None
      else Some(s.(inHand := Some(s.channel[0]), channel := s.channel[1..]))
    case Write(failure) =>
      if !s.writing || s.inHand.None? then None
      else
        var frame := s.inHand.value;
        var s1 := s.(inHand := None, attempted := s.attempted + [frame],
                     main := if frame.target.Main? then s.main + [frame] else s.main,
                     aux := if frame.target.Aux? then s.aux + [frame] else s.aux);
        if failure.None? then Some(s1)
        else Some(s1.(failures := s.failures + [failure.value],
                      errors := if s.producer.Joining? then s.errors else s.errors + [failure.value]))
    case Stop =>
      if !s.writing || s.inHand.Some? || s.channel != [] || Open(s) then None
      else Some(s.(writing := false))
  }

  function Run(s: State, es: seq<Event>): Option<State>
    decreases |es|
  {
    if es == [] then Some(s)
    else
      var s1 := Next(s, es[0]);
      if s1.None? then None else Run(s1.value, es[1..])
  }

  // ----- The invariant -----

  function Picked(frame: Frame, target: Target): seq<Frame> {
    if frame.target == target then [frame] else []
  }

  function For(frames: seq<Frame>, target: Target): seq<Frame> {
    if frames == [] then [] else Picked(frames[0], target) + For(frames[1..], target)
  }

  lemma {:induction false} ForAppend(frames: seq<Frame>, frame: Frame, target: Target)
    ensures For(frames + [frame], target) == For(frames, target) + Picked(frame, target)
  {
    if frames == [] {
      assert frames + [frame] == [frame] && [frame][1..] == [];
      assert For([frame], target) == Picked(frame, target) + For([], target);
    } else {
      ForAppend(frames[1..], frame, target);
      var all := frames + [frame];
      assert all[0] == frames[0] && all[1..] == frames[1..] + [frame];
      var head, rest := Picked(frames[0], target), For(frames[1..], target);
      assert For(all, target) == head + For(all[1..], target);
      assert For(frames, target) == head + rest;
      hide For;
      assert head + (rest + Picked(frame, target)) == (head + rest) + Picked(frame, target);
    }
  }

  function InHand(s: State): seq<Frame> {
    if s.inHand.Some? then [s.inHand.value] else []
  }

  /** No frame is lost, repeated or reordered, and each reaches its own stream. */
  ghost predicate FramesOk(s: State) {
    && s.attempted + InHand(s) + s.channel == s.sent
    && s.main == For(s.attempted, Main) && s.aux == For(s.attempted, Aux)
    && |s.channel| <= CAPACITY
    && (!s.writing ==> s.inHand.None? && s.channel == [] && !Open(s))
  }

  ghost predicate ErrorsOk(s: State) {
    match s.producer
    case Joining(outcome) => OutcomeOk(s, outcome) && s.errors == []
    case Finalized(outcome) => OutcomeOk(s, outcome) && !s.writing
    case _ => s.reported + s.errors == s.failures
  }

  /** The outcome is the first error not yet returned, or no error if all were. */
  ghost predicate OutcomeOk(s: State, outcome: Option<Error>) {
    && s.reported <= s.failures
    && match outcome
       case None => s.reported == s.failures && !s.writing
       case Some(error) => |s.reported| < |s.failures| && s.failures[|s.reported|] == error
  }

  ghost predicate PromiseOk(s: State) {
    s.promised ==> match s.producer
                   case Between => ShouldRender(s)
                   case Sending(_) => |s.channel| < CAPACITY
                   case _ => true
  }

  ghost predicate Inv(s: State) {
    FramesOk(s) && ErrorsOk(s) && PromiseOk(s)
  }

  lemma SendKeepsFrames(s: State)
    requires FramesOk(s) && Next(s, Send).Some?
    ensures FramesOk(Next(s, Send).value)
  {
    hide For;
    var n := Next(s, Send).value;
    assert n.attempted + InHand(n) + n.channel == (s.attempted + InHand(s) + s.channel) + [s.producer.frame];
  }

  lemma WriterKeepsFrames(s: State, e: Event)
    requires FramesOk(s) && (e.Receive? || e.Write?) && Next(s, e).Some?
    ensures FramesOk(Next(s, e).value)
  {
    hide For;
    var n := Next(s, e).value;
    if e.Receive? {
      assert s.channel == [s.channel[0]] + s.channel[1..];
    } else {
      ForAppend(s.attempted, s.inHand.value, Main);
      ForAppend(s.attempted, s.inHand.value, Aux);
      assert n.attempted + InHand(n) == s.attempted + InHand(s);
    }
  }

  lemma FramesKept(s: State, e: Event)
    requires FramesOk(s) && Next(s, e).Some?
    ensures FramesOk(Next(s, e).value)
  {
    hide For;
    if e.Send? {
      SendKeepsFrames(s);
    } else if e.Receive? || e.Write? {
      WriterKeepsFrames(s, e);
    }
  }

  lemma ErrorsKept(s: State, e: Event)
    requires FramesOk(s) && ErrorsOk(s) && Next(s, e).Some?
    ensures ErrorsOk(Next(s, e).value)
  {
    var n := Next(s, e).value;
    match e
    case CallOutput(_, _) => assert s.errors != [] ==> s.errors == [s.errors[0]] + s.errors[1..];
    case TakeError => assert s.errors == [] ==> s.reported + s.errors == s.reported;
    case Write(failure) =>
      if failure.Some? && !s.producer.Joining? && !s.producer.Finalized? {
        assert s.reported + (s.errors + [failure.value]) == s.failures + [failure.value];
      }
    case _ =>
  }

  lemma PromiseKept(s: State, e: Event)
    requires PromiseOk(s) && Next(s, e).Some?
    ensures PromiseOk(Next(s, e).value)
  {
  }

  lemma {:induction false} EveryRun(s: State, es: seq<Event>)
    requires Inv(s) && Run(s, es).Some?
    ensures Inv(Run(s, es).value)
    decreases |es|
  {
    hide FramesOk, ErrorsOk, PromiseOk, Next;
    if es != [] {
      FramesKept(s, es[0]);
      ErrorsKept(s, es[0]);
      PromiseKept(s, es[0]);
      EveryRun(Next(s, es[0]).value, es[1..]);
    }
  }

  // ----- What happened, read off the events -----

  function Last(es: seq<Event>): Event
    requires es != []
  {
    es[|es| - 1]
  }

  function Before(es: seq<Event>): seq<Event>
    requires es != []
  {
    es[..|es| - 1]
  }

  /** The frame of the last `output_to` that found no error. */
  function Offered(es: seq<Event>): seq<Frame> {
    if es == [] then []
    else if Last(es).CallOutput? && Last(es).error.None? then [Last(es).frame]
    else Offered(Before(es))
  }

  /** The frames of the calls of `output_to` that got as far as sending, in order. */
  function Accepted(es: seq<Event>): seq<Frame> {
    if es == [] then []
    else Accepted(Before(es)) + if Last(es).Send? then Offered(Before(es)) else []
  }

  /** The errors `output_to` returned, in order. */
  function Returned(es: seq<Event>): seq<Error> {
    if es == [] then []
    else Returned(Before(es)) + if Last(es).CallOutput? && Last(es).error.Some? then [Last(es).error.value] else []
  }

  /** The errors writing met, in order. */
  function WriteErrors(es: seq<Event>): seq<Error> {
    if es == [] then []
    else WriteErrors(Before(es)) + if Last(es).Write? && Last(es).failure.Some? then [Last(es).failure.value] else []
  }

  function Writes(es: seq<Event>): nat {
    if es == [] then 0 else Writes(Before(es)) + if Last(es).Write? then 1 else 0
  }

  function Receives(es: seq<Event>): nat {
    if es == [] then 0 else Receives(Before(es)) + if Last(es).Receive? then 1 else 0
  }

  /** `should_render` returned true and no `output_to` has returned since. */
  function Promise(es: seq<Event>): bool {
    if es == [] then false
    else match Last(es)
      case AskRender(answer) => answer
      case CallOutput(_, Some(_)) => false
      case Send => false
      case _ => Promise(Before(es))
  }

  /** The state is what the events make it. */
  ghost predicate History(s: State, es: seq<Event>) {
    && s.sent == Accepted(es) && (s.producer.Sending? ==> Offered(es) == [s.producer.frame])
    && s.reported == Returned(es) && s.failures == WriteErrors(es) && s.promised == Promise(es)
    && |s.attempted| == Writes(es) && |s.attempted| + |InHand(s)| == Receives(es)
  }

  lemma HistoryStep(s: State, past: seq<Event>, e: Event)
    requires History(s, past) && Next(s, e).Some?
    ensures History(Next(s, e).value, past + [e])
  {
    var es := past + [e];
    assert Before(es) == past && Last(es) == e;
  }

  lemma {:induction false} HistoryRun(s: State, past: seq<Event>, es: seq<Event>)
    requires History(s, past) && Run(s, es).Some?
    ensures History(Run(s, es).value, past + es)
    decreases |es|
  {
    hide History, Next;
    if es == [] {
      assert past + es == past;
    } else {
      HistoryStep(s, past, es[0]);
      HistoryRun(Next(s, es[0]).value, past + [es[0]], es[1..]);
      assert past + [es[0]] + es[1..] == past + es;
    }
  }

  lemma EveryHistory(es: seq<Event>)
    requires Run(START, es).Some?
    ensures Inv(Run(START, es).value) && History(Run(START, es).value, es)
  {
    EveryRun(START, es);
    HistoryRun(START, [], es);
    assert [] + es == es;
  }

  // ----- What a user may rely on -----

  /** Of the frames given to `output_to` and sent, as many as there were writes have reached their own
      streams in order, and the rest are in the writer's hand or in the channel. */
  lemma FramesInOrder(es: seq<Event>)
    requires Run(START, es).Some?
    ensures Writes(es) <= Receives(es) <= |Accepted(es)|
    ensures var s := Run(START, es).value;
            && InHand(s) == Accepted(es)[Writes(es)..Receives(es)] && s.channel == Accepted(es)[Receives(es)..]
            && s.main == For(Accepted(es)[..Writes(es)], Main) && s.aux == For(Accepted(es)[..Writes(es)], Aux)
  {
    hide Run, Accepted, Writes, Receives, For;
    EveryHistory(es);
    var s := Run(START, es).value;
    var all, n := s.attempted + InHand(s) + s.channel, |s.attempted|;
    assert all[..n] == s.attempted && all[n..n + |InHand(s)|] == InHand(s) && all[n + |InHand(s)|..] == s.channel;
  }

  /** Once `should_render` returned true, the next `output_to` returns without waiting: with an
      error at once, or by sending to a channel with room, whatever the writer does meanwhile. */
  lemma PromisedOutputNeverBlocks(es: seq<Event>, frame: Frame)
    requires Run(START, es).Some? && Promise(es)
    ensures var s := Run(START, es).value;
            && (s.producer.Between? ==>
                  && (exists error :: Next(s, CallOutput(frame, error)).Some?)
                  && (Next(s, CallOutput(frame, None)).Some? ==> Next(Next(s, CallOutput(frame, None)).value, Send).Some?))
            && (s.producer.Sending? ==> Next(s, Send).Some?)
  {
    EveryHistory(es);
    var s := Run(START, es).value;
    if s.producer.Between? {
      assert Next(s, CallOutput(frame, Waiting(s))).Some?;
    }
  }

  /** `should_render` answers true exactly when a write error has not been returned yet or no sent
      frame is left in the channel. */
  lemma ShouldRenderIff(es: seq<Event>, answer: bool)
    requires Run(START, es).Some? && Run(START, es).value.producer.Between?
    ensures Next(Run(START, es).value, AskRender(answer)).Some? <==>
              answer == (Returned(es) != WriteErrors(es) || Receives(es) == |Accepted(es)|)
  {
    hide Run, Accepted, Receives, Returned, WriteErrors;
    EveryHistory(es);
    var s := Run(START, es).value;
    assert |s.attempted + InHand(s) + s.channel| == Receives(es) + |s.channel|;
    assert s.errors == [] <==> s.reported + s.errors == s.reported;
  }

  /** After `finalize` every frame sent was attempted, in order, on its own stream; the call fails
      exactly when some write error had not been returned, and returns the first such. */
  lemma FinalizeDrains(es: seq<Event>)
    requires Run(START, es).Some? && Run(START, es).value.producer.Finalized?
    ensures var s := Run(START, es).value;
            && Writes(es) == |Accepted(es)| && s.main == For(Accepted(es), Main) && s.aux == For(Accepted(es), Aux)
            && Returned(es) <= WriteErrors(es)
            && s.producer.outcome == if Returned(es) == WriteErrors(es) then None else Some(WriteErrors(es)[|Returned(es)|])
  {
    hide Run, Accepted, Writes, Receives, Returned, WriteErrors, For;
    EveryHistory(es);
    var s := Run(START, es).value;
    assert s.attempted + InHand(s) + s.channel == s.attempted;
  }

  /** `output_to` returns the first write error not returned before, and then its frame is not sent;
      if there is none it goes on to send exactly its frame. */
  lemma OutputFailsIff(es: seq<Event>, frame: Frame, error: Option<Error>)
    requires Run(START, es).Some? && Run(START, es).value.producer.Between?
    ensures Returned(es) <= WriteErrors(es)
    ensures var s := Run(START, es).value;
            var n := Next(s, CallOutput(frame, error));
            && (n.Some? <==>
                  error == if Returned(es) == WriteErrors(es) then None else Some(WriteErrors(es)[|Returned(es)|]))
            && (n.Some? ==> n.value.producer == if error.Some? then Between else Sending(frame))
            && (n.Some? ==> n.value.channel == s.channel)
  {
    hide Run, Returned, WriteErrors;
    EveryHistory(es);
    var s := Run(START, es).value;
    assert s.errors != [] ==> (s.reported + s.errors)[|s.reported|] == s.errors[0];
  }

  /** There is always a next step until `finalize` has returned. */
  lemma SomeoneMoves(s: State) returns (e: Event)
    requires Inv(s) && !s.producer.Finalized?
    ensures Next(s, e).Some?
  {
    e := if s.producer.Between? then CallFinalize
         else if s.inHand.Some? then Write(None)
         else if s.writing && s.channel != [] then Receive
         else if s.producer.Sending? then Send
         else if s.writing then Stop
         else if s.producer.AwaitingError? then TakeError
         else Join;
  }

  /** What is left to do in `finalize`. */
  function Left(s: State): nat {
    2 * |s.channel| + |InHand(s)| + (if s.writing then 1 else 0) +
    match s.producer case AwaitingError => 2 case Joining(_) => 1 case _ => 0
  }

  lemma FinalizeStep(s: State, e: Event)
    requires Inv(s) && !Open(s) && Next(s, e).Some?
    ensures !Open(Next(s, e).value) && Left(Next(s, e).value) < Left(s)
  {
  }

  lemma {:induction false} FinalizeCounts(s: State, es: seq<Event>)
    requires Inv(s) && !Open(s) && Run(s, es).Some?
    ensures |es| + Left(Run(s, es).value) <= Left(s)
    decreases |es|
  {
    hide Next, Inv, Open, Left;
    if es != [] {
      FinalizeStep(s, es[0]);
      EveryRun(s, [es[0]]);
      assert [es[0]][1..] == [];
      assert Run(s, [es[0]]) == Run(Next(s, es[0]).value, []);
      FinalizeCounts(Next(s, es[0]).value, es[1..]);
    }
  }

  /** Once `finalize` began, at most `Left(s)` steps follow, and when none can follow it has
      returned. */
  lemma FinalizeEnds(s: State, es: seq<Event>)
    requires Inv(s) && !Open(s) && Run(s, es).Some?
    ensures |es| <= Left(s)
    ensures (forall e :: Next(Run(s, es).value, e).None?) ==> Run(s, es).value.producer.Finalized?
  {
    hide Next, Inv, Open, Left, Run;
    FinalizeCounts(s, es);
    EveryRun(s, es);
    var n := Run(s, es).value;
    if !n.producer.Finalized? {
      var e := SomeoneMoves(n);
    }
  }
}
