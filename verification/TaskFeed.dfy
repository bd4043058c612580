/**
 The task feed behind one open connection: a feeder task moves messages from the broadcaster to a
 queue, the response generator takes them out and yields frames.  Each action below is what one of
 the two does between two awaits, so that a run is any interleaving of them.
 */
module TaskFeed {
  import opened EventStream

  datatype Item = Message(text: string) | Eof

  /** The exception in flight while the feeder leaves its nested handlers. */
  datatype Exc = NoExc | Cancellation | Failure

  datatype Cleanup = Unsubscribe | ClosePubsub | CloseClient

  /**
   Where the feeder is suspended: not yet started, in the broadcaster's subscribe call before its inner
   `try`, in the listen loop inside it, or in one of the three awaits of the inner `finally`.
   */
  datatype Feeder =
    | Created
    | Connecting
    | Listening
    | CleaningUp(stage: Cleanup, pending: Exc)
    | Done

  datatype Reason = EndOfStream | Disconnected | Cancelled

  /** Waiting for the queue; `blocked` when the queue was empty as the wait began, so that it can time out. */
  datatype Generator = Polling | Waiting(blocked: bool) | Stopped(reason: Reason)

  /**
   `cancelRequested`: cancel() was called and the feeder has not run since.
   `log` is every item ever put on the queue, in order.
   */
  datatype State = State(queue: seq<Item>, feeder: Feeder, cancelRequested: bool,
                         generator: Generator, frames: seq<Frame>, log: seq<Item>)

  const OPENED := State([], Created, false, Polling, [], [])

  /** How the await that the feeder is suspended at ends; `Other` is a Redis event that carries no message. */
  datatype Outcome = Completes | Got(text: string) | Other | Ends | Fails

  datatype Action =
    | Resume(outcome: Outcome)  // the feeder's await ends
    | Throw                     // CancelledError is raised at the feeder's await
    | Poll(disconnected: bool)  // request.is_disconnected()
    | Get                       // queue.get() completes within the heartbeat
    | Timeout                   // the heartbeat passes first
    | CancelGenerator           // CancelledError at an await or a yield of the generator
    | CancelAgain               // the same while its `finally` waits for the feeder: the feeder is cancelled again

  predicate Suits(f: Feeder, o: Outcome) {
    match f
    case Listening => !o.Completes?
    case Done => false
    case _ => o.Completes? || o.Fails?
  }

  predicate Enabled(s: State, a: Action) {
    match a
    case Resume(o) => !s.cancelRequested && Suits(s.feeder, o)
    case Throw => s.cancelRequested && s.feeder != Done
    case Poll(_) => s.generator == Polling
    case Get => s.generator.Waiting? && s.queue != []
    case Timeout => s.generator == Waiting(true)
    case CancelGenerator => !s.generator.Stopped?
    case CancelAgain => s.generator.Stopped? && s.feeder != Done
  }

  function Put(s: State, i: Item): State {
    s.(queue := s.queue + [i], log := s.log + [i])
  }

  /** What leaves the broadcaster's outer handlers: a cancellation is raised again, a failure is logged. */
  function OuterHandler(e: Exc): Exc {
    if e == Failure then NoExc else e
  }

  /** The broadcaster is left with `e` in flight; the feeder's own `finally` has the last word. */
  function Finish(s: State, e: Exc): State {
    var done := s.(feeder := Done);
    if OuterHandler(e) == Cancellation then done else Put(done, Eof)
  }

  function Next(stage: Cleanup): Cleanup {
    if stage == Unsubscribe then ClosePubsub else CloseClient
  }

  function Resumed(s: State, o: Outcome): State
    requires Suits(s.feeder, o)
  {
    match s.feeder
    case Created => if o.Fails? then Finish(s, Failure) else s.(feeder := Connecting)
    case Connecting => if o.Fails? then Finish(s, Failure) else s.(feeder := Listening)
    case Listening => (
      match o
      case Got(text) => Put(s, Message(text))
      case Ends => s.(feeder := CleaningUp(Unsubscribe, NoExc))
      case Fails => s.(feeder := CleaningUp(Unsubscribe, Failure))
      case _ => s
    )
    case CleaningUp(stage, pending) =>
      if o.Fails? then Finish(s, Failure)
      else if stage == CloseClient then Finish(s, pending)
      else s.(feeder := CleaningUp(Next(stage), pending))
  }

  /** A task cancelled before its first step never enters its body. */
  function Thrown(s: State): State {
    var thrown := s.(cancelRequested := false);
    match s.feeder
    case Created => thrown.(feeder := Done)
    case Listening => thrown.(feeder := CleaningUp(Unsubscribe, Cancellation))
    case _ => Finish(thrown, Cancellation)
  }

  /** Leaving the loop runs the generator's `finally`: cancel() has no effect on a finished feeder. */
  function Stop(s: State, why: Reason): State {
    s.(generator := Stopped(why), cancelRequested := s.feeder != Done)
  }

  function Apply(s: State, a: Action): State
    requires Enabled(s, a)
  {
    match a
    case Resume(o) => Resumed(s, o)
    case Throw => Thrown(s)
    case Poll(gone) => if gone then Stop(s, Disconnected) else s.(generator := Waiting(s.queue == []))
    case Get =>
      var rest := s.(queue := s.queue[1..]);
      if s.queue[0].Eof? then Stop(rest, EndOfStream)
      else rest.(generator := Polling, frames := s.frames + [Data(s.queue[0].text)])
    case Timeout => s.(generator := Polling, frames := s.frames + [Keepalive])
    case CancelGenerator => Stop(s, Cancelled)
    case CancelAgain => s.(cancelRequested := true)
  }

  /** The connection as the source has it: shared fields that the two tasks change in place. */
  class Connection {
    var queue: seq<Item>
    var feeder: Feeder
    var cancelRequested: bool
    var generator: Generator
    var frames: seq<Frame>
    ghost var log: seq<Item>

    ghost function Now(): State
      reads this
    {
      State(queue, feeder, cancelRequested, generator, frames, log)
    }

    constructor ()
      ensures Now() == OPENED
    {
      queue, feeder, cancelRequested, generator, frames, log := [], Created, false, Polling, [], [];
    }

    method PutItem(i: Item)
      modifies this`queue, this`log
      ensures Now() == Put(old(Now()), i)
    {
      queue := queue + [i];
      log := log + [i];
    }

    /** The handlers from the broadcaster's outermost `except` to the feeder's `finally`. */
    method LeaveFeeder(raised: Exc)
      modifies this`feeder, this`queue, this`log
      ensures Now() == Finish(old(Now()), raised)
    {
      var inFlight := raised;
      if inFlight == Failure {
        inFlight := NoExc;
      }
      var cancelled := false;
      if inFlight == Cancellation {
        cancelled := true;
      }
      feeder := Done;
      if !cancelled {
        PutItem(Eof);
      }
    }

    /** The await at which the feeder is suspended ends. */
    method FeederResumes(o: Outcome)
      requires Enabled(Now(), Resume(o))
      modifies this
      ensures Now() == Apply(old(Now()), Resume(o))
    {
      if o.Fails? && feeder != Listening {
        LeaveFeeder(Failure);
        return;
      }
      match feeder {
        case Created => feeder := Connecting;
        case Connecting => feeder := Listening;
        case Listening =>
          match o {
            case Got(text) => PutItem(Message(text));
            case Ends => feeder := CleaningUp(Unsubscribe, NoExc);
            case Fails => feeder := CleaningUp(Unsubscribe, Failure);
            case _ =>
          }
        case CleaningUp(stage, pending) =>
          if stage == CloseClient {
            LeaveFeeder(pending);
          } else {
            feeder := CleaningUp(Next(stage), pending);
          }
      }
    }

    /** The requested cancellation reaches the feeder. */
    method FeederCancelled()
      requires Enabled(Now(), Throw)
      modifies this
      ensures Now() == Apply(old(Now()), Throw)
    {
      cancelRequested := false;
      if feeder == Created {
        feeder := Done;
      } else if feeder == Listening {
        feeder := CleaningUp(Unsubscribe, Cancellation);
      } else {
        LeaveFeeder(Cancellation);
      }
    }

    method Close(why: Reason)
      modifies this`generator, this`cancelRequested
      ensures Now() == Stop(old(Now()), why)
    {
      generator := Stopped(why);
      cancelRequested := feeder != Done;
    }

    method CheckClient(disconnected: bool)
      requires generator == Polling
      modifies this
      ensures Now() == Apply(old(Now()), Poll(disconnected))
    {
      if disconnected {
        Close(Disconnected);
      } else {
        generator := Waiting(queue == []);
      }
    }

    /** The wait for the queue ends, with an item or with the heartbeat. */
    method EndWait(timeout: bool)
      requires Enabled(Now(), if timeout then Timeout else Get)
      modifies this
      ensures Now() == Apply(old(Now()), if timeout then Timeout else Get)
    {
      if timeout {
        frames := frames + [Keepalive];
        generator := Polling;
        return;
      }
      var data := queue[0];
      queue := queue[1..];
      match data
      case Eof =>
        Close(EndOfStream);
      case Message(text) =>
        frames := frames + [Data(text)];
        generator := Polling;
    }
  }

  // ----- runs

  predicate Possible(s: State, actions: seq<Action>)
    decreases |actions|
  {
    actions == [] || (Enabled(s, actions[0]) && Possible(Apply(s, actions[0]), actions[1..]))
  }

  function Run(s: State, actions: seq<Action>): State
    requires Possible(s, actions)
    decreases |actions|
  {
    if actions == [] then s else Run(Apply(s, actions[0]), actions[1..])
  }

  /** What the frames took from the queue. */
  function Taken(frames: seq<Frame>): seq<Item> {
    if frames == [] then []
    else
      var n := |frames| - 1;
      Taken(frames[..n]) + if frames[n].Data? then [Message(frames[n].message)] else []
  }

  ghost predicate EofOnlyLast(items: seq<Item>) {
    forall i :: 0 <= i < |items| - 1 ==> items[i].Message?
  }

  predicate CancellationPending(f: Feeder) {
    f.CleaningUp? && f.pending == Cancellation
  }

  /** What holds of the items, however the feeder is left. */
  ghost predicate Ordered(s: State) {
    // nothing is lost, repeated or reordered, and Eof is consumed but never yielded
    && Taken(s.frames) + (if s.generator == Stopped(EndOfStream) then [Eof] else []) + s.queue == s.log
    && EofOnlyLast(s.log)
    && (s.feeder != Done ==> Eof !in s.log)
  }

  ghost predicate Safe(s: State) {
    && Ordered(s)
    // only a generator that has left cancels, and until it has, a finished feeder has put Eof
    && (s.cancelRequested || CancellationPending(s.feeder) ==> s.generator.Stopped?)
    && (s.feeder == Done && !s.generator.Stopped? ==> Eof in s.log)
    && (s.generator.Stopped? && s.feeder != Done ==> s.cancelRequested || CancellationPending(s.feeder))
  }

  lemma PutOrdered(s: State, i: Item)
    requires Ordered(s) && s.feeder != Done
    ensures Ordered(Put(if i.Eof? then s.(feeder := Done) else s, i))
  {
    var end := if s.generator == Stopped(EndOfStream) then [Eof] else [];
    assert Taken(s.frames) + end + (s.queue + [i]) == Taken(s.frames) + end + s.queue + [i];
  }

  lemma FinishOrdered(s: State, e: Exc)
    requires Ordered(s) && s.feeder != Done
    ensures Ordered(Finish(s, e)) && (Eof in Finish(s, e).log <==> e != Cancellation)
  {
    PutOrdered(s, Eof);
  }

  lemma FinishSafe(s: State, e: Exc)
    requires Ordered(s) && s.feeder != Done && !s.cancelRequested
    requires e == Cancellation ==> s.generator.Stopped?
    ensures Safe(Finish(s, e))
  {
    FinishOrdered(s, e);
  }

  lemma ListenSafe(s: State, o: Outcome)
    requires Safe(s) && s.feeder == Listening && Enabled(s, Resume(o))
    ensures Safe(Resumed(s, o))
  {
    if o.Got? {
      PutOrdered(s, Message(o.text));
    }
  }

  lemma CleanupSafe(s: State, o: Outcome)
    requires Safe(s) && s.feeder.CleaningUp? && Enabled(s, Resume(o))
    ensures Safe(Resumed(s, o))
  {
    if o.Fails? {
      FinishSafe(s, Failure);
    } else if s.feeder.stage == CloseClient {
      FinishSafe(s, s.feeder.pending);
    }
  }

  lemma ResumeSafe(s: State, o: Outcome)
    requires Safe(s) && Enabled(s, Resume(o))
    ensures Safe(Resumed(s, o))
  {
    match s.feeder
    case Listening => ListenSafe(s, o);
    case CleaningUp(_, _) => CleanupSafe(s, o);
    case _ => FinishSafe(s, Failure);
  }

  lemma ThrowSafe(s: State)
    requires Safe(s) && Enabled(s, Throw)
    ensures Safe(Thrown(s))
  {
    if s.feeder != Created && s.feeder != Listening {
      FinishSafe(s.(cancelRequested := false), Cancellation);
    }
  }

  lemma YieldSafe(s: State, f: Frame)
    ensures Taken(s.frames + [f]) == Taken(s.frames) + if f.Data? then [Message(f.message)] else []
  {
    assert (s.frames + [f])[..|s.frames|] == s.frames;
  }

  lemma Reassociated(a: seq<Item>, q: seq<Item>)
    requires q != []
    ensures a + [] + q == a + [q[0]] + [] + q[1..] == a + [q[0]] + q[1..]
  {
  }

  lemma GetMessageSafe(s: State)
    requires Safe(s) && Enabled(s, Get) && s.queue[0].Message?
    ensures Safe(Apply(s, Get))
  {
    YieldSafe(s, Data(s.queue[0].text));
    Reassociated(Taken(s.frames), s.queue);
  }

  lemma GetEofSafe(s: State)
    requires Safe(s) && Enabled(s, Get) && s.queue[0].Eof?
    ensures Safe(Apply(s, Get))
  {
    Reassociated(Taken(s.frames), s.queue);
    assert s.log[|Taken(s.frames)|] == Eof;
    assert Eof in s.log;
  }

  lemma TimeoutSafe(s: State)
    requires Safe(s) && Enabled(s, Timeout)
    ensures Safe(Apply(s, Timeout))
  {
    YieldSafe(s, Keepalive);
  }

  lemma StopSafe(s: State, why: Reason)
    requires Safe(s) && !s.generator.Stopped? && why != EndOfStream
    ensures Safe(Stop(s, why))
  {
  }

  lemma StepSafe(s: State, a: Action)
    requires Safe(s) && Enabled(s, a)
    ensures Safe(Apply(s, a))
  {
    match a
    case Resume(o) => ResumeSafe(s, o);
    case Throw => ThrowSafe(s);
    case Get =>
      if s.queue[0].Message? {
        GetMessageSafe(s);
      } else {
        GetEofSafe(s);
      }
    case Timeout => TimeoutSafe(s);
    case Poll(gone) =>
      if gone {
        StopSafe(s, Disconnected);
      }
    case CancelGenerator => StopSafe(s, Cancelled);
    case CancelAgain =>
  }

  /**
   At every point of every interleaving the items yielded, then those still queued, are the items put,
   in order; Eof is put at most once and last, and not by a feeder that has only been asked to stop.
   */
  lemma {:induction false} EveryRunSafe(s: State, actions: seq<Action>)
    requires Safe(s) && Possible(s, actions)
    ensures Safe(Run(s, actions))
    decreases |actions|
  {
    if actions != [] {
      StepSafe(s, actions[0]);
      EveryRunSafe(Apply(s, actions[0]), actions[1..]);
    }
  }

  lemma OpenedSafe()
    ensures Safe(OPENED)
  {
  }

  // ----- when end-of-stream is signalled

  /** An await of the cleanup fails while the feeder is being cancelled. */
  predicate Swallows(s: State, a: Action) {
    a == Resume(Fails) && CancellationPending(s.feeder)
  }

  predicate SomeSwallows(s: State, actions: seq<Action>)
    requires Possible(s, actions)
    decreases |actions|
  {
    actions != [] && (Swallows(s, actions[0]) || SomeSwallows(Apply(s, actions[0]), actions[1..]))
  }

  lemma {:induction false} DoneIsFinal(s: State, actions: seq<Action>)
    requires s.feeder == Done && Possible(s, actions)
    ensures var t := Run(s, actions); t.feeder == Done && t.log == s.log
    ensures Throw !in actions && !SomeSwallows(s, actions)
    decreases |actions|
  {
    if actions != [] {
      DoneIsFinal(Apply(s, actions[0]), actions[1..]);
    }
  }

  /** The same from any point at which the feeder is still running; `thrown` if a cancellation is pending there. */
  lemma {:induction false} EofFrom(s: State, actions: seq<Action>)
    requires s.feeder != Done && Eof !in s.log && Possible(s, actions)
    ensures var t := Run(s, actions);
            var thrown := CancellationPending(s.feeder) || Throw in actions;
            Eof in t.log <==> t.feeder == Done && (!thrown || SomeSwallows(s, actions))
    decreases |actions|
  {
    if actions != [] {
      var a := actions[0];
      var t := Apply(s, a);
      assert Throw in actions <==> a == Throw || Throw in actions[1..];
      if t.feeder == Done {
        DoneIsFinal(t, actions[1..]);
      } else {
        EofFrom(t, actions[1..]);
      }
    }
  }

  /**
   In every run end-of-stream is signalled exactly when the feeder has finished and either no
   cancellation reached it or the broadcaster's cleanup failed while the cancellation was passing through.
   */
  lemma EofExactly(actions: seq<Action>)
    requires Possible(OPENED, actions)
    ensures var s := Run(OPENED, actions);
            Eof in s.log <==> s.feeder == Done && (Throw !in actions || SomeSwallows(OPENED, actions))
  {
    EofFrom(OPENED, actions);
  }

  /** The client leaves while the feeder listens, and unsubscribing fails: end-of-stream is signalled all the same. */
  lemma CancelledFeederSignalsEof()
    ensures var actions := [Resume(Completes), Resume(Completes), Poll(true), Throw, Resume(Fails)];
            && Possible(OPENED, actions) && SomeSwallows(OPENED, actions)
            && Run(OPENED, actions).generator == Stopped(Disconnected) && Run(OPENED, actions).log == [Eof]
  {
    var s1 := Apply(OPENED, Resume(Completes));
    var s2 := Apply(s1, Resume(Completes));
    var s3 := Apply(s2, Poll(true));
    var s4 := Apply(s3, Throw);
    var s5 := Apply(s4, Resume(Fails));
    assert s5.log == [Eof];
    RunOne(s4, Resume(Fails), []);
    RunOne(s3, Throw, [Resume(Fails)]);
    RunOne(s2, Poll(true), [Throw, Resume(Fails)]);
    RunOne(s1, Resume(Completes), [Poll(true), Throw, Resume(Fails)]);
    RunOne(OPENED, Resume(Completes), [Resume(Completes), Poll(true), Throw, Resume(Fails)]);
  }

  lemma RunOne(s: State, a: Action, rest: seq<Action>)
    requires Enabled(s, a) && Possible(Apply(s, a), rest)
    ensures Possible(s, [a] + rest) && Run(s, [a] + rest) == Run(Apply(s, a), rest)
    ensures SomeSwallows(s, [a] + rest) <==> Swallows(s, a) || SomeSwallows(Apply(s, a), rest)
  {
    assert ([a] + rest)[1..] == rest;
  }

  /** Once the generator has stopped no further frame is yielded. */
  lemma {:induction false} StoppedIsFinal(s: State, actions: seq<Action>)
    requires s.generator.Stopped? && Possible(s, actions)
    ensures Run(s, actions).frames == s.frames && Run(s, actions).generator == s.generator
    decreases |actions|
  {
    if actions != [] {
      StoppedIsFinal(Apply(s, actions[0]), actions[1..]);
    }
  }

  // ----- a stream that ends is delivered whole

  /** The client stays and the server does not tear the generator down. */
  predicate Calm(a: Action) {
    a != Poll(true) && a != CancelGenerator
  }

  /** Bounds the actions left once the source has ended. */
  function Measure(s: State): nat {
    3 * |s.queue| + match s.generator
                    case Polling => 1
                    case Waiting(blocked) => if blocked then 2 else 0
                    case Stopped(_) => 0
  }

  lemma QueueEndsInEof(s: State)
    requires Safe(s) && s.feeder == Done && !s.generator.Stopped?
    ensures s.queue != [] && s.queue[|s.queue| - 1] == Eof
  {
    NoEofTaken(s.frames);
    assert Eof in s.log;
    var i :| 0 <= i < |s.log| && s.log[i] == Eof;
    assert i == |s.log| - 1;
    assert s.log == Taken(s.frames) + s.queue;
  }

  lemma {:induction false} NoEofTaken(frames: seq<Frame>)
    ensures Eof !in Taken(frames)
  {
    if frames != [] {
      NoEofTaken(frames[..|frames| - 1]);
    }
  }

  /** Some action of the generator is always possible, and every possible one brings the end closer. */
  lemma CalmStepProgresses(s: State)
    requires Safe(s) && s.feeder == Done && !s.generator.Stopped?
    ensures Enabled(s, Poll(false)) || Enabled(s, Get)
    ensures forall a :: Enabled(s, a) && Calm(a) ==>
              Measure(Apply(s, a)) < Measure(s) && Apply(s, a).feeder == Done
              && Apply(s, a).generator in {Polling, Waiting(false), Waiting(true), Stopped(EndOfStream)}
  {
    QueueEndsInEof(s);
  }

  /**
   If the source has ended and the client stays, the loop stops after at most Measure(s) actions,
   whatever their order, and by then every message put has been yielded.
   */
  lemma {:induction false} EndedStreamDrains(s: State, actions: seq<Action>)
    requires Safe(s) && s.feeder == Done && !s.generator.Stopped?
    requires Possible(s, actions) && forall a :: a in actions ==> Calm(a)
    ensures |actions| <= Measure(s)
    ensures var t := Run(s, actions);
            if t.generator.Stopped? then Taken(t.frames) + [Eof] == s.log
            else Enabled(t, Poll(false)) || Enabled(t, Get)
    decreases |actions|
  {
    CalmStepProgresses(s);
    if actions != [] {
      var a := actions[0];
      assert Calm(a);
      var t := Apply(s, a);
      StepSafe(s, a);
      if t.generator.Stopped? {
        NothingAfterEnd(t, actions[1..]);
      } else {
        EndedStreamDrains(t, actions[1..]);
        assert t.log == s.log;
      }
    }
  }

  lemma NothingAfterEnd(s: State, actions: seq<Action>)
    requires Safe(s) && s.feeder == Done && s.generator == Stopped(EndOfStream)
    requires Possible(s, actions)
    ensures actions == [] && s.queue == [] && Taken(s.frames) + [Eof] == s.log
  {
    NoEofTaken(s.frames);
    var front := Taken(s.frames) + [Eof];
    assert s.log == front + s.queue;
    assert s.log[|Taken(s.frames)|] == Eof;
  }

  // ----- what the client decodes

  function TextsOf(items: seq<Item>): seq<string> {
    if items == [] then []
    else
      var n := |items| - 1;
      TextsOf(items[..n]) + if items[n].Message? then [items[n].text] else []
  }

  lemma {:induction false} TextsConcat(a: seq<Item>, b: seq<Item>)
    ensures TextsOf(a + b) == TextsOf(a) + TextsOf(b)
  {
    if b == [] {
      assert a + b == a;
    } else {
      assert (a + b)[..|a + b| - 1] == a + b[..|b| - 1];
      TextsConcat(a, b[..|b| - 1]);
    }
  }

  lemma {:induction false} MessagesConcat(a: seq<Frame>, b: seq<Frame>)
    ensures Messages(a + b) == Messages(a) + Messages(b)
  {
    if a == [] {
      assert a + b == b;
    } else {
      assert (a + b)[1..] == a[1..] + b;
      MessagesConcat(a[1..], b);
    }
  }

  lemma {:induction false} TakenTexts(frames: seq<Frame>)
    ensures TextsOf(Taken(frames)) == Messages(frames)
  {
    if frames != [] {
      var n := |frames| - 1;
      assert frames == frames[..n] + [frames[n]];
      TakenTexts(frames[..n]);
      MessagesConcat(frames[..n], [frames[n]]);
      TextsConcat(Taken(frames[..n]), if frames[n].Data? then [Message(frames[n].message)] else []);
    }
  }

  lemma YieldedTexts(s: State)
    requires Safe(s)
    ensures Messages(s.frames) + TextsOf(s.queue) == TextsOf(s.log)
    ensures s.generator == Stopped(EndOfStream) ==> s.queue == []
  {
    var taken := Taken(s.frames);
    var end := if s.generator == Stopped(EndOfStream) then [Eof] else [];
    TextsConcat(taken + end, s.queue);
    TextsConcat(taken, end);
    TakenTexts(s.frames);
    assert TextsOf(end) == [];
    if end != [] {
      assert s.log[|taken|] == Eof;
    }
  }

  // ----- what the run itself says the client gets

  /** The messages that Redis delivered in the run, from its actions alone. */
  function Received(actions: seq<Action>): seq<string> {
    if actions == [] then []
    else
      (if actions[0].Resume? && actions[0].outcome.Got? then [actions[0].outcome.text] else []) + Received(actions[1..])
  }

  /** The feeder puts every message it receives, once and in order, and no other text. */
  lemma {:induction false} LogIsReceived(s: State, actions: seq<Action>)
    requires Possible(s, actions)
    ensures TextsOf(Run(s, actions).log) == TextsOf(s.log) + Received(actions)
    decreases |actions|
  {
    if actions != [] {
      var t := Apply(s, actions[0]);
      LogIsReceived(t, actions[1..]);
      LogOfStep(s, actions[0]);
    }
  }

  /** What an item put adds to the texts. */
  lemma TextsOfPut(items: seq<Item>, i: Item)
    ensures TextsOf(items + [i]) == TextsOf(items) + if i.Message? then [i.text] else []
  {
    assert (items + [i])[..|items|] == items;
  }

  lemma TextsOfFinish(s: State, e: Exc)
    ensures TextsOf(Finish(s, e).log) == TextsOf(s.log) && TextsOf(Finish(s, e).queue) == TextsOf(s.queue)
  {
    TextsOfPut(s.log, Eof);
    TextsOfPut(s.queue, Eof);
  }

  lemma TextsOfResumed(s: State, o: Outcome)
    requires Suits(s.feeder, o)
    ensures var t := Resumed(s, o);
            var received := if o.Got? then [o.text] else [];
            TextsOf(t.log) == TextsOf(s.log) + received && TextsOf(t.queue) == TextsOf(s.queue) + received
  {
    if o.Got? {
      TextsOfPut(s.log, Message(o.text));
      TextsOfPut(s.queue, Message(o.text));
    } else {
      TextsOfFinish(s, Failure);
      if s.feeder.CleaningUp? {
        TextsOfFinish(s, s.feeder.pending);
      }
      NoMoreTexts(TextsOf(s.log));
      NoMoreTexts(TextsOf(s.queue));
    }
  }

  lemma NoMoreTexts(texts: seq<string>)
    ensures texts + [] == texts
  {
  }

  lemma TextsOfThrown(s: State)
    ensures TextsOf(Thrown(s).log) == TextsOf(s.log) && TextsOf(Thrown(s).queue) == TextsOf(s.queue)
  {
    TextsOfFinish(s.(cancelRequested := false), Cancellation);
  }

  lemma LogOfStep(s: State, a: Action)
    requires Enabled(s, a)
    ensures TextsOf(Apply(s, a).log) == TextsOf(s.log) + Received([a])
  {
    assert [a][1..] == [];
    match a
    case Resume(o) => TextsOfResumed(s, o);
    case Throw => TextsOfThrown(s);
    case _ =>
  }

  /** The frames of a run in which `texts` arrive: a keepalive for each timeout, the next text for each get. */
  function FramesOf(actions: seq<Action>, texts: seq<string>): seq<Frame> {
    if actions == [] then []
    else
      match actions[0]
      case Timeout => [Keepalive] + FramesOf(actions[1..], texts)
      case Get =>
        if texts == [] then FramesOf(actions[1..], texts) else [Data(texts[0])] + FramesOf(actions[1..], texts[1..])
      case _ => FramesOf(actions[1..], texts)
  }

  lemma EofIsAlone(s: State)
    requires Safe(s) && s.queue != [] && s.queue[0].Eof?
    ensures s.queue == [Eof] && s.feeder == Done
  {
    var end := if s.generator == Stopped(EndOfStream) then [Eof] else [];
    var k := |Taken(s.frames) + end|;
    assert s.log[k] == Eof && Eof in s.log;
    assert |s.log| == k + |s.queue|;
  }

  /** What a single action contributes to the frames; `later` are the texts left after it. */
  lemma FramesOfFirst(a: Action, rest: seq<Action>, texts: seq<string>)
    ensures var actions := [a] + rest;
            && (a == Timeout ==> FramesOf(actions, texts) == [Keepalive] + FramesOf(rest, texts))
            && (a == Get && texts != [] ==>
                  FramesOf(actions, texts) == [Data(texts[0])] + FramesOf(rest, texts[1..]))
            && (a == Get && texts == [] ==> FramesOf(actions, texts) == FramesOf(rest, texts))
            && (a != Get && a != Timeout ==> FramesOf(actions, texts) == FramesOf(rest, texts))
            && Received(actions) == Received([a]) + Received(rest)
  {
    assert ([a] + rest)[1..] == rest && [a][1..] == [];
  }

  lemma TextsOfHead(queue: seq<Item>)
    requires queue != [] && queue[0].Message?
    ensures TextsOf(queue) == [queue[0].text] + TextsOf(queue[1..])
  {
    TextsConcat([queue[0]], queue[1..]);
    assert [queue[0]] + queue[1..] == queue;
    assert TextsOf([queue[0]]) == [queue[0].text];
  }

  /** A get that finds a message: its frame, then those of the texts behind it. */
  lemma FramesOfMessage(frames: seq<Frame>, m: string, queued: seq<string>, received: seq<string>, rest: seq<Action>)
    ensures frames + FramesOf([Get] + rest, ([m] + queued) + received) ==
            (frames + [Data(m)]) + FramesOf(rest, queued + received)
  {
    var texts := ([m] + queued) + received;
    FramesOfFirst(Get, rest, texts);
    assert texts[1..] == queued + received;
  }

  lemma GetEof(s: State, rest: seq<Action>)
    requires Safe(s) && Enabled(s, Get) && s.queue[0].Eof? && Possible(Apply(s, Get), rest)
    ensures var t := Apply(s, Get);
            t.frames == s.frames && TextsOf(s.queue) == TextsOf(t.queue) == Received(rest) == []
  {
    EofIsAlone(s);
    DoneReceivesNothing(Apply(s, Get), rest);
    TextsOfPut([], Eof);
    assert [] + [Eof] == [Eof];
  }

  lemma FramesOfGet(s: State, rest: seq<Action>)
    requires Safe(s) && Enabled(s, Get) && Possible(Apply(s, Get), rest)
    ensures var t := Apply(s, Get);
            s.frames + FramesOf([Get] + rest, TextsOf(s.queue) + Received(rest)) ==
            t.frames + FramesOf(rest, TextsOf(t.queue) + Received(rest))
  {
    if s.queue[0].Eof? {
      GetEof(s, rest);
      FramesOfFirst(Get, rest, []);
    } else {
      TextsOfHead(s.queue);
      FramesOfMessage(s.frames, s.queue[0].text, TextsOf(s.queue[1..]), Received(rest), rest);
    }
  }

  lemma FramesOfTimeout(frames: seq<Frame>, rest: seq<Action>, texts: seq<string>)
    ensures frames + FramesOf([Timeout] + rest, texts) == (frames + [Keepalive]) + FramesOf(rest, texts)
  {
    FramesOfFirst(Timeout, rest, texts);
  }

  lemma FramesOfStep(s: State, a: Action, rest: seq<Action>)
    requires Safe(s) && Enabled(s, a) && Possible(Apply(s, a), rest)
    ensures var t := Apply(s, a);
            s.frames + FramesOf([a] + rest, TextsOf(s.queue) + Received([a] + rest)) ==
            t.frames + FramesOf(rest, TextsOf(t.queue) + Received(rest))
  {
    var texts := TextsOf(s.queue) + Received([a] + rest);
    FramesOfFirst(a, rest, texts);
    if a == Get {
      ReceivedByOthers(a, rest);
      FramesOfGet(s, rest);
    } else {
      QueueOfStep(s, a);
      QueueThenRest(TextsOf(s.queue), Received([a]), Received(rest));
      if a == Timeout {
        FramesOfTimeout(s.frames, rest, texts);
      } else {
        FramesStay(s, a);
      }
    }
  }

  lemma ReceivedByOthers(a: Action, rest: seq<Action>)
    requires !a.Resume?
    ensures Received([a] + rest) == Received(rest)
  {
    assert ([a] + rest)[1..] == rest;
  }

  lemma QueueThenRest(queued: seq<string>, first: seq<string>, rest: seq<string>)
    ensures queued + (first + rest) == (queued + first) + rest
  {
  }

  lemma FramesStay(s: State, a: Action)
    requires Enabled(s, a) && a != Get && a != Timeout
    ensures Apply(s, a).frames == s.frames
  {
  }

  lemma {:induction false} DoneReceivesNothing(s: State, actions: seq<Action>)
    requires s.feeder == Done && Possible(s, actions)
    ensures Received(actions) == []
    decreases |actions|
  {
    if actions != [] {
      DoneReceivesNothing(Apply(s, actions[0]), actions[1..]);
    }
  }

  lemma {:induction false} FramesFrom(s: State, actions: seq<Action>)
    requires Safe(s) && Possible(s, actions)
    ensures Run(s, actions).frames == s.frames + FramesOf(actions, TextsOf(s.queue) + Received(actions))
    decreases |actions|
  {
    if actions != [] {
      var a, rest := actions[0], actions[1..];
      assert actions == [a] + rest;
      StepSafe(s, a);
      FramesFrom(Apply(s, a), rest);
      FramesOfStep(s, a, rest);
    }
  }

  lemma QueueOfStep(s: State, a: Action)
    requires Enabled(s, a) && a != Get
    ensures TextsOf(Apply(s, a).queue) == TextsOf(s.queue) + Received([a])
  {
    assert [a][1..] == [];
    match a
    case Resume(o) => TextsOfResumed(s, o);
    case Throw => TextsOfThrown(s);
    case _ =>
  }

  /**
   The frames of every run are a function of what happened in it: each timeout yields a keepalive, and the
   n-th completed get the n-th message that Redis delivered.
   */
  lemma FramesExactly(actions: seq<Action>)
    requires Possible(OPENED, actions)
    ensures Run(OPENED, actions).frames == FramesOf(actions, Received(actions))
  {
    OpenedSafe();
    FramesFrom(OPENED, actions);
    assert TextsOf([]) + Received(actions) == Received(actions);
  }

  /**
   In every run, as long as the messages that Redis delivered are free of CR and LF, the client has decoded a
   prefix of them, and all of them once the generator has stopped at the end of the stream.
   */
  lemma ClientSeesPublished(actions: seq<Action>)
    requires Possible(OPENED, actions)
    requires forall m :: m in Received(actions) ==> OneLine(m)
    ensures var s := Run(OPENED, actions);
            && Texts(Decode(RenderAll(s.frames))) + TextsOf(s.queue) == Received(actions)
            && (s.generator == Stopped(EndOfStream) ==> Texts(Decode(RenderAll(s.frames))) == Received(actions))
  {
    var s := Run(OPENED, actions);
    OpenedSafe();
    EveryRunSafe(OPENED, actions);
    YieldedTexts(s);
    LogIsReceived(OPENED, actions);
    assert TextsOf(s.log) == Received(actions);
    forall i | 0 <= i < |Messages(s.frames)|
      ensures OneLine(Messages(s.frames)[i])
    {
      assert Received(actions)[i] in Received(actions);
    }
    DecodesExactly(s.frames);
    if s.queue == [] {
      assert Messages(s.frames) + TextsOf(s.queue) == Messages(s.frames);
    }
  }

  /** A message that arrives while the client waits is the next frame. */
  lemma MessageIsDelivered(s: State, text: string)
    requires s.feeder == Listening && !s.cancelRequested && s.generator.Waiting? && s.queue == []
    ensures Possible(s, [Resume(Got(text)), Get])
    ensures Run(s, [Resume(Got(text)), Get]).frames == s.frames + [Data(text)]
    ensures Run(s, [Resume(Got(text)), Get]).queue == []
  {
    var t := Apply(s, Resume(Got(text)));
    assert t.queue == [Message(text)];
    RunOne(t, Get, []);
    RunOne(s, Resume(Got(text)), [Get]);
    assert [Resume(Got(text))] + [Get] == [Resume(Got(text)), Get] && [Get] + [] == [Get];
  }

  /** While nothing is published the client is kept alive: each empty wait can time out, and yields a keepalive. */
  lemma {:induction false} IdleIsKeptAlive(s: State, n: nat)
    requires s.generator == Polling && s.queue == []
    ensures Possible(s, Rounds(n)) && Run(s, Rounds(n)) == s.(frames := s.frames + seq(n, _ => Keepalive))
    decreases n
  {
    if n > 0 {
      var waiting := Apply(s, Poll(false));
      var after := Apply(waiting, Timeout);
      IdleIsKeptAlive(after, n - 1);
      RunOne(waiting, Timeout, Rounds(n - 1));
      RunOne(s, Poll(false), [Timeout] + Rounds(n - 1));
      assert Rounds(n) == [Poll(false)] + ([Timeout] + Rounds(n - 1));
      assert s.frames + [Keepalive] + seq(n - 1, _ => Keepalive) == s.frames + seq(n, _ => Keepalive);
    }
  }

  function Rounds(n: nat): seq<Action> {
    if n == 0 then [] else [Poll(false), Timeout] + Rounds(n - 1)
  }

  /** A generator stops as it finds the client gone, takes end-of-stream, or is cancelled, and for that reason. */
  lemma {:induction false} StoppedForAReason(s: State, actions: seq<Action>)
    requires !s.generator.Stopped? && Possible(s, actions)
    ensures var t := Run(s, actions).generator;
            && (t == Stopped(Disconnected) ==> Poll(true) in actions)
            && (t == Stopped(Cancelled) ==> CancelGenerator in actions)
            && (t == Stopped(EndOfStream) ==> Get in actions)
            && (Poll(true) in actions || CancelGenerator in actions ==> t.Stopped? && t != Stopped(EndOfStream))
    decreases |actions|
  {
    if actions != [] {
      var t := Apply(s, actions[0]);
      if t.generator.Stopped? {
        StoppedIsFinal(t, actions[1..]);
        StoppedTakesNothing(t, actions[1..]);
      } else {
        StoppedForAReason(t, actions[1..]);
      }
      assert forall a :: a in actions <==> a == actions[0] || a in actions[1..];
    }
  }

  lemma {:induction false} StoppedTakesNothing(s: State, actions: seq<Action>)
    requires s.generator.Stopped? && Possible(s, actions)
    ensures Poll(true) !in actions && CancelGenerator !in actions && Get !in actions
    decreases |actions|
  {
    if actions != [] {
      StoppedTakesNothing(Apply(s, actions[0]), actions[1..]);
      assert forall a :: a in actions <==> a == actions[0] || a in actions[1..];
    }
  }
}
