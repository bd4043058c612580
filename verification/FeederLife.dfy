/** The whole life of a feeder: what happens to it in a run, from its start to its end. */
module FeederLife {
  import opened TaskFeed

  // ----- the lives of a feeder

  /** What happens to the feeder in a run. */
  function FeederPart(actions: seq<Action>): seq<Action> {
    if actions == [] then []
    else (if actions[0].Resume? || actions[0].Throw? then [actions[0]] else []) + FeederPart(actions[1..])
  }

  const GOES_ON := Resume(Completes)

  predicate BreaksOff(a: Action) {
    a == Throw || a == Resume(Fails)
  }

  predicate Listens(a: Action) {
    a.Resume? && (a.outcome.Got? || a.outcome.Other?)
  }

  ghost predicate IsListening(life: seq<Action>) {
    && |life| >= 2 && life[0] == GOES_ON && life[1] == GOES_ON
    && forall k :: 2 <= k < |life| ==> Listens(life[k])
  }

  /** The listen loop is left at `i`, and since then only cleanup has gone on. */
  ghost predicate IsCleaning(life: seq<Action>, i: nat) {
    && i < |life| && IsListening(life[..i]) && (BreaksOff(life[i]) || life[i] == Resume(Ends))
    && forall k :: i < k < |life| ==> life[k] == GOES_ON
  }

  /**
   The complete lives: broken off before listening, or listening until it ends or is broken off, and then
   the three steps of the cleanup, the last of them possible to be broken off at any point.
   */
  ghost predicate IsLife(life: seq<Action>) {
    && life != []
    && var n := |life| - 1;
       || (BreaksOff(life[n]) && (life[..n] == [] || life[..n] == [GOES_ON]))
       || (exists i: nat :: i < n && IsCleaning(life[..n], i)
                            && ((BreaksOff(life[n]) && n - i <= 3) || (life[n] == GOES_ON && n - i == 3)))
  }

  function StageIndex(c: Cleanup): nat {
    match c
    case Unsubscribe => 0
    case ClosePubsub => 1
    case CloseClient => 2
  }

  /** Where a feeder stands whose life so far is `life`. */
  ghost predicate Stands(f: Feeder, life: seq<Action>) {
    match f
    case Created => life == []
    case Connecting => life == [GOES_ON]
    case Listening => IsListening(life)
    case CleaningUp(stage, pending) =>
      exists i: nat :: IsCleaning(life, i) && |life| - 1 - i == StageIndex(stage) && pending == CauseOf(life[i])
    case Done => IsLife(life)
  }

  function CauseOf(a: Action): Exc {
    if a == Throw then Cancellation else if a == Resume(Fails) then Failure else NoExc
  }

  lemma ListeningAt(life: seq<Action>, n: nat, k: nat)
    requires 2 <= k < n <= |life| && IsListening(life[..n])
    ensures Listens(life[k])
  {
    assert life[..n][k] == life[k];
  }

  lemma ListeningIsNotCleaning(life: seq<Action>, i: nat)
    requires IsListening(life)
    ensures !IsCleaning(life, i)
  {
    if 2 <= i < |life| {
      assert Listens(life[i]);
    }
  }

  lemma ListeningIsNoLife(life: seq<Action>)
    requires IsListening(life)
    ensures !IsLife(life)
  {
    var n := |life| - 1;
    assert n == 1 || Listens(life[n]);
    forall i: nat | i < n
      ensures n == 1 ==> !IsCleaning(life[..n], i)
    {
    }
  }

  lemma CauseIsUnique(life: seq<Action>, n: nat, i: nat, j: nat)
    requires n <= |life| && IsCleaning(life, i) && IsCleaning(life[..n], j)
    ensures i == j
  {
    assert life[..n][..j] == life[..j] && life[..n][j] == life[j];
    if i < j {
      ListeningAt(life, j, i);
    } else if j < i {
      ListeningAt(life, i, j);
    }
  }

  lemma CleaningIsNoLife(life: seq<Action>, i: nat)
    requires IsCleaning(life, i) && |life| - 1 - i <= 2
    ensures !IsLife(life)
  {
    var n := |life| - 1;
    if i == n {
      forall j: nat
        ensures !IsCleaning(life[..n], j)
      {
        ListeningIsNotCleaning(life[..n], j);
      }
    } else {
      assert life[n] == GOES_ON;
      forall j: nat | IsCleaning(life[..n], j)
        ensures j == i
      {
        CauseIsUnique(life, n, i, j);
      }
    }
  }

  lemma UnfinishedIsNoLife(f: Feeder, life: seq<Action>)
    requires f != Done && Stands(f, life)
    ensures !IsLife(life)
  {
    match f
    case Listening => ListeningIsNoLife(life);
    case CleaningUp(stage, pending) =>
      var i: nat :| IsCleaning(life, i) && |life| - 1 - i == StageIndex(stage);
      CleaningIsNoLife(life, i);
    case Connecting =>
      assert life[..0] == [];
    case _ =>
  }

  lemma ListeningGoesOn(life: seq<Action>, a: Action)
    requires IsListening(life)
    ensures Listens(a) ==> IsListening(life + [a])
    ensures BreaksOff(a) || a == Resume(Ends) ==> IsCleaning(life + [a], |life|)
  {
    assert (life + [a])[..|life|] == life;
  }

  lemma CleaningGoesOn(life: seq<Action>, i: nat, stage: Cleanup, a: Action)
    requires IsCleaning(life, i) && |life| - 1 - i == StageIndex(stage) && (a == GOES_ON || BreaksOff(a))
    ensures a == GOES_ON && stage != CloseClient ==>
              IsCleaning(life + [a], i) && |life| - i == StageIndex(Next(stage)) && (life + [a])[i] == life[i]
    ensures BreaksOff(a) || stage == CloseClient ==> IsLife(life + [a])
  {
    var after := life + [a];
    assert after[..|life|] == life;
    assert after[..i] == life[..i];
  }

  lemma StepStands(s: State, a: Action, life: seq<Action>)
    requires Enabled(s, a) && (a.Resume? || a.Throw?) && Stands(s.feeder, life)
    ensures Stands(Apply(s, a).feeder, life + [a])
  {
    match s.feeder
    case Created => CreatedStep(s, a, life);
    case Connecting => ConnectingStep(s, a, life);
    case Listening => ListeningStep(s, a, life);
    case CleaningUp(_, _) => CleaningStep(s, a, life);
    case Done =>
  }

  lemma CreatedStep(s: State, a: Action, life: seq<Action>)
    requires Enabled(s, a) && s.feeder == Created && (a.Resume? || a.Throw?) && life == []
    ensures Stands(Apply(s, a).feeder, life + [a])
  {
    CreatedGoesOn(life, a);
  }

  lemma ConnectingStep(s: State, a: Action, life: seq<Action>)
    requires Enabled(s, a) && s.feeder == Connecting && (a.Resume? || a.Throw?) && life == [GOES_ON]
    ensures Stands(Apply(s, a).feeder, life + [a])
  {
    ConnectingGoesOn(life, a);
  }

  lemma ListeningStep(s: State, a: Action, life: seq<Action>)
    requires Enabled(s, a) && s.feeder == Listening && (a.Resume? || a.Throw?) && IsListening(life)
    ensures Stands(Apply(s, a).feeder, life + [a])
  {
    ListeningGoesOn(life, a);
    assert (life + [a])[|life|] == a;
    if !Listens(a) {
      assert IsCleaning(life + [a], |life|);
    }
  }

  lemma CleaningStep(s: State, a: Action, life: seq<Action>)
    requires Enabled(s, a) && s.feeder.CleaningUp? && (a.Resume? || a.Throw?) && Stands(s.feeder, life)
    ensures Stands(Apply(s, a).feeder, life + [a])
  {
    var stage, pending := s.feeder.stage, s.feeder.pending;
    var i: nat :| IsCleaning(life, i) && |life| - 1 - i == StageIndex(stage) && pending == CauseOf(life[i]);
    CleaningGoesOn(life, i, stage, a);
    CleaningStands(s, a, life, i);
  }

  lemma CreatedGoesOn(life: seq<Action>, a: Action)
    requires life == []
    ensures life + [a] == [a] && (BreaksOff(a) ==> IsLife(life + [a]))
  {
    assert [a][..0] == [];
  }

  lemma CleaningStands(s: State, a: Action, life: seq<Action>, i: nat)
    requires Enabled(s, a) && s.feeder.CleaningUp? && (a.Resume? || a.Throw?)
    requires i < |life| && s.feeder.pending == CauseOf(life[i])
    requires a == GOES_ON && s.feeder.stage != CloseClient ==>
               IsCleaning(life + [a], i) && |life| - i == StageIndex(Next(s.feeder.stage))
    requires BreaksOff(a) || s.feeder.stage == CloseClient ==> IsLife(life + [a])
    ensures Stands(Apply(s, a).feeder, life + [a])
  {
    assert (life + [a])[i] == life[i];
  }

  lemma OthersLeaveFeeder(s: State, a: Action)
    requires Enabled(s, a) && !a.Resume? && !a.Throw?
    ensures Apply(s, a).feeder == s.feeder
  {
  }

  lemma ConnectingGoesOn(life: seq<Action>, a: Action)
    requires life == [GOES_ON]
    ensures a == GOES_ON ==> IsListening(life + [a])
    ensures BreaksOff(a) ==> IsLife(life + [a])
  {
    assert (life + [a])[..1] == [GOES_ON];
  }

  lemma FeederPartFirst(a: Action, rest: seq<Action>, life: seq<Action>)
    ensures life + FeederPart([a] + rest) ==
            (if a.Resume? || a.Throw? then life + [a] else life) + FeederPart(rest)
  {
    assert ([a] + rest)[1..] == rest;
  }

  lemma {:induction false} RunStands(s: State, actions: seq<Action>, life: seq<Action>)
    requires Possible(s, actions) && Stands(s.feeder, life)
    ensures Stands(Run(s, actions).feeder, life + FeederPart(actions))
    decreases |actions|
  {
    if actions == [] {
      assert life + [] == life;
    } else {
      var a, rest := actions[0], actions[1..];
      assert actions == [a] + rest;
      FeederPartFirst(a, rest, life);
      if a.Resume? || a.Throw? {
        StepStands(s, a, life);
        RunStands(Apply(s, a), rest, life + [a]);
      } else {
        OthersLeaveFeeder(s, a);
        RunStands(Apply(s, a), rest, life);
      }
    }
  }

  /** In every run the feeder has finished exactly when what happened to it is a complete life. */
  lemma FeederLives(actions: seq<Action>)
    requires Possible(OPENED, actions)
    ensures Run(OPENED, actions).feeder == Done <==> IsLife(FeederPart(actions))
  {
    RunStands(OPENED, actions, []);
    assert [] + FeederPart(actions) == FeederPart(actions);
    if Run(OPENED, actions).feeder != Done {
      UnfinishedIsNoLife(Run(OPENED, actions).feeder, FeederPart(actions));
    }
  }

  /** A generator cancelled again while it waits for the feeder cuts the cleanup short, without end-of-stream. */
  lemma CancelledAgain(s: State)
    requires s.generator.Stopped? && CancellationPending(s.feeder)
    ensures Possible(s, [CancelAgain, Throw])
    ensures Run(s, [CancelAgain, Throw]) == s.(feeder := Done, cancelRequested := false)
  {
    var t := Apply(s, CancelAgain);
    RunOne(t, Throw, []);
    RunOne(s, CancelAgain, [Throw]);
    assert [CancelAgain] + [Throw] == [CancelAgain, Throw] && [Throw] + [] == [Throw];
  }
}
