/** How often a teardown is told to try again, and when it gives up
    (`packages/react-native-remote-desktop/ios/RemoteDesktopSessionManager.swift`). */
module TeardownAnswers {
  import opened SessionLifetime
  import T = Teardown

  /** What the teardown's own call returns in this move, if it returns. */
  ghost function Answer(y: T.System, m: T.Move): (code: set<Code>)
    requires Inv(y.core)
  {
    match m
    case Attempt(th) =>
      if !y.progress.Due? || !CanCall(y.core, th) then {}
      else
        var r := Step(y.core, DestroyLookup(th, y.token)).1;
        if r.Some? then {r.value.code} else {}
    case Core(e) =>
      var r := Step(y.core, e).1;
      if y.progress.Calling? && !(e.DestroyLookup? && e.token == y.token)
         && r.Some? && r.value.thread == y.progress.thread && r.value.token == y.token then {r.value.code} else {}
  }

  /** How often it has been told that it ran on the callback thread. */
  ghost function Told(y: T.System, moves: seq<T.Move>): nat
    requires T.Safe(y)
    decreases |moves|
  {
    if moves == [] then 0
    else
      T.NextKeeps(y, moves[0]);
      (if CallbackThread in Answer(y, moves[0]) then 1 else 0) + Told(T.Next(y, moves[0]), moves[1..])
  }

  /** Each answer decides: any other than the callback thread's releases the context at once. */
  lemma AnswerDecides(y: T.System, m: T.Move, code: Code)
    requires T.Safe(y) && code in Answer(y, m)
    ensures var next := T.Next(y, m).progress;
            if code != CallbackThread then next == T.Released
            else next == if y.progress.attempt < 5 then T.Due(y.progress.attempt + 1) else T.Leaked
  {
  }

  /** The number of a try is the number of times it has been told so. */
  ghost predicate Counts(y: T.System, told: nat) {
    match y.progress
    case Due(attempt) => attempt == told <= 5
    case Calling(attempt, _) => attempt == told <= 5
    case Released => told <= 5
    case Leaked => told == 6
  }

  lemma CountsNext(y: T.System, m: T.Move, told: nat)
    requires T.Safe(y) && Counts(y, told)
    ensures Counts(T.Next(y, m), told + if CallbackThread in Answer(y, m) then 1 else 0)
  {
  }

  lemma {:induction false} CountsRun(y: T.System, moves: seq<T.Move>, told: nat)
    requires T.Safe(y) && Counts(y, told)
    ensures Counts(T.Runs(y, moves), told + Told(y, moves))
    decreases |moves|
  {
    if moves != [] {
      T.NextKeeps(y, moves[0]);
      CountsNext(y, moves[0], told);
      CountsRun(T.Next(y, moves[0]), moves[1..], told + if CallbackThread in Answer(y, moves[0]) then 1 else 0);
    }
  }

  /** In every run the teardown gives up, and leaks the context, exactly when it has been told six times
      that it ran on the callback thread. */
  lemma GivesUpAfterSix(core: State, token: Token, moves: seq<T.Move>)
    requires T.Safe(T.System(core, token, T.Due(0)))
    ensures var y := T.System(core, token, T.Due(0));
            Told(y, moves) <= 6 && (T.Runs(y, moves).progress == T.Leaked <==> Told(y, moves) == 6)
  {
    CountsRun(T.System(core, token, T.Due(0)), moves, 0);
  }
}
