/** Confirmation by persistence: how many rounds in a row named the same suspect. */
module Streak {
  import opened Prelude

  datatype Confirmation<T(==)> = Confirmation(last: Option<T>, streak: nat)

  // One round: naming the last suspect again extends the streak, another starts anew, none resets.
  function Note<T(==)>(c: Confirmation<T>, named: Option<T>): Confirmation<T> {
    if named.None? then Confirmation(None, 0)
    else if named == c.last then Confirmation(named, c.streak + 1)
    else Confirmation(named, 1)
  }

  // The state after a history of rounds, from the start.
  function After<T(==)>(history: seq<Option<T>>): Confirmation<T> {
    if history == [] then Confirmation(None, 0)
    else Note(After(history[..|history| - 1]), history[|history| - 1])
  }

  // The last k rounds all named x.
  ghost predicate LastRounds<T>(history: seq<Option<T>>, k: nat, x: T) {
    k <= |history| && forall i :: |history| - k <= i < |history| ==> history[i] == Some(x)
  }

  /** The streak is the number of final rounds that named the last suspect: all of those, and no more. */
  lemma {:induction false} StreakIsLongest<T>(history: seq<Option<T>>)
    ensures var c := After(history);
            && (c.last.None? <==> c.streak == 0)
            && (history != [] ==> c.last == history[|history| - 1])
            && (c.last.Some? ==> forall k: nat :: LastRounds(history, k, c.last.value) <==> k <= c.streak)
    decreases |history|
  {
    if history == [] {
    } else {
      var front, named := history[..|history| - 1], history[|history| - 1];
      StreakIsLongest(front);
      if named.Some? {
        forall k: nat
          ensures LastRounds(history, k, named.value) <==> k <= After(history).streak
        {
          LastRoundsStep(history, k, named.value);
        }
      }
    }
  }

  lemma LastRoundsStep<T>(history: seq<Option<T>>, k: nat, x: T)
    requires history != [] && history[|history| - 1] == Some(x)
    ensures LastRounds(history, k, x) <==> k == 0 || LastRounds(history[..|history| - 1], k - 1, x)
    ensures history[..|history| - 1] == [] || history[|history| - 2] != Some(x) ==>
              (LastRounds(history[..|history| - 1], k, x) <==> k == 0)
  {
  }

  /** Confirmed after a positive number of rounds exactly when that many final rounds named the same suspect. */
  lemma ConfirmedIff<T>(history: seq<Option<T>>, persistence: nat, x: T)
    requires persistence >= 1
    ensures After(history).last == Some(x) && After(history).streak >= persistence <==>
        LastRounds(history, persistence, x)
  {
    StreakIsLongest(history);
    if LastRounds(history, persistence, x) {
      assert history[|history| - 1] == Some(x);
    }
  }
}
