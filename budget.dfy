/**
 * The search budget (`SearchContext`): a match counter with a ceiling of
 * `MAX_MATCHES` and a wall clock with a ceiling of 500 ms.
 *
 * The clock is an oracle. Every comparison of the elapsed time with the
 * ceiling is one numbered clock read, and `Clock` says from which read on the
 * ceiling is passed (`Never`: not during this search). Because elapsed time
 * only grows, this covers every behaviour of the real clock.
 */
module SearchBudget {

  const MAX_MATCHES: nat := 20
  const MAX_SEARCH_TIME_MS: nat := 500

  datatype Clock = Never | ExpiresAt(read: nat)

  /** Whether the clock read numbered `n` finds the time budget spent. */
  predicate Expired(clock: Clock, n: nat) {
    clock.ExpiresAt? && n >= clock.read
  }

  /** The mutable half of a search context as a value: matches counted and clock reads made. */
  datatype Budget = Budget(matches: nat, clockReads: nat)

  const Fresh: Budget := Budget(0, 0)

  /** One read of the clock: whether the time budget is spent, and the budget after the read. */
  function TimeUpAt(b: Budget, clock: Clock): (r: (bool, Budget))
    ensures r.1 == b.(clockReads := b.clockReads + 1)
    ensures clock == Never ==> !r.0
  {
    (Expired(clock, b.clockReads), b.(clockReads := b.clockReads + 1))
  }

  /**
   * `should_continue`: under the match ceiling and within time. The clock is
   * read only when the counter is under the ceiling (`&&` short-circuits).
   */
  function ShouldContinueAt(b: Budget, clock: Clock): (r: (bool, Budget))
    ensures b.matches >= MAX_MATCHES ==> !r.0 && r.1 == b
    ensures r.0 ==> b.matches < MAX_MATCHES
    ensures r.1.matches == b.matches && b.clockReads <= r.1.clockReads <= b.clockReads + 1
    ensures clock == Never ==> r.0 == (b.matches < MAX_MATCHES)
  {
    if b.matches < MAX_MATCHES then
      var (up, b1) := (Expired(clock, b.clockReads), b.(clockReads := b.clockReads + 1));
      (!up, b1)
    else (false, b)
  }

  /** `add_match` */
  function AddMatchTo(b: Budget): (r: Budget)
    ensures r.matches == b.matches + 1 && r.clockReads == b.clockReads
  {
    b.(matches := b.matches + 1)
  }

  /** Budgets only grow along a search. */
  predicate Later(b: Budget, b': Budget) {
    b.matches <= b'.matches && b.clockReads <= b'.clockReads
  }

  /** Once `should_continue` has said stop, it says stop at every later budget. */
  lemma {:induction false} StopIsFinal(b: Budget, b': Budget, clock: Clock)
    requires !ShouldContinueAt(b, clock).0
    requires Later(b, b')
    ensures !ShouldContinueAt(b', clock).0
  {
    if b.matches < MAX_MATCHES {
      assert Expired(clock, b.clockReads);
      assert Expired(clock, b'.clockReads);
    }
  }

  /** The search context of one invocation: the counter and the clock position. */
  class SearchContext {
    const maxMatches: nat
    const clock: Clock
    var currentMatches: nat
    var clockReads: nat

    function State(): Budget
      reads this
    {
      Budget(currentMatches, clockReads)
    }

    ghost predicate Valid()
      reads this
    {
      maxMatches == MAX_MATCHES
    }

    /** `SearchContext::new`: no matches yet, the clock just started. */
    constructor (clock: Clock)
      ensures Valid() && State() == Fresh && this.clock == clock
    {
      maxMatches := MAX_MATCHES;
      this.clock := clock;
      currentMatches := 0;
      clockReads := 0;
    }

    method ShouldContinue() returns (b: bool)
      requires Valid()
      modifies this`clockReads
      ensures (b, State()) == ShouldContinueAt(old(State()), clock)
      ensures currentMatches >= maxMatches ==> !b
    {
      b := currentMatches < maxMatches;
      if b {
        b := !Expired(clock, clockReads);
        clockReads := clockReads + 1;
      }
    }

    /** One comparison of the elapsed time with the time ceiling. */
    method TimeUp() returns (up: bool)
      modifies this`clockReads
      ensures (up, State()) == TimeUpAt(old(State()), clock)
    {
      up := Expired(clock, clockReads);
      clockReads := clockReads + 1;
    }

    /** `add_match`: the counter goes up by one; nothing else changes. */
    method AddMatch()
      modifies this`currentMatches
      ensures State() == AddMatchTo(old(State()))
      ensures currentMatches == old(currentMatches) + 1
    {
      currentMatches := currentMatches + 1;
    }
  }
}
