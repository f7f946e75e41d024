/**
 Which property kind the BACnet reader sweeps next.  The state is the current kind and two
 nested counters; the choice is made once after every sweep over all points, for ever.
 */
module SweepScheduler {
  const ST_READ_ONOFF := 2
  const ST_READ_FILTER := 5
  const ST_READ_MODE := 8
  const ST_READ_TEMP := 14
  const ST_READ_ALRAM := 15
  const ST_READ_SETTEMP := 19

  datatype State = State(st: int, loopCnt2: int, loopCnt3: int)

  const INITIAL := State(ST_READ_TEMP, 0, 0)

  /** The scheduler's variables, updated in place after each sweep. */
  class Scheduler {
    var st: int
    var loopCnt2: int
    var loopCnt3: int

    function Value(): State
      reads this
    {
      State(st, loopCnt2, loopCnt3)
    }

    constructor ()
      ensures Value() == INITIAL
    {
      st, loopCnt2, loopCnt3 := ST_READ_TEMP, 0, 0;
    }

    method Advance()
      modifies this
      ensures Value() == Next(old(Value()))
    {
      if st == ST_READ_TEMP {
        st := ST_READ_ONOFF;
      } else if st == ST_READ_ONOFF {
        st := ST_READ_SETTEMP;
      } else if st == ST_READ_SETTEMP {
        st := ST_READ_MODE;
      } else if st == ST_READ_MODE {
        st := ST_READ_ALRAM;
      } else if st == ST_READ_ALRAM {
        if loopCnt2 > 2 {
          loopCnt2 := 0;
          st := ST_READ_FILTER;
        } else {
          loopCnt2 := loopCnt2 + 1;
          st := ST_READ_TEMP;
        }
      } else if st == ST_READ_FILTER {
        if loopCnt3 > 2 {
          loopCnt3 := 0;
          st := ST_READ_TEMP;
        } else {
          loopCnt3 := loopCnt3 + 1;
          st := ST_READ_ONOFF;
        }
      } else {
        st := ST_READ_TEMP;
      }
    }

    /**
     The reader's loop for `n` sweeps from its start: where it stands then, and that the kinds
     it swept on the way, in order, leave no kind out for longer than its window.
     */
    method Run(n: nat) returns (swept: seq<int>)
      requires Value() == INITIAL
      modifies this
      ensures Value() == StateAt(n % PERIOD)
      ensures |swept| == n && forall k | 0 <= k < n :: swept[k] == KindOfSweep(k)
      ensures forall kind, i: nat | IsKind(kind) && i + Window(kind) <= n :: Includes(swept, i, Window(kind), kind)
    {
      hide Next, StateAt, Window, IsKind, Includes, KindOfSweep;
      swept := [];
      for i := 0 to n
        invariant Value() == After(INITIAL, i)
        invariant |swept| == i && forall k | 0 <= k < i :: swept[k] == After(INITIAL, k).st
      {
        swept := swept + [st];
        Advance();
      }
      ClosedForm(n);
      forall k | 0 <= k < n
        ensures swept[k] == KindOfSweep(k)
      {
        KindAfter(k);
      }
      forall kind, i: nat | IsKind(kind) && i + Window(kind) <= n
        ensures Includes(swept, i, Window(kind), kind)
      {
        RunIncludes(swept, kind, i);
      }
    }
  }

  function Next(s: State): State {
    if s.st == ST_READ_TEMP then s.(st := ST_READ_ONOFF)
    else if s.st == ST_READ_ONOFF then s.(st := ST_READ_SETTEMP)
    else if s.st == ST_READ_SETTEMP then s.(st := ST_READ_MODE)
    else if s.st == ST_READ_MODE then s.(st := ST_READ_ALRAM)
    else if s.st == ST_READ_ALRAM then
      if s.loopCnt2 > 2 then s.(st := ST_READ_FILTER, loopCnt2 := 0)
      else s.(st := ST_READ_TEMP, loopCnt2 := s.loopCnt2 + 1)
    else if s.st == ST_READ_FILTER then
      if s.loopCnt3 > 2 then s.(st := ST_READ_TEMP, loopCnt3 := 0)
      else s.(st := ST_READ_ONOFF, loopCnt3 := s.loopCnt3 + 1)
    else s.(st := ST_READ_TEMP)
  }

  /** The state after `n` sweeps. */
  function After(s: State, n: nat): State {
    if n == 0 then s else Next(After(s, n - 1))
  }

  // ---------------------------------------------------------------- the whole run in closed form

  const PERIOD: nat := 81

  /** The kind at a place within a round of five; place 0 opens with the temperature. */
  function KindAt(place: nat): int {
    if place == 0 then ST_READ_TEMP else if place == 1 then ST_READ_ONOFF
    else if place == 2 then ST_READ_SETTEMP else if place == 3 then ST_READ_MODE else ST_READ_ALRAM
  }

  /** The state at a place of a block of twenty sweeps, which ends in FILTER at place 20. */
  function StateOf(block: nat, place: nat): State {
    if place == 20 then State(ST_READ_FILTER, 0, block)
    else State(KindAt(place % 5), place / 5, block)
  }

  function BlockOf(i: nat): nat {
    if i == 0 then 0 else (i - 1) / 20
  }

  /** The state at position `i` of the cycle: four blocks, the first with one more sweep in front. */
  function StateAt(i: nat): State {
    StateOf(BlockOf(i), i - 20 * BlockOf(i))
  }

  lemma StepInBlock(block: nat, place: nat)
    requires place < 20
    ensures Next(StateOf(block, place)) == StateOf(block, place + 1)
  {
    var q, r := place / 5, place % 5;
    assert place == 5 * q + r;
    if r < 4 {
      assert (place + 1) / 5 == q && (place + 1) % 5 == r + 1;
    } else {
      assert (place + 1) / 5 == q + 1 && (place + 1) % 5 == 0;
    }
  }

  lemma StepAcrossBlocks(block: nat)
    requires block < 4
    ensures Next(StateOf(block, 20)) == if block < 3 then StateOf(block + 1, 1) else INITIAL
  {
  }

  lemma StateAtStep(i: nat)
    requires i < PERIOD
    ensures Next(StateAt(i)) == StateAt(if i == 80 then 0 else i + 1)
  {
    hide Next, StateOf;
    var block := BlockOf(i);
    if i - 20 * block < 20 {
      StepInBlock(block, i - 20 * block);
    } else {
      StepAcrossBlocks(block);
    }
    StateOfStart();
  }

  lemma StateOfStart()
    ensures StateOf(0, 0) == INITIAL
  {
  }

  lemma NextRemainder(n: nat)
    ensures (n + 1) % PERIOD == if n % PERIOD == 80 then 0 else n % PERIOD + 1
  {
  }

  /** After any number of sweeps the scheduler is where its position in the cycle says. */
  lemma {:induction false} ClosedForm(n: nat)
    ensures After(INITIAL, n) == StateAt(n % PERIOD)
  {
    hide Next, StateOf;
    if n == 0 {
      StateOfStart();
    } else {
      ClosedForm(n - 1);
      StateAtStep((n - 1) % PERIOD);
      NextRemainder(n - 1);
    }
  }

  /** The kind of the n-th sweep in the codes of the source: TEMP, ONOFF, SETTEMP, MODE, ALRAM, FILTER. */
  function KindOfSweep(n: nat): int {
    var m := n % 81;
    if m > 0 && m % 20 == 0 then 5 else [14, 2, 19, 8, 15][m % 5]
  }

  lemma KindAfter(n: nat)
    ensures After(INITIAL, n).st == KindOfSweep(n)
  {
    hide After;
    ClosedForm(n);
    var m := n % PERIOD;
    var place := m - 20 * BlockOf(m);
    assert place % 5 == m % 5;
    assert place == 20 <==> m > 0 && m % 20 == 0;
  }

  /** How far a kind lies behind the start of a round of five, for the five regular kinds. */
  function Place(kind: int): int {
    if kind == ST_READ_TEMP then 0 else if kind == ST_READ_ONOFF then 1
    else if kind == ST_READ_SETTEMP then 2 else if kind == ST_READ_MODE then 3 else 4
  }

  /** The position that a state has in the cycle. */
  function Position(s: State): int {
    20 * s.loopCnt3 + (if s.st == ST_READ_FILTER then 20 else 5 * s.loopCnt2 + Place(s.st))
  }

  lemma PositionOfStateAt(i: nat)
    requires i < PERIOD
    ensures Position(StateAt(i)) == i
  {
    var place := i - 20 * BlockOf(i);
    assert place == 5 * (place / 5) + place % 5;
  }

  /** The scheduler returns to a state exactly after multiples of 81 sweeps. */
  lemma PeriodIsExact(m: nat, n: nat)
    ensures After(INITIAL, m) == After(INITIAL, n) <==> m % PERIOD == n % PERIOD
  {
    ClosedForm(m);
    ClosedForm(n);
    PositionOfStateAt(m % PERIOD);
    PositionOfStateAt(n % PERIOD);
  }

  /** What holds in every reachable state; in particular the counters stay in 0..3. */
  predicate Reached(s: State) {
    && s.st in {ST_READ_TEMP, ST_READ_ONOFF, ST_READ_SETTEMP, ST_READ_MODE, ST_READ_ALRAM, ST_READ_FILTER}
    && 0 <= s.loopCnt2 <= 3 && 0 <= s.loopCnt3 <= 3
    && (s.st == ST_READ_FILTER ==> s.loopCnt2 == 0)
  }

  lemma {:induction false} AlwaysReached(n: nat)
    ensures var s := After(INITIAL, n);
            && Reached(s)
            && 0 <= s.loopCnt2 <= 3 && 0 <= s.loopCnt3 <= 3 && s.st in {14, 2, 19, 8, 15, 5}
  {
    if n > 0 {
      AlwaysReached(n - 1);
    }
  }

  // ---------------------------------------------------------------- fairness

  /** How many sweeps pass before FILTER is next chosen. */
  function UntilFilter(s: State): int {
    if s.st == ST_READ_FILTER then 0 else 5 * (3 - s.loopCnt2) + 5 - Place(s.st)
  }

  /** How many sweeps pass before TEMP is next chosen: the last round of a block leads past it. */
  function UntilTemp(s: State): int {
    if s.st == ST_READ_TEMP then 0
    else if s.st == ST_READ_FILTER then if s.loopCnt3 > 2 then 1 else 5
    else if s.loopCnt2 > 2 then (5 - Place(s.st)) + (if s.loopCnt3 > 2 then 1 else 5)
    else 5 - Place(s.st)
  }

  /** How many sweeps pass before one of ONOFF, SETTEMP, MODE and ALRAM is next chosen. */
  function UntilRegular(kind: int, s: State): int {
    var afterFilter := (if s.loopCnt3 > 2 then 1 else 0) + Place(kind);
    if s.st == ST_READ_FILTER then afterFilter
    else if Place(s.st) <= Place(kind) then Place(kind) - Place(s.st)
    else if s.loopCnt2 > 2 then (5 - Place(s.st)) + afterFilter
    else (5 - Place(s.st)) + Place(kind)
  }

  function Until(kind: int, s: State): int {
    if kind == ST_READ_FILTER then UntilFilter(s)
    else if kind == ST_READ_TEMP then UntilTemp(s)
    else UntilRegular(kind, s)
  }

  predicate IsKind(kind: int) {
    kind in {ST_READ_TEMP, ST_READ_ONOFF, ST_READ_SETTEMP, ST_READ_MODE, ST_READ_ALRAM, ST_READ_FILTER}
  }

  /** The kind is among the `n` sweeps from the i-th on. */
  predicate Includes(swept: seq<int>, i: nat, n: nat, kind: int) {
    i + n <= |swept| && kind in swept[i..i + n]
  }

  /** The longest that each kind can be passed over. */
  function Window(kind: int): nat {
    if kind == ST_READ_FILTER then 21 else if kind == ST_READ_TEMP then 10 else 6
  }

  lemma UntilCountsDown(kind: int, s: State)
    requires IsKind(kind) && Reached(s)
    ensures 0 <= Until(kind, s) < Window(kind)
    ensures Until(kind, s) == 0 <==> s.st == kind
    ensures s.st != kind ==> Until(kind, Next(s)) == Until(kind, s) - 1
  {
  }

  lemma {:induction false} AfterAdd(s: State, m: nat, n: nat)
    ensures After(After(s, m), n) == After(s, m + n)
  {
    if n > 0 {
      AfterAdd(s, m, n - 1);
    }
  }

  lemma {:induction false} ReachedAfter(s: State, n: nat)
    requires Reached(s)
    ensures Reached(After(s, n))
  {
    if n > 0 {
      ReachedAfter(s, n - 1);
    }
  }

  /** `Until` is exact: the kind comes after that many sweeps and not before. */
  lemma {:induction false} UntilIsExact(kind: int, s: State, k: nat)
    requires IsKind(kind) && Reached(s) && k <= Until(kind, s)
    ensures Until(kind, After(s, k)) == Until(kind, s) - k
    ensures After(s, k).st == kind <==> k == Until(kind, s)
  {
    hide Until, Next, Reached, Window;
    ReachedAfter(s, k);
    if k > 0 {
      UntilIsExact(kind, s, k - 1);
      ReachedAfter(s, k - 1);
      UntilCountsDown(kind, After(s, k - 1));
    }
    UntilCountsDown(kind, After(s, k));
  }

  /** Fairness: every 21 consecutive sweeps include FILTER, every 10 TEMP, every 6 each other kind. */
  lemma SweepFairness(kind: int, n: nat)
    requires IsKind(kind)
    ensures exists k :: n <= k < n + Window(kind) && After(INITIAL, k).st == kind
  {
    var s := After(INITIAL, n);
    AlwaysReached(n);
    UntilCountsDown(kind, s);
    var d: nat := Until(kind, s);
    UntilIsExact(kind, s, d);
    AfterAdd(INITIAL, n, d);
    assert After(INITIAL, n + d).st == kind;
  }

  lemma RunIncludes(swept: seq<int>, kind: int, i: nat)
    requires IsKind(kind) && i + Window(kind) <= |swept|
    requires forall k | 0 <= k < |swept| :: swept[k] == After(INITIAL, k).st
    ensures Includes(swept, i, Window(kind), kind)
  {
    hide After, IsKind;
    SweepFairness(kind, i);
    var k :| i <= k < i + Window(kind) && After(INITIAL, k).st == kind;
    assert swept[i..i + Window(kind)][k - i] == kind;
  }

  /** No window can be shorter: each kind is somewhere passed over for one sweep less. */
  lemma WindowIsTight(kind: int) returns (n: nat)
    requires IsKind(kind)
    ensures forall k :: n <= k < n + Window(kind) - 1 ==> After(INITIAL, k).st != kind
  {
    hide Until, After, StateAt;
    n := if kind == ST_READ_FILTER then 0 else if kind == ST_READ_TEMP then 16 else 76 + Place(kind);
    ClosedForm(n);
    LongestWait(kind, n);
    AlwaysReached(n);
    forall k | n <= k < n + Window(kind) - 1
      ensures After(INITIAL, k).st != kind
    {
      UntilIsExact(kind, After(INITIAL, n), k - n);
      AfterAdd(INITIAL, n, k - n);
    }
  }

  lemma LongestWait(kind: int, n: nat)
    requires IsKind(kind)
    requires n == if kind == ST_READ_FILTER then 0 else if kind == ST_READ_TEMP then 16 else 76 + Place(kind)
    ensures Until(kind, StateAt(n % PERIOD)) == Window(kind) - 1
  {
    hide Until, StateAt;
    if kind == ST_READ_FILTER {
      AfterFilter();
    } else if kind == ST_READ_TEMP {
      AfterLastTemp();
    } else {
      AfterLastRound(kind);
    }
  }

  lemma AfterFilter()
    ensures Until(ST_READ_FILTER, StateAt(0)) == 20
  {
  }

  lemma AfterLastTemp()
    ensures Until(ST_READ_TEMP, StateAt(16)) == 9
  {
    assert StateAt(16) == State(ST_READ_ONOFF, 3, 0);
  }

  lemma AfterLastRound(kind: int)
    requires IsKind(kind) && Place(kind) > 0 && kind != ST_READ_FILTER
    ensures Until(kind, StateAt(76 + Place(kind))) == 5
  {
    assert StateAt(76 + Place(kind)) == StateOf(3, 16 + Place(kind));
  }
}
