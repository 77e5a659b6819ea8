/** One key of the login limiter under any interleaving of login attempts: how far the counter can
    overshoot, and how many failures fit in any interval as long as the window. The documentation
    calls the window rolling (ENVIRONMENT_VARIABLES.md:23); the code restarts it. */
module RateLimitRuns {
  import opened Prelude
  import opened RateLimit

  /** A recorded failure: when it happened, and when the first failure of its window did. */
  datatype Hit = Hit(at: int, openedAt: int)

  /** The key's counter, the clock, the attempts between check and outcome, those between `INCR`
      and `EXPIRE`, when the counter last started from one, and the failures so far. */
  datatype Machine = Machine(
    entry: Option<Entry>, now: int, inFlight: nat, expiring: nat, openedAt: int, log: seq<Hit>)

  /** The moves of all attempts on the key, in any interleaving. `add_failure` is two of them: `Fail`
      is its `INCR`, and `SetExpiry` the `EXPIRE` that follows if the counter started from one. */
  datatype Move =
    | Tick(delta: nat)
    | Check
    | Fail(incrUp: bool)
    | SetExpiry(expireUp: bool)
    | Succeed(deleteUp: bool)
    | Drop  // an inactive user: refused without touching the counter

  const IDLE := Machine(None, 0, 0, 0, 0, [])

  /** At most `n` attempts are under way at once. */
  predicate Legal(n: nat, m: Machine, move: Move) {
    match move
    case Tick(_) => true
    case Check => m.inFlight + m.expiring < n
    case SetExpiry(_) => m.expiring > 0
    case _ => m.inFlight > 0
  }

  function Less(k: nat): nat {
    if k > 0 then k - 1 else 0
  }

  function Failed(m: Machine, incrUp: bool): Machine {
    var counted := Incr(m.entry, m.now);
    var starts := incrUp && counted.count == 1;
    var openedAt := if starts then m.now else m.openedAt;
    m.(entry := if incrUp then Some(counted) else m.entry, inFlight := Less(m.inFlight),
       expiring := if starts then m.expiring + 1 else m.expiring, openedAt := openedAt,
       log := m.log + [Hit(m.now, openedAt)])
  }

  function Step(limits: Limits, m: Machine, move: Move): Machine {
    match move
    case Tick(delta) => m.(now := m.now + delta)
    case Check => if Allows(limits, m.entry, m.now, true) then m.(inFlight := m.inFlight + 1) else m
    case Fail(incrUp) => Failed(m, incrUp)
    case SetExpiry(expireUp) =>
      m.(entry := AfterExpire(limits, m.entry, m.now, expireUp), expiring := Less(m.expiring))
    case Succeed(deleteUp) => m.(entry := AfterClear(m.entry, deleteUp), inFlight := Less(m.inFlight))
    case Drop => m.(inFlight := Less(m.inFlight))
  }

  /** Without another attempt in between, the two moves leave what `add_failure` leaves. */
  lemma FailureInTwoMoves(limits: Limits, m: Machine, incrUp: bool, expireUp: bool)
    ensures
      var failed := Step(limits, m, Fail(incrUp));
      AfterFailure(limits, m.entry, m.now, incrUp, expireUp)
      == if failed.expiring > m.expiring then Step(limits, failed, SetExpiry(expireUp)).entry else failed.entry
  {
  }

  function Run(limits: Limits, m: Machine, moves: seq<Move>): Machine
    decreases |moves|
  {
    if moves == [] then m else Run(limits, Step(limits, m, moves[0]), moves[1..])
  }

  predicate LegalRun(limits: Limits, n: nat, m: Machine, moves: seq<Move>)
    decreases |moves|
  {
    moves != [] ==> Legal(n, m, moves[0]) && LegalRun(limits, n, Step(limits, m, moves[0]), moves[1..])
  }

  /** Redis answers every call, and no login succeeds. */
  predicate OnlyFailures(moves: seq<Move>) {
    forall i | 0 <= i < |moves| :: OnlyFails(moves[i])
  }

  predicate OnlyFails(move: Move) {
    match move
    case Fail(incrUp) => incrUp
    case SetExpiry(expireUp) => expireUp
    case Succeed(_) => false
    case _ => true
  }

  function Count(m: Machine): nat {
    match Get(m.entry, m.now) case None => 0 case Some(count) => count
  }

  /** A limit below one still lets a first attempt through, because a missing counter allows. */
  function Cap(limits: Limits): nat {
    if limits.maxAttempts < 1 then 1 else limits.maxAttempts
  }

  // ----- The counter under concurrency -----

  predicate Bounded(limits: Limits, n: nat, m: Machine) {
    m.inFlight + m.expiring <= n && Count(m) + m.inFlight <= Cap(limits) - 1 + n
  }

  lemma StepKeepsBound(limits: Limits, n: nat, m: Machine, move: Move)
    requires Bounded(limits, n, m) && Legal(n, m, move)
    ensures Bounded(limits, n, Step(limits, m, move))
  {
  }

  /** With at most `n` attempts in flight, counter and attempts in flight together never exceed
      `max - 1 + n`, across expiry, clearing, and lost writes to Redis. */
  lemma {:induction false} CounterPlusInFlightBounded(limits: Limits, n: nat, m: Machine, moves: seq<Move>)
    requires Bounded(limits, n, m) && LegalRun(limits, n, m, moves)
    ensures Bounded(limits, n, Run(limits, m, moves))
    decreases |moves|
  {
    if moves != [] {
      StepKeepsBound(limits, n, m, moves[0]);
      CounterPlusInFlightBounded(limits, n, Step(limits, m, moves[0]), moves[1..]);
    }
  }

  // ----- A successful login -----

  function CountFails(moves: seq<Move>): nat {
    if moves == [] then 0 else (if moves[0].Fail? then 1 else 0) + CountFails(moves[1..])
  }

  lemma {:induction false} CountGrowsWithFailures(limits: Limits, m: Machine, moves: seq<Move>)
    ensures Count(Run(limits, m, moves)) <= Count(m) + CountFails(moves)
    decreases |moves|
  {
    if moves != [] {
      CountGrowsWithFailures(limits, Step(limits, m, moves[0]), moves[1..]);
    }
  }

  /** A login whose clearing gets through resets the key. Whatever attempts are under way or follow,
      the key is open again as long as fewer than `maxAttempts` of them fail. */
  lemma SuccessResets(limits: Limits, m: Machine, moves: seq<Move>)
    requires CountFails(moves) < limits.maxAttempts
    ensures Step(limits, m, Succeed(true)).entry.None?
    ensures
      var later := Run(limits, Step(limits, m, Succeed(true)), moves);
      Allows(limits, later.entry, later.now, true)
  {
    CountGrowsWithFailures(limits, Step(limits, m, Succeed(true)), moves);
  }

  // ----- Failures within one interval -----

  /** How many failures fall in the half-open interval from `lo` to `hi`. */
  function CountWithin(log: seq<Hit>, lo: int, hi: int): nat {
    if log == [] then 0
    else
      var last := log[|log| - 1];
      CountWithin(log[..|log| - 1], lo, hi) + if lo <= last.at < hi then 1 else 0
  }

  /** The failures fall into windows at least `w` long, disjoint and in order, each opened by its
      own first failure and holding at most `most` of them. */
  ghost predicate InWindows(log: seq<Hit>, w: int, most: nat) {
    Disjoint(log, w) && Capped(log, w, most) && OpenedByFirst(log)
  }

  ghost predicate Disjoint(log: seq<Hit>, w: int) {
    && (forall i | 0 <= i < |log| :: log[i].openedAt <= log[i].at)
    && (forall i, j | 0 <= i < j < |log| :: log[i].at <= log[j].at)
    && (forall i, j | 0 <= i < j < |log| :: log[i].openedAt == log[j].openedAt || Precedes(log[i], log[j].openedAt, w))
  }

  /** The failure lies before a window opened at `openedAt`, and its own window began `w` earlier. */
  predicate Precedes(hit: Hit, openedAt: int, w: int) {
    hit.at <= openedAt && hit.openedAt + w <= openedAt
  }

  ghost predicate Capped(log: seq<Hit>, w: int, most: nat) {
    forall j | most <= j < |log| :: log[j - most].openedAt + w <= log[j].openedAt
  }

  predicate OpensItsWindow(log: seq<Hit>, j: nat)
    requires j < |log|
  {
    j == 0 || log[j - 1].openedAt != log[j].openedAt ==> log[j].at == log[j].openedAt
  }

  ghost predicate OpenedByFirst(log: seq<Hit>) {
    forall j | 0 <= j < |log| :: OpensItsWindow(log, j)
  }

  /** The counter's entry is the window that the latest failures were counted in. It has no
      deadline exactly while the attempt that opened it has not set one. */
  ghost predicate Tracks(m: Machine, w: int, most: nat) {
    && (forall i | 0 <= i < |m.log| :: m.log[i].at <= m.now)
    && match m.entry
       case None => m.log == [] && m.expiring == 0
       case Some(Entry(count, deadline)) =>
         && m.openedAt <= m.now && 1 <= count <= most && count <= |m.log|
         && (if deadline.None? then m.expiring == 1 else m.expiring == 0 && m.openedAt + w <= deadline.value)
         && (forall i | |m.log| - count <= i < |m.log| :: m.log[i].openedAt == m.openedAt)
         && (forall i | 0 <= i < |m.log| - count :: Precedes(m.log[i], m.openedAt, w))
         && (deadline.Some? ==> forall i | 0 <= i < |m.log| :: m.log[i].at <= deadline.value)
  }

  lemma AppendHit(log: seq<Hit>, hit: Hit, w: int, most: nat)
    requires InWindows(log, w, most) && hit.openedAt <= hit.at
    requires forall i | 0 <= i < |log| ::
               log[i].at <= hit.at && (log[i].openedAt == hit.openedAt || Precedes(log[i], hit.openedAt, w))
    requires 0 < most <= |log| ==> log[|log| - most].openedAt + w <= hit.openedAt
    requires log == [] || log[|log| - 1].openedAt != hit.openedAt ==> hit.at == hit.openedAt
    requires most > 0
    ensures InWindows(log + [hit], w, most)
  {
    var after := log + [hit];
    assert Disjoint(after, w);
    assert Capped(after, w, most) by {
      forall j | most <= j < |after| ensures after[j - most].openedAt + w <= after[j].openedAt {
        if j < |log| {
          assert log[j - most].openedAt + w <= log[j].openedAt;
        } else {
          assert after[j - most] == log[|log| - most];
        }
      }
    }
    forall j | 0 <= j < |after| ensures OpensItsWindow(after, j) {
      assert j < |log| ==> OpensItsWindow(log, j);
    }
  }

  /** The deadline of an expired window lies at least `w` after every window before it opened. */
  lemma ExpiredWindowsPrecede(m: Machine, w: int, most: nat, i: nat)
    requires Tracks(m, w, most) && i < |m.log| && w > 0
    requires m.entry.Some? && m.entry.value.deadline.Some? && m.entry.value.deadline.value <= m.now
    ensures Precedes(m.log[i], m.now, w)
  {
    if i < |m.log| - m.entry.value.count {
      assert Precedes(m.log[i], m.openedAt, w);
    } else {
      assert m.log[i].openedAt == m.openedAt;
    }
  }

  lemma FailureKeepsWindows(limits: Limits, m: Machine, most: nat)
    requires limits.windowSeconds > 0 && Count(m) < most
    requires InWindows(m.log, limits.WindowMs(), most) && Tracks(m, limits.WindowMs(), most)
    ensures
      var m' := Step(limits, m, Fail(true));
      InWindows(m'.log, limits.WindowMs(), most) && Tracks(m', limits.WindowMs(), most)
  {
    var w, m' := limits.WindowMs(), Step(limits, m, Fail(true));
    var hit := m'.log[|m.log|];
    assert m'.log == m.log + [hit];
    if Get(m.entry, m.now).Some? {
      assert m.log[|m.log| - 1].openedAt == hit.openedAt;
    } else {
      forall i | 0 <= i < |m.log| ensures Precedes(m.log[i], m.now, w) {
        ExpiredWindowsPrecede(m, w, most, i);
      }
    }
    AppendHit(m.log, hit, w, most);
  }

  lemma StepKeepsWindows(limits: Limits, n: nat, m: Machine, move: Move)
    requires limits.windowSeconds > 0 && n > 0 && Bounded(limits, n, m) && Legal(n, m, move) && OnlyFails(move)
    requires InWindows(m.log, limits.WindowMs(), Cap(limits) - 1 + n)
    requires Tracks(m, limits.WindowMs(), Cap(limits) - 1 + n)
    ensures
      var m' := Step(limits, m, move);
      && Bounded(limits, n, m')
      && InWindows(m'.log, limits.WindowMs(), Cap(limits) - 1 + n)
      && Tracks(m', limits.WindowMs(), Cap(limits) - 1 + n)
  {
    var w, most := limits.WindowMs(), Cap(limits) - 1 + n;
    StepKeepsBound(limits, n, m, move);
    assert move.Fail? ==> Count(m) < most;
    hide Bounded, Cap;
    if move.Fail? {
      FailureKeepsWindows(limits, m, most);
      hide InWindows, Tracks;
    } else if move.SetExpiry? {
      ExpiryKeepsWindows(limits, m, most);
      hide InWindows, Tracks;
    } else {
      hide InWindows;
      assert Tracks(Step(limits, m, move), w, most);
    }
  }

  lemma ExpiryKeepsWindows(limits: Limits, m: Machine, most: nat)
    requires limits.windowSeconds > 0 && m.expiring > 0 && Tracks(m, limits.WindowMs(), most)
    ensures
      var m' := Step(limits, m, SetExpiry(true));
      && Tracks(m', limits.WindowMs(), most) && m'.log == m.log
      && Count(m') == Count(m) && m'.inFlight == m.inFlight && m'.expiring == m.expiring - 1
  {
  }

  lemma {:induction false} RunKeepsWindows(limits: Limits, n: nat, m: Machine, moves: seq<Move>)
    requires limits.windowSeconds > 0 && n > 0 && Bounded(limits, n, m)
    requires LegalRun(limits, n, m, moves) && OnlyFailures(moves)
    requires InWindows(m.log, limits.WindowMs(), Cap(limits) - 1 + n)
    requires Tracks(m, limits.WindowMs(), Cap(limits) - 1 + n)
    ensures InWindows(Run(limits, m, moves).log, limits.WindowMs(), Cap(limits) - 1 + n)
    decreases |moves|
  {
    if moves != [] {
      var m', rest := Step(limits, m, moves[0]), moves[1..];
      StepKeepsWindows(limits, n, m, moves[0]);
      assert forall i | 0 <= i < |rest| :: rest[i] == moves[i + 1];
      RunKeepsWindows(limits, n, m', rest);
    }
  }

  /** Failures `2 * most - 1` apart in the log are at least a window apart in time. */
  lemma WindowsSpread(log: seq<Hit>, w: int, most: nat, i: nat)
    requires w > 0 && most > 0 && InWindows(log, w, most) && i + 2 * most - 1 < |log|
    ensures log[i].at + w <= log[i + 2 * most - 1].at
  {
    var j, mid := i + 2 * most - 1, i + most - 1;
    assert log[j - most].openedAt + w <= log[j].openedAt && j - most == mid;
    if log[mid].openedAt != log[i].openedAt {
      assert Precedes(log[i], log[mid].openedAt, w);
    } else if i > 0 {
      assert log[mid - most].openedAt + w <= log[mid].openedAt && mid - most == i - 1;
    }
    assert OpensItsWindow(log, i);
  }

  lemma {:induction false} InsideSpan(log: seq<Hit>, lo: int, hi: int) returns (i: nat, j: nat)
    requires CountWithin(log, lo, hi) > 0
    ensures i <= j < |log| && lo <= log[i].at < hi && lo <= log[j].at < hi
    ensures CountWithin(log, lo, hi) <= j - i + 1
  {
    var last := |log| - 1;
    if CountWithin(log[..last], lo, hi) == 0 {
      i, j := last, last;
    } else {
      i, j := InsideSpan(log[..last], lo, hi);
      if lo <= log[last].at < hi {
        j := last;
      }
    }
  }

  /** The failures of a run in the interval of `windowSeconds` from `lo` on. */
  function FailuresFrom(limits: Limits, moves: seq<Move>, lo: int): nat {
    CountWithin(Run(limits, IDLE, moves).log, lo, lo + 1000 * limits.windowSeconds)
  }

  /** In any interval as long as the window, at most `2 * (max - 1 + n) - 1` attempts pass the
      check and then fail; with one attempt at a time that is `2 * max - 1`. */
  lemma FailuresPerInterval(limits: Limits, n: nat, moves: seq<Move>, lo: int)
    requires limits.windowSeconds > 0 && n > 0
    requires LegalRun(limits, n, IDLE, moves) && OnlyFailures(moves)
    ensures FailuresFrom(limits, moves, lo) <= 2 * (Cap(limits) - 1 + n) - 1
  {
    var w, most := limits.WindowMs(), Cap(limits) - 1 + n;
    var log := Run(limits, IDLE, moves).log;
    RunKeepsWindows(limits, n, IDLE, moves);
    if CountWithin(log, lo, lo + w) > 2 * most - 1 {
      var i, j := InsideSpan(log, lo, lo + w);
      WindowsSpread(log, w, most, i);
    }
  }

  // ----- The bound is reached -----

  function Times(moves: seq<Move>, k: nat): seq<Move> {
    if k == 0 then [] else moves + Times(moves, k - 1)
  }

  lemma {:induction false} RunAppend(limits: Limits, n: nat, m: Machine, a: seq<Move>, b: seq<Move>)
    ensures Run(limits, m, a + b) == Run(limits, Run(limits, m, a), b)
    ensures LegalRun(limits, n, m, a) && LegalRun(limits, n, Run(limits, m, a), b) ==>
              LegalRun(limits, n, m, a + b)
    decreases |a|
  {
    if a == [] {
      assert a + b == b;
    } else {
      assert (a + b)[1..] == a[1..] + b;
      RunAppend(limits, n, Step(limits, m, a[0]), a[1..], b);
    }
  }

  /** `m'` is reached from `m` by the moves, legally and without successes or errors. */
  ghost predicate Reaches(limits: Limits, n: nat, m: Machine, moves: seq<Move>, m': Machine) {
    LegalRun(limits, n, m, moves) && OnlyFailures(moves) && Run(limits, m, moves) == m'
  }

  lemma ReachesAppend(limits: Limits, n: nat, m: Machine, a: seq<Move>, m': Machine, b: seq<Move>, m'': Machine)
    requires Reaches(limits, n, m, a, m') && Reaches(limits, n, m', b, m'')
    ensures Reaches(limits, n, m, a + b, m'')
  {
    RunAppend(limits, n, m, a, b);
  }

  lemma {:induction false} ChecksPass(limits: Limits, n: nat, m: Machine, k: nat)
    requires m.inFlight + m.expiring + k <= n && Allows(limits, m.entry, m.now, true)
    ensures Reaches(limits, n, m, Times([Check], k), m.(inFlight := m.inFlight + k))
    decreases k
  {
    if k > 0 {
      var next := m.(inFlight := m.inFlight + 1);
      assert Reaches(limits, n, m, [Check], next) by {
        assert [Check][1..] == [];
      }
      ChecksPass(limits, n, next, k - 1);
      ReachesAppend(limits, n, m, [Check], next, Times([Check], k - 1), m.(inFlight := m.inFlight + k));
    }
  }

  /** `m` after `k` more failures in its open window, `landed` of them attempts that were in flight. */
  function MoreFailures(m: Machine, k: nat, landed: nat): Machine
    requires m.entry.Some? && landed <= m.inFlight
  {
    var Entry(count, deadline) := m.entry.value;
    m.(entry := Some(Entry(count + k, deadline)), inFlight := m.inFlight - landed,
       log := m.log + seq(k, _ => Hit(m.now, m.openedAt)))
  }

  /** The counter is there, and the attempt that started it is done with it. */
  predicate WindowOpen(m: Machine) {
    m.entry.Some? && (m.entry.value.deadline.Some? ==> m.now < m.entry.value.deadline.value)
    && m.entry.value.count >= 1 && m.expiring == 0
  }

  lemma {:induction false} FailuresLand(limits: Limits, n: nat, m: Machine, k: nat)
    requires WindowOpen(m) && k <= m.inFlight
    ensures Reaches(limits, n, m, Times([Fail(true)], k), MoreFailures(m, k, k))
    decreases k
  {
    if k == 0 {
      assert MoreFailures(m, 0, 0) == m;
    } else {
      var next := MoreFailures(m, 1, 1);
      var fail := [Fail(true)];
      assert Reaches(limits, n, m, fail, next) by {
        assert fail[1..] == [];
      }
      FailuresLand(limits, n, next, k - 1);
      assert MoreFailures(next, k - 1, k - 1) == MoreFailures(m, k, k);
      ReachesAppend(limits, n, m, fail, next, Times(fail, k - 1), MoreFailures(m, k, k));
    }
  }

  lemma {:induction false} AttemptsFail(limits: Limits, n: nat, m: Machine, k: nat)
    requires WindowOpen(m) && m.inFlight < n && m.entry.value.count + k <= limits.maxAttempts
    ensures Reaches(limits, n, m, Times([Check, Fail(true)], k), MoreFailures(m, k, 0))
    decreases k
  {
    if k == 0 {
      assert MoreFailures(m, 0, 0) == m;
    } else {
      var next := MoreFailures(m, 1, 0);
      var attempt := [Check, Fail(true)];
      assert Reaches(limits, n, m, attempt, next) by {
        assert attempt[1..] == [Fail(true)] && attempt[1..][1..] == [];
      }
      AttemptsFail(limits, n, next, k - 1);
      assert MoreFailures(next, k - 1, 0) == MoreFailures(m, k, 0);
      ReachesAppend(limits, n, m, attempt, next, Times(attempt, k - 1), MoreFailures(m, k, 0));
    }
  }

  /** All `n` slots are taken while the key is free, one attempt fails and opens the window, then
      the limit is used up one attempt at a time, and last the waiting attempts fail. */
  lemma FillWindow(limits: Limits, n: nat, m: Machine, delay: nat) returns (moves: seq<Move>, m': Machine)
    requires limits.maxAttempts >= 1 && n >= 1 && Get(m.entry, m.now).None?
    requires m.inFlight == 0 && m.expiring == 0 && delay < limits.WindowMs()
    ensures Reaches(limits, n, m, moves, m') && m'.inFlight == 0 && m'.expiring == 0
    ensures m'.now == m.now + delay && m'.entry.Some?
    ensures m'.entry.value.deadline == Some(m.now + limits.WindowMs())
    ensures m'.log == m.log + [Hit(m.now, m.now)]
                      + seq(limits.maxAttempts - 2 + n, _ => Hit(m.now + delay, m.now))
  {
    var w, extra := limits.WindowMs(), limits.maxAttempts - 1;
    var waiting := m.(inFlight := n);
    ChecksPass(limits, n, m, n);
    var began := Machine(Some(Entry(1, Some(m.now + w))), m.now + delay, n - 1, 0, m.now, m.log + [Hit(m.now, m.now)]);
    var open := [Fail(true), SetExpiry(true), Tick(delay)];
    OpeningReaches(limits, n, waiting, delay, began);
    AttemptsFail(limits, n, began, extra);
    var used := MoreFailures(began, extra, 0);
    FailuresLand(limits, n, used, n - 1);
    m' := MoreFailures(used, n - 1, n - 1);
    var first := Times([Check], n) + open;
    ReachesAppend(limits, n, m, Times([Check], n), waiting, open, began);
    var second := first + Times([Check, Fail(true)], extra);
    ReachesAppend(limits, n, m, first, began, Times([Check, Fail(true)], extra), used);
    moves := second + Times([Fail(true)], n - 1);
    ReachesAppend(limits, n, m, second, used, Times([Fail(true)], n - 1), m');
  }

  lemma OpeningReaches(limits: Limits, n: nat, waiting: Machine, delay: nat, began: Machine)
    requires Get(waiting.entry, waiting.now).None? && waiting.inFlight > 0 && waiting.expiring == 0
    requires began == Machine(
      Some(Entry(1, Some(waiting.now + limits.WindowMs()))), waiting.now + delay, waiting.inFlight - 1, 0,
      waiting.now, waiting.log + [Hit(waiting.now, waiting.now)])
    ensures Reaches(limits, n, waiting, [Fail(true), SetExpiry(true), Tick(delay)], began)
  {
    var open := [Fail(true), SetExpiry(true), Tick(delay)];
    assert open[1..] == [SetExpiry(true), Tick(delay)] && open[1..][1..] == [Tick(delay)];
    assert open[1..][1..][1..] == [];
    var failed := Step(limits, waiting, Fail(true));
    var timed := Step(limits, failed, SetExpiry(true));
    assert Run(limits, timed, [Tick(delay)]) == began;
    assert LegalRun(limits, n, timed, [Tick(delay)]);
  }

  lemma {:induction false} CountWithinAppend(a: seq<Hit>, b: seq<Hit>, lo: int, hi: int)
    ensures CountWithin(a + b, lo, hi) == CountWithin(a, lo, hi) + CountWithin(b, lo, hi)
  {
    if b == [] {
      assert a + b == a;
    } else {
      var last := |b| - 1;
      assert (a + b)[..|a + b| - 1] == a + b[..last];
      CountWithinAppend(a, b[..last], lo, hi);
    }
  }

  lemma {:induction false} CountWithinRepeat(hit: Hit, k: nat, lo: int, hi: int)
    requires lo <= hit.at < hi
    ensures CountWithin(seq(k, _ => hit), lo, hi) == k
  {
    if k > 0 {
      var hits := seq(k, _ => hit);
      assert hits[..k - 1] == seq(k - 1, _ => hit);
      CountWithinRepeat(hit, k - 1, lo, hi);
    }
  }

  /** For every limit and every degree of concurrency some run reaches the bound of
      FailuresPerInterval: the tail of one window and the whole of the next. */
  lemma FailuresPerIntervalReached(limits: Limits, n: nat) returns (moves: seq<Move>, lo: int)
    requires limits.windowSeconds > 0 && limits.maxAttempts >= 1 && n >= 1
    ensures LegalRun(limits, n, IDLE, moves) && OnlyFailures(moves)
    ensures FailuresFrom(limits, moves, lo) == 2 * (limits.maxAttempts - 1 + n) - 1
  {
    var w, most := limits.WindowMs(), limits.maxAttempts - 1 + n;
    var a, full := FillWindow(limits, n, IDLE, w - 1);
    var next := full.(now := w);
    assert Reaches(limits, n, full, [Tick(1)], next) by {
      assert [Tick(1)][1..] == [];
    }
    var b, end := FillWindow(limits, n, next, 0);
    ReachesAppend(limits, n, IDLE, a, full, [Tick(1)], next);
    ReachesAppend(limits, n, IDLE, a + [Tick(1)], next, b, end);
    moves, lo := a + [Tick(1)] + b, 1;
    TwoFullWindows(w, most);
    assert end.log == TwoWindows(w, most);
  }

  function TwoWindows(w: int, most: nat): seq<Hit>
    requires most > 0
  {
    [Hit(0, 0)] + seq(most - 1, _ => Hit(w - 1, 0)) + [Hit(w, w)] + seq(most - 1, _ => Hit(w, w))
  }

  lemma TwoFullWindows(w: int, most: nat)
    requires w > 1 && most > 0
    ensures CountWithin(TwoWindows(w, most), 1, w + 1) == 2 * most - 1
  {
    var first, tail := [Hit(0, 0)], seq(most - 1, _ => Hit(w - 1, 0));
    var second, rest := [Hit(w, w)], seq(most - 1, _ => Hit(w, w));
    CountWithinAppend(first + tail + second, rest, 1, w + 1);
    CountWithinAppend(first + tail, second, 1, w + 1);
    CountWithinAppend(first, tail, 1, w + 1);
    CountWithinRepeat(Hit(w - 1, 0), most - 1, 1, w + 1);
    CountWithinRepeat(Hit(w, w), most - 1, 1, w + 1);
    assert first[..0] == [] && second[..0] == [];
  }

  /** What a rolling window would promise: never more than the limit in any interval that long. */
  ghost predicate RollingWindow(limits: Limits, n: nat) {
    forall moves: seq<Move>, lo: int | LegalRun(limits, n, IDLE, moves) && OnlyFailures(moves) ::
      FailuresFrom(limits, moves, lo) <= limits.maxAttempts
  }

  /** The documented rolling window is met exactly by a limit of one with one attempt at a time. */
  lemma RollingWindowExactlyWhen(limits: Limits, n: nat)
    requires limits.windowSeconds > 0 && limits.maxAttempts >= 1 && n >= 1
    ensures RollingWindow(limits, n) <==> limits.maxAttempts == 1 && n == 1
  {
    if limits.maxAttempts == 1 && n == 1 {
      forall moves, lo | LegalRun(limits, n, IDLE, moves) && OnlyFailures(moves)
        ensures FailuresFrom(limits, moves, lo) <= limits.maxAttempts
      {
        FailuresPerInterval(limits, n, moves, lo);
      }
    } else {
      var moves, lo := FailuresPerIntervalReached(limits, n);
    }
  }

  // ----- A lost expiry -----

  /** No login succeeds in clearing the counter. */
  predicate NeverCleared(moves: seq<Move>) {
    forall i | 0 <= i < |moves| :: moves[i].Succeed? ==> !moves[i].deleteUp
  }

  /** However the attempts go on, unless one clears the counter, the key is refused. */
  ghost predicate LockedOut(limits: Limits, n: nat, m: Machine) {
    forall moves: seq<Move> | LegalRun(limits, n, m, moves) && NeverCleared(moves) ::
      Refuses(limits, Run(limits, m, moves))
  }

  predicate Refuses(limits: Limits, m: Machine) {
    !Allows(limits, m.entry, m.now, true)
  }

  lemma {:induction false} NoDeadlineKeepsRefusing(limits: Limits, n: nat, m: Machine, moves: seq<Move>)
    requires Refuses(limits, m) && m.entry.value.deadline.None? && m.expiring == 0 && m.entry.value.count >= 1
    requires LegalRun(limits, n, m, moves) && NeverCleared(moves)
    ensures Refuses(limits, Run(limits, m, moves))
    decreases |moves|
  {
    if moves != [] {
      assert forall i | 0 <= i < |moves[1..]| :: moves[1..][i] == moves[i + 1];
      NoDeadlineKeepsRefusing(limits, n, Step(limits, m, moves[0]), moves[1..]);
    }
  }

  /** A key that is refused is refused for good, unless a login clears it, exactly when its counter
      has no deadline and no attempt is left to set one; otherwise waiting frees it. */
  lemma LockedOutExactlyWhen(limits: Limits, n: nat, m: Machine)
    requires Refuses(limits, m) && m.entry.value.count >= 1
    ensures LockedOut(limits, n, m) <==> m.entry.value.deadline.None? && m.expiring == 0
  {
    if m.entry.value.deadline.None? && m.expiring == 0 {
      forall moves | LegalRun(limits, n, m, moves) && NeverCleared(moves)
        ensures Refuses(limits, Run(limits, m, moves))
      {
        NoDeadlineKeepsRefusing(limits, n, m, moves);
      }
    } else if m.entry.value.deadline.Some? {
      var wait := [Tick(m.entry.value.deadline.value - m.now)];
      assert wait[1..] == [];
      assert LegalRun(limits, n, m, wait) && NeverCleared(wait);
      assert !Refuses(limits, Run(limits, m, wait));
    } else {
      var timed := [SetExpiry(true), Tick(limits.WindowMs())];
      assert timed[1..] == [Tick(limits.WindowMs())] && timed[1..][1..] == [];
      var opener := Step(limits, m, SetExpiry(true));
      assert opener.entry.value.deadline == Some(m.now + limits.WindowMs());
      assert Run(limits, m, timed) == Run(limits, opener, timed[1..]) == Step(limits, opener, timed[1]);
      assert LegalRun(limits, n, opener, timed[1..]);
      assert LegalRun(limits, n, m, timed) && NeverCleared(timed);
      assert !Refuses(limits, Run(limits, m, timed));
    }
  }

  /** The locked state is reached: whatever the limit, one attempt at a time and one lost `EXPIRE`
      are enough. */
  lemma LostExpiryLocksOut(limits: Limits, n: nat) returns (moves: seq<Move>)
    requires limits.maxAttempts >= 1 && n >= 1
    ensures moves == [Check, Fail(true), SetExpiry(false)] + Times([Check, Fail(true)], limits.maxAttempts - 1)
    ensures
      var m := Run(limits, IDLE, moves);
      LegalRun(limits, n, IDLE, moves) && m.entry == Some(Entry(limits.maxAttempts, None)) && LockedOut(limits, n, m)
  {
    var lost, extra := [Check, Fail(true), SetExpiry(false)], limits.maxAttempts - 1;
    assert lost[1..] == [Fail(true), SetExpiry(false)] && lost[1..][1..] == [SetExpiry(false)];
    assert lost[1..][1..][1..] == [];
    var began := Machine(Some(Entry(1, None)), 0, 0, 0, 0, [Hit(0, 0)]);
    assert Step(limits, IDLE, Check) == IDLE.(inFlight := 1);
    assert Step(limits, IDLE.(inFlight := 1), Fail(true)) == began.(expiring := 1);
    assert Step(limits, began.(expiring := 1), SetExpiry(false)) == began;
    assert LegalRun(limits, n, IDLE, lost) && Run(limits, IDLE, lost) == began;
    AttemptsFail(limits, n, began, extra);
    RunAppend(limits, n, IDLE, lost, Times([Check, Fail(true)], extra));
    moves := lost + Times([Check, Fail(true)], extra);
    LockedOutExactlyWhen(limits, n, Run(limits, IDLE, moves));
  }
}
