/** The brake on failed logins when attempts overlap: each reads its counter before the password check and records
    the result after it, with other attempts in between (apps/api/src/auth/auth.service.ts). */
module LoginOverlap {
  import opened Common
  import opened LoginLimiter

  type RequestId = nat

  datatype State = State(counters: Counters, pending: map<RequestId, Reading>)

  const START := State(map[], map[])

  datatype Step =
    | Read(request: RequestId, key: Key, prunedAt: int, checkedAt: int)
    | Record(request: RequestId, valid: bool, recordedAt: int)
    /** The request dies during the password check. */
    | Abandon(request: RequestId, at: int)

  function TimeOf(step: Step): int {
    match step
    case Read(_, _, _, checkedAt) => checkedAt
    case Record(_, _, recordedAt) => recordedAt
    case Abandon(_, at) => at
  }

  function Next(state: State, step: Step): State {
    match step
    case Read(request, key, prunedAt, checkedAt) =>
      var pruned := Pruned(state.counters, prunedAt);
      var reading := ReadCounter(pruned, key, checkedAt);
      State(pruned, if reading.Some? then state.pending[request := reading.value] else state.pending)
    case Record(request, valid, recordedAt) =>
      if request in state.pending
      then State(Recorded(state.counters, state.pending[request], valid, recordedAt), state.pending - {request})
      else state
    case Abandon(request, _) => state.(pending := state.pending - {request})
  }

  function Steps(state: State, steps: seq<Step>): State
    decreases |steps|
  {
    if steps == [] then state else Steps(Next(state, steps[0]), steps[1..])
  }

  /** Requests read once, and the clock never runs backwards from `now` on. */
  predicate Timely(state: State, steps: seq<Step>, now: int)
    decreases |steps|
  {
    steps != [] ==>
      && (steps[0].Read? ==> now <= steps[0].prunedAt <= steps[0].checkedAt && steps[0].request !in state.pending)
      && now <= TimeOf(steps[0])
      && Timely(Next(state, steps[0]), steps[1..], TimeOf(steps[0]))
  }

  // ---------------------------------------------------------------------------------------------
  // Attempts without overlap
  // ---------------------------------------------------------------------------------------------

  /** The two steps of one attempt. */
  function Halves(attempt: Attempt): seq<Step> {
    [Read(0, attempt.key, attempt.prunedAt, attempt.checkedAt), Record(0, attempt.valid, attempt.recordedAt)]
  }

  function AllHalves(trace: seq<Attempt>): seq<Step> {
    if trace == [] then [] else AllHalves(trace[..|trace| - 1]) + Halves(trace[|trace| - 1])
  }

  lemma {:induction false} StepsOfConcat(state: State, a: seq<Step>, b: seq<Step>)
    ensures Steps(state, a + b) == Steps(Steps(state, a), b)
    decreases |a|
  {
    hide Next;
    if a == [] {
      assert a + b == b;
    } else {
      assert (a + b)[1..] == a[1..] + b;
      StepsOfConcat(Next(state, a[0]), a[1..], b);
    }
  }

  lemma OneStep(state: State, step: Step)
    ensures Steps(state, [step]) == Next(state, step)
  {
    hide Next;
    assert [step][1..] == [];
  }

  lemma TwoSteps(state: State, a: Step, b: Step)
    ensures Steps(state, [a, b]) == Next(Next(state, a), b)
  {
    hide Next;
    assert [a, b][1..] == [b];
    OneStep(Next(state, a), b);
  }

  lemma HalvesAreOneAttempt(counters: Counters, attempt: Attempt)
    ensures Steps(State(counters, map[]), Halves(attempt)) == State(After(counters, attempt), map[])
  {
    hide Pruned, Recorded;
    TwoSteps(State(counters, map[]), Halves(attempt)[0], Halves(attempt)[1]);
    var state := Next(State(counters, map[]), Halves(attempt)[0]);
    AttemptReadsThenRecords(counters, attempt);
    assert state.pending - {0} == map[];
  }

  /** An attempt reads its counter and then records by it. */
  lemma AttemptReadsThenRecords(counters: Counters, attempt: Attempt)
    ensures var pruned := Pruned(counters, attempt.prunedAt);
      var reading := ReadCounter(pruned, attempt.key, attempt.checkedAt);
      After(counters, attempt) ==
        if reading.None? then pruned else Recorded(pruned, reading.value, attempt.valid, attempt.recordedAt)
  {
  }

  /** Attempts one after the other, in halves or whole, leave the same counters. */
  lemma {:induction false} SequentialIsInterleaved(trace: seq<Attempt>)
    ensures Steps(START, AllHalves(trace)) == State(Run(trace), map[])
  {
    if trace != [] {
      var before, last := trace[..|trace| - 1], trace[|trace| - 1];
      SequentialIsInterleaved(before);
      StepsOfConcat(START, AllHalves(before), Halves(last));
      HalvesAreOneAttempt(Run(before), last);
    }
  }

  // ---------------------------------------------------------------------------------------------
  // Blocks under overlap
  // ---------------------------------------------------------------------------------------------

  predicate Blocked(state: State, key: Key, now: int) {
    key in state.counters && Running(state.counters[key], now)
  }

  /** The record of an attempt with the right password, or of one that had read fewer than four failures. */
  predicate Lifts(state: State, step: Step, key: Key) {
    && step.Record? && step.request in state.pending && state.pending[step.request].key == key
    && (step.valid || FailuresIn(state.pending[step.request].seen) < LOGIN_MAX_FAILURES - 1)
  }

  /** A running block is lifted by exactly these records; any other step leaves it, or sets a later end. */
  lemma BlockIsLiftedIff(state: State, step: Step, key: Key)
    requires Blocked(state, key, TimeOf(step)) && TimeOf(step) >= 0
    requires step.Read? ==> step.prunedAt <= step.checkedAt
    ensures !Blocked(Next(state, step), key, TimeOf(step)) <==> Lifts(state, step, key)
    ensures !Lifts(state, step, key) && state.counters[key].blockedUntil <= TimeOf(step) + LOGIN_WINDOW_MS ==>
      Next(state, step).counters[key].blockedUntil >= state.counters[key].blockedUntil
    ensures !Lifts(state, step, key) && state.counters[key].blockedUntil <= TimeOf(step) + LOGIN_WINDOW_MS ==>
      Next(state, step).counters[key].blockedUntil <= TimeOf(step) + LOGIN_WINDOW_MS
  {
  }

  /** The block with its end at `until` or later, in every state of a run. */
  predicate BlockedAlong(state: State, steps: seq<Step>, key: Key, until: int)
    decreases |steps|
  {
    && key in state.counters && state.counters[key].blockedUntil >= until
    && (steps != [] ==> BlockedAlong(Next(state, steps[0]), steps[1..], key, until))
  }

  predicate NeverLifted(state: State, steps: seq<Step>, key: Key)
    decreases |steps|
  {
    steps != [] ==> !Lifts(state, steps[0], key) && NeverLifted(Next(state, steps[0]), steps[1..], key)
  }

  /** Over every interleaving, a block lasts to its end exactly when no such record comes before. */
  lemma {:induction false} BlockLastsIff(state: State, steps: seq<Step>, key: Key, until: int, now: int)
    requires 0 <= now && Timely(state, steps, now) && forall i | 0 <= i < |steps| :: TimeOf(steps[i]) < until
    requires key in state.counters && until <= state.counters[key].blockedUntil <= now + LOGIN_WINDOW_MS && until > 0
    ensures BlockedAlong(state, steps, key, until) <==> NeverLifted(state, steps, key)
    decreases |steps|
  {
    if steps != [] {
      var step := steps[0];
      BlockIsLiftedIff(state, step, key);
      hide Next, Lifts;
      if !Lifts(state, step, key) {
        forall i | 0 <= i < |steps[1..]|
          ensures TimeOf(steps[1..][i]) < until
        {
          assert steps[1..][i] == steps[i + 1];
        }
        BlockLastsIff(Next(state, step), steps[1..], key, until, TimeOf(step));
      }
    }
  }

  // ---------------------------------------------------------------------------------------------
  // What overlap lets through
  // ---------------------------------------------------------------------------------------------

  /** n requests read at one moment, before any of them records. */
  function Reads(n: nat, key: Key): seq<Step> {
    if n == 0 then [] else Reads(n - 1, key) + [Read(n - 1, key, 0, 0)]
  }

  function Failures(n: nat, at: int): seq<Step> {
    if n == 0 then [] else Failures(n - 1, at) + [Record(n - 1, false, at)]
  }

  /** The requests from lo up to hi have read an address without a counter. */
  predicate HasReadings(pending: map<RequestId, Reading>, lo: nat, hi: nat, key: Key) {
    forall r: nat | lo <= r < hi :: r in pending && pending[r] == Reading(key, None, 0)
  }

  lemma OneMoreReading(state: State, n: nat, key: Key)
    requires state.counters == map[] && HasReadings(state.pending, 0, n, key)
    ensures var after := Next(state, Read(n, key, 0, 0));
      after.counters == map[] && HasReadings(after.pending, 0, n + 1, key)
  {
  }

  lemma OneMoreFailure(state: State, n: nat, m: nat, key: Key, at: int)
    requires state.counters == (if n == 0 then map[] else map[key := Counter(1, 0)])
    requires n < m && HasReadings(state.pending, n, m, key)
    ensures var after := Next(state, Record(n, false, at));
      after.counters == map[key := Counter(1, 0)] && HasReadings(after.pending, n + 1, m, key)
  {
  }

  lemma {:induction false} AfterReads(n: nat, key: Key)
    ensures Steps(START, Reads(n, key)).counters == map[] && HasReadings(Steps(START, Reads(n, key)).pending, 0, n, key)
  {
    hide Next, HasReadings;
    if n > 0 {
      AfterReads(n - 1, key);
      StepsOfConcat(START, Reads(n - 1, key), [Read(n - 1, key, 0, 0)]);
      OneStep(Steps(START, Reads(n - 1, key)), Read(n - 1, key, 0, 0));
      OneMoreReading(Steps(START, Reads(n - 1, key)), n - 1, key);
    } else {
      NoReadings(key);
    }
  }

  lemma NoReadings(key: Key)
    ensures HasReadings(map[], 0, 0, key)
  {
  }

  lemma {:induction false} AfterFailures(state: State, n: nat, m: nat, key: Key, at: int)
    requires state.counters == map[] && n <= m && HasReadings(state.pending, 0, m, key)
    ensures var after := Steps(state, Failures(n, at));
      HasReadings(after.pending, n, m, key) && after.counters == if n == 0 then map[] else map[key := Counter(1, 0)]
  {
    hide Next, HasReadings;
    if n > 0 {
      AfterFailures(state, n - 1, m, key, at);
      StepsOfConcat(state, Failures(n - 1, at), [Record(n - 1, false, at)]);
      OneStep(Steps(state, Failures(n - 1, at)), Record(n - 1, false, at));
      OneMoreFailure(Steps(state, Failures(n - 1, at)), n - 1, m, key, at);
    }
  }

  /** From the start of the service, any number of overlapping failures of one address count as one, and block
      nothing. */
  lemma OverlappingFailuresCountOnce(n: nat, key: Key, at: int)
    requires n > 0
    ensures Steps(START, Reads(n, key) + Failures(n, at)).counters == map[key := Counter(1, 0)]
  {
    AfterReads(n, key);
    StepsOfConcat(START, Reads(n, key), Failures(n, at));
    AfterFailures(Steps(START, Reads(n, key)), n, n, key, at);
  }

  /** Failures one after the other, from the first on. */
  function FailedLogins(n: nat, key: Key): seq<Attempt> {
    if n == 0 then [] else FailedLogins(n - 1, key) + [Attempt(key, n, n, n, false)]
  }

  /** A request of an address that reads at the start and is still in flight, while the address fails as often as it
      likes. */
  lemma {:induction false} FailuresBesideReading(n: nat, key: Key, other: RequestId)
    requires n <= LOGIN_MAX_FAILURES && other != 0
    ensures var state := Steps(State(map[], map[other := Reading(key, None, 0)]), AllHalves(FailedLogins(n, key)));
      && state.pending == map[other := Reading(key, None, 0)]
      && state.counters == if n == 0 then map[]
           else map[key := Counter(n, if n >= LOGIN_MAX_FAILURES then n + LOGIN_WINDOW_MS else 0)]
  {
    hide Next, Pruned, Recorded, ReadCounter;
    if n > 0 {
      FailuresBesideReading(n - 1, key, other);
      var start := State(map[], map[other := Reading(key, None, 0)]);
      var trace := FailedLogins(n, key);
      var last := Attempt(key, n, n, n, false);
      assert trace[..|trace| - 1] == FailedLogins(n - 1, key) && trace[|trace| - 1] == last;
      StepsOfConcat(start, AllHalves(FailedLogins(n - 1, key)), Halves(last));
      var before := Steps(start, AllHalves(FailedLogins(n - 1, key)));
      TwoSteps(before, Halves(last)[0], Halves(last)[1]);
      FailureBeside(before, n, key, other);
    }
  }

  /** The n-th failure, with the other request still in flight. */
  lemma FailureBeside(before: State, n: nat, key: Key, other: RequestId)
    requires 0 < n <= LOGIN_MAX_FAILURES && other != 0 && before.pending == map[other := Reading(key, None, 0)]
    requires before.counters == if n == 1 then map[] else map[key := Counter(n - 1, 0)]
    ensures var halves := Halves(Attempt(key, n, n, n, false));
      Next(Next(before, halves[0]), halves[1]) ==
        State(map[key := Counter(n, if n >= LOGIN_MAX_FAILURES then n + LOGIN_WINDOW_MS else 0)], before.pending)
  {
    var halves := Halves(Attempt(key, n, n, n, false));
    var middle := Next(before, halves[0]);
    assert middle == State(before.counters, before.pending[0 := Reading(key, Lookup(before.counters, key), n)]);
    assert middle.pending - {0} == before.pending;
  }

  /** A run from the start of the service in which a late record lifts a running block: one request reads, five others
      of its address fail and set the block, and the failure of the first one takes the block away. */
  lemma LateFailureLiftsBlock(key: Key)
    ensures var steps := [Read(1, key, 0, 0)] + AllHalves(FailedLogins(5, key));
      var blocked := Steps(START, steps);
      && Blocked(blocked, key, 6)
      && 1 in blocked.pending && Lifts(blocked, Record(1, false, 6), key)
      && Steps(START, steps + [Record(1, false, 6)]).counters == map[key := Counter(1, 0)]
  {
    var first, rest, late := Read(1, key, 0, 0), AllHalves(FailedLogins(5, key)), Record(1, false, 6);
    StepsOfConcat(START, [first] + rest, [late]);
    StepsOfConcat(START, [first], rest);
    OneStep(START, first);
    assert Next(START, first) == State(map[], map[1 := Reading(key, None, 0)]);
    FailuresBesideReading(5, key, 1);
    var blocked := Steps(START, [first] + rest);
    OneStep(blocked, late);
  }

  // ---------------------------------------------------------------------------------------------
  // Addresses whose own attempts do not overlap
  // ---------------------------------------------------------------------------------------------

  predicate InFlight(state: State, key: Key) {
    exists r | r in state.pending :: state.pending[r].key == key
  }

  /** No attempt of the address starts while another one is in flight; other addresses may do as they like. */
  predicate NoOverlap(state: State, steps: seq<Step>, key: Key)
    decreases |steps|
  {
    steps != [] ==>
      && (steps[0].Read? && steps[0].key == key ==> !InFlight(state, key))
      && NoOverlap(Next(state, steps[0]), steps[1..], key)
  }

  /** The failures of an address in a row, brought up to date with one more step. A success ends the row, and so does
      forgetting: a counter that is not blocked may be dropped when there are 10000 of them. */
  function NextRow(state: State, step: Step, key: Key, row: seq<Attempt>): seq<Attempt> {
    match step
    case Read(_, _, _, _) => if InFlight(state, key) || key in Next(state, step).counters then row else []
    case Record(request, valid, recordedAt) =>
      if request !in state.pending || state.pending[request].key != key then row
      else if valid then []
      else row + [Attempt(key, state.pending[request].checkedAt, state.pending[request].checkedAt, recordedAt, false)]
    case Abandon(request, _) =>
      if request in state.pending && state.pending[request].key == key && key !in state.counters then [] else row
  }

  function Row(state: State, steps: seq<Step>, key: Key, row: seq<Attempt>): seq<Attempt>
    decreases |steps|
  {
    if steps == [] then row else Row(Next(state, steps[0]), steps[1..], key, NextRow(state, steps[0], key, row))
  }

  /** What a counter says about a row of failures. */
  predicate Tells(counter: Option<Counter>, row: seq<Attempt>) {
    && (counter.Some? <==> row != [])
    && (counter.Some? ==>
          && counter.value.failures == |row|
          && counter.value.blockedUntil ==
             (if |row| >= LOGIN_MAX_FAILURES then row[|row| - 1].recordedAt + LOGIN_WINDOW_MS else 0))
  }

  /** A reading in flight was not blocked, tells the row, and agrees with the counter unless that has been dropped. */
  predicate ReadingOk(reading: Reading, counters: Counters, row: seq<Attempt>, now: int) {
    && Tells(reading.seen, row) && 0 <= reading.checkedAt <= now
    && (reading.seen.Some? ==> !Running(reading.seen.value, reading.checkedAt))
    && (reading.key in counters ==> Lookup(counters, reading.key) == reading.seen)
  }

  predicate AtMostOne(state: State, key: Key) {
    forall r, q | r in state.pending && q in state.pending && state.pending[r].key == key
      && state.pending[q].key == key :: r == q
  }

  /** While an attempt of the address is in flight its reading tells the row, else the counter does. */
  predicate RowOk(state: State, key: Key, row: seq<Attempt>, now: int) {
    && Spaced(row) && 0 <= now && AtMostOne(state, key)
    && (forall r | r in state.pending && state.pending[r].key == key ::
      ReadingOk(state.pending[r], state.counters, row, now))
    && (!InFlight(state, key) ==> Tells(Lookup(state.counters, key), row))
  }

  lemma PruningKeeps(counters: Counters, key: Key, now: int)
    ensures key in Pruned(counters, now) ==> key in counters && Pruned(counters, now)[key] == counters[key]
  {
  }

  lemma ReadKeepsRow(state: State, step: Step, key: Key, row: seq<Attempt>, now: int)
    requires RowOk(state, key, row, now) && step.Read? && now <= step.checkedAt && step.request !in state.pending
    requires step.key == key ==> !InFlight(state, key)
    ensures RowOk(Next(state, step), key, NextRow(state, step, key, row), step.checkedAt)
  {
    PruningKeeps(state.counters, key, step.prunedAt);
    hide Pruned, Spaced;
    var after := Next(state, step);
    assert forall r | r in state.pending :: r in after.pending && after.pending[r] == state.pending[r];
    if InFlight(state, key) {
      hide Tells;
    } else {
      assert forall r | r in after.pending && after.pending[r].key == key :: r == step.request;
      if step.request in after.pending && step.key == key {
        assert InFlight(after, key);
      }
    }
  }

  lemma RecordKeepsRow(state: State, step: Step, key: Key, row: seq<Attempt>, now: int)
    requires RowOk(state, key, row, now) && step.Record? && now <= step.recordedAt
    ensures RowOk(Next(state, step), key, NextRow(state, step, key, row), step.recordedAt)
  {
    var after := Next(state, step);
    if step.request in state.pending && state.pending[step.request].key == key {
      assert !InFlight(after, key);
      RecordedRow(state.pending[step.request], state.counters, step.valid, step.recordedAt, row, now);
      hide Spaced, Tells, Recorded;
    } else {
      hide Spaced, Tells;
      assert Lookup(after.counters, key) == Lookup(state.counters, key);
      if InFlight(state, key) {
        var r :| r in state.pending && state.pending[r].key == key;
        assert r in after.pending;
      }
    }
  }

  /** The row and the counter that a record leaves. */
  lemma RecordedRow(reading: Reading, counters: Counters, valid: bool, recordedAt: int, row: seq<Attempt>, now: int)
    requires Spaced(row) && ReadingOk(reading, counters, row, now) && now <= recordedAt
    ensures var longer := if valid then []
        else row + [Attempt(reading.key, reading.checkedAt, reading.checkedAt, recordedAt, false)];
      Spaced(longer) && Tells(Lookup(Recorded(counters, reading, valid, recordedAt), reading.key), longer)
  {
  }

  lemma AbandonKeepsRow(state: State, step: Step, key: Key, row: seq<Attempt>, now: int)
    requires RowOk(state, key, row, now) && step.Abandon? && now <= step.at
    ensures RowOk(Next(state, step), key, NextRow(state, step, key, row), step.at)
  {
    hide Spaced;
    var after := Next(state, step);
    if step.request in state.pending && state.pending[step.request].key == key {
      assert !InFlight(after, key);
      assert ReadingOk(state.pending[step.request], state.counters, row, now);
      assert Spaced([]) by { NothingIsSpaced(); }
    } else {
      hide Tells;
      if InFlight(state, key) {
        var r :| r in state.pending && state.pending[r].key == key;
        assert r in after.pending;
      }
    }
  }

  lemma NothingIsSpaced()
    ensures Spaced([])
  {
  }

  lemma StepKeepsRow(state: State, step: Step, key: Key, row: seq<Attempt>, now: int)
    requires RowOk(state, key, row, now) && now <= TimeOf(step)
    requires step.Read? ==> step.request !in state.pending && (step.key == key ==> !InFlight(state, key))
    ensures RowOk(Next(state, step), key, NextRow(state, step, key, row), TimeOf(step))
  {
    hide RowOk, Next, NextRow, InFlight;
    match step
    case Read(_, _, _, _) => ReadKeepsRow(state, step, key, row, now);
    case Record(_, _, _) => RecordKeepsRow(state, step, key, row, now);
    case Abandon(_, _) => AbandonKeepsRow(state, step, key, row, now);
  }

  lemma {:induction false} StepsKeepRow(state: State, steps: seq<Step>, key: Key, row: seq<Attempt>, now: int)
    requires RowOk(state, key, row, now) && Timely(state, steps, now) && NoOverlap(state, steps, key)
    ensures Spaced(Row(state, steps, key, row))
    decreases |steps|
  {
    if steps != [] {
      StepKeepsRow(state, steps[0], key, row, now);
      hide Next, NextRow, RowOk;
      StepsKeepRow(Next(state, steps[0]), steps[1..], key, NextRow(state, steps[0], key, row), TimeOf(steps[0]));
    }
  }

  /** However attempts of different addresses interleave, and however many addresses there are: the n-th failure in a
      row of an address whose own attempts do not overlap comes no earlier than n - 5 windows after the fifth. */
  lemma FailuresAreSpaced(steps: seq<Step>, key: Key, n: nat)
    requires Timely(START, steps, 0) && NoOverlap(START, steps, key)
    requires LOGIN_MAX_FAILURES <= n <= |Row(START, steps, key, [])|
    ensures Row(START, steps, key, [])[n - 1].recordedAt >=
      Row(START, steps, key, [])[LOGIN_MAX_FAILURES - 1].recordedAt + (n - LOGIN_MAX_FAILURES) * LOGIN_WINDOW_MS
  {
    assert RowOk(START, key, [], 0);
    StepsKeepRow(START, steps, key, [], 0);
    if n > LOGIN_MAX_FAILURES {
      SpacedFromFifth(Row(START, steps, key, []), n);
    }
  }
}
