/** The brake on failed logins (apps/api/src/auth/auth.service.ts), for attempts that come one after the other. */
module LoginLimiter {
  import opened Common

  const LOGIN_WINDOW_MS := 15 * 60 * 1000
  const LOGIN_MAX_FAILURES := 5
  const PRUNE_SIZE := 10000

  type Key = string

  /** `blockedUntil` 0 means not blocked. */
  datatype Counter = Counter(failures: nat, blockedUntil: int)

  type Counters = map<Key, Counter>

  datatype LoginResult = TooMany | Failed | Succeeded

  /** One call of `login`: the address, the three readings of the clock it may take, and whether the
      user name and password are right. */
  datatype Attempt = Attempt(key: Key, prunedAt: int, checkedAt: int, recordedAt: int, valid: bool)

  predicate Running(counter: Counter, now: int) {
    counter.blockedUntil != 0 && counter.blockedUntil > now
  }

  function Pruned(counters: Counters, now: int): Counters {
    if |counters| < PRUNE_SIZE then counters
    else map key | key in counters && Running(counters[key], now) :: counters[key]
  }

  function Blocks(counters: Counters, attempt: Attempt): bool {
    attempt.key in counters && Running(counters[attempt.key], attempt.checkedAt)
  }

  function Bumped(counters: Counters, attempt: Attempt): Counter {
    var failures := (if attempt.key in counters then counters[attempt.key].failures else 0) + 1;
    Counter(failures, if failures >= LOGIN_MAX_FAILURES then attempt.recordedAt + LOGIN_WINDOW_MS else 0)
  }

  function OutcomeOf(counters: Counters, attempt: Attempt): LoginResult {
    if Blocks(Pruned(counters, attempt.prunedAt), attempt) then TooMany
    else if attempt.valid then Succeeded
    else Failed
  }

  function After(counters: Counters, attempt: Attempt): Counters {
    var pruned := Pruned(counters, attempt.prunedAt);
    match OutcomeOf(counters, attempt)
    case TooMany => pruned
    case Failed => pruned[attempt.key := Bumped(pruned, attempt)]
    case Succeeded => pruned - {attempt.key}
  }

  /** What an attempt knows while the password is checked: its address, the counter it found there, and when. */
  datatype Reading = Reading(key: Key, seen: Option<Counter>, checkedAt: int)

  function Lookup(counters: Counters, key: Key): Option<Counter> {
    if key in counters then Some(counters[key]) else None
  }

  function FailuresIn(seen: Option<Counter>): nat {
    if seen.Some? then seen.value.failures else 0
  }

  function ReadCounter(counters: Counters, key: Key, checkedAt: int): Option<Reading> {
    if key in counters && Running(counters[key], checkedAt) then None
    else Some(Reading(key, Lookup(counters, key), checkedAt))
  }

  /** What an attempt writes after the password check goes by what it read before. */
  function Recorded(counters: Counters, reading: Reading, valid: bool, recordedAt: int): Counters {
    if valid then counters - {reading.key}
    else
      var failures := FailuresIn(reading.seen) + 1;
      counters[reading.key :=
        Counter(failures, if failures >= LOGIN_MAX_FAILURES then recordedAt + LOGIN_WINDOW_MS else 0)]
  }

  class AuthService {
    var loginCounters: Counters

    constructor ()
      ensures loginCounters == map[]
    {
      loginCounters := map[];
    }

    /** Drops unblocked counters and ended blocks once the map has grown large, and never a running block. */
    method PruneLoginCounters(now: int)
      modifies this
      ensures loginCounters == Pruned(old(loginCounters), now)
      ensures forall key | key in old(loginCounters) && Running(old(loginCounters)[key], now) ::
        key in loginCounters && loginCounters[key] == old(loginCounters)[key]
    {
      if |loginCounters| < PRUNE_SIZE {
        return;
      }
      var keys := loginCounters.Keys;
      while keys != {}
        invariant keys <= old(loginCounters).Keys
        invariant loginCounters ==
          map key | key in old(loginCounters) && (key in keys || Running(old(loginCounters)[key], now)) ::
            old(loginCounters)[key]
        decreases keys
      {
        var key :| key in keys;
        var value := loginCounters[key];
        if value.blockedUntil == 0 || value.blockedUntil <= now {
          loginCounters := loginCounters - {key};
        }
        keys := keys - {key};
      }
    }

    /** The first half of a login, before the password check: nothing is read from a blocked address. */
    method BeginLogin(key: Key, prunedAt: int, checkedAt: int) returns (reading: Option<Reading>)
      modifies this
      ensures loginCounters == Pruned(old(loginCounters), prunedAt)
      ensures reading == ReadCounter(loginCounters, key, checkedAt)
    {
      PruneLoginCounters(prunedAt);
      if key in loginCounters {
        var counter := loginCounters[key];
        if counter.blockedUntil != 0 && counter.blockedUntil > checkedAt {
          return None;
        }
        return Some(Reading(key, Some(counter), checkedAt));
      }
      reading := Some(Reading(key, None, checkedAt));
    }

    /** The second half, after the password check. */
    method FinishLogin(reading: Reading, valid: bool, recordedAt: int) returns (result: LoginResult)
      modifies this
      ensures result == if valid then Succeeded else Failed
      ensures loginCounters == Recorded(old(loginCounters), reading, valid, recordedAt)
    {
      if !valid {
        var failures := (if reading.seen.Some? then reading.seen.value.failures else 0) + 1;
        loginCounters := loginCounters[reading.key :=
          Counter(failures, if failures >= LOGIN_MAX_FAILURES then recordedAt + LOGIN_WINDOW_MS else 0)];
        return Failed;
      }
      loginCounters := loginCounters - {reading.key};
      result := Succeeded;
    }

    method Login(attempt: Attempt) returns (result: LoginResult)
      modifies this
      ensures result == OutcomeOf(old(loginCounters), attempt)
      ensures loginCounters == After(old(loginCounters), attempt)
    {
      var reading := BeginLogin(attempt.key, attempt.prunedAt, attempt.checkedAt);
      if reading.None? {
        return TooMany;
      }
      result := FinishLogin(reading.value, attempt.valid, attempt.recordedAt);
    }
  }

  // ---------------------------------------------------------------------------------------------
  // What an attempt does, in numbers
  // ---------------------------------------------------------------------------------------------

  /** The counter of an address is there and outlives the pruning: below 10 000 counters nothing is pruned. */
  predicate Kept(counters: Counters, now: int, key: Key) {
    && key in counters
    && (|counters| < 10_000 || (counters[key].blockedUntil != 0 && now < counters[key].blockedUntil))
  }

  /** An attempt is refused while the address is blocked; a failure is counted, and from the fifth on blocks the address
      for 15 minutes of 60 000 milliseconds; a success forgets the failures of its address and of no other. */
  lemma AttemptMeans(counters: Counters, attempt: Attempt)
    ensures OutcomeOf(counters, attempt) == TooMany <==>
      && Kept(counters, attempt.prunedAt, attempt.key)
      && counters[attempt.key].blockedUntil != 0 && attempt.checkedAt < counters[attempt.key].blockedUntil
    ensures OutcomeOf(counters, attempt) != TooMany ==>
      OutcomeOf(counters, attempt) == if attempt.valid then Succeeded else Failed
    ensures forall key | key != attempt.key || OutcomeOf(counters, attempt) == TooMany ::
      && (key in After(counters, attempt) <==> Kept(counters, attempt.prunedAt, key))
      && (key in After(counters, attempt) ==> After(counters, attempt)[key] == counters[key])
    ensures OutcomeOf(counters, attempt) == Succeeded ==> attempt.key !in After(counters, attempt)
    ensures OutcomeOf(counters, attempt) == Failed ==>
      var failures := if Kept(counters, attempt.prunedAt, attempt.key) then counters[attempt.key].failures + 1 else 1;
      && attempt.key in After(counters, attempt)
      && After(counters, attempt)[attempt.key] ==
         Counter(failures, if failures >= 5 then attempt.recordedAt + 900_000 else 0)
  {
  }

  /** The same for the second half of an attempt, by the counter it has read. */
  lemma RecordedMeans(counters: Counters, reading: Reading, valid: bool, recordedAt: int)
    ensures var after := Recorded(counters, reading, valid, recordedAt);
      && (forall key | key != reading.key ::
            && (key in after <==> key in counters)
            && (key in after ==> after[key] == counters[key]))
      && (reading.key in after <==> !valid)
      && (!valid ==>
            var failures := if reading.seen == None then 1 else reading.seen.value.failures + 1;
            after[reading.key] == Counter(failures, if failures >= 5 then recordedAt + 900_000 else 0))
  {
  }

  // ---------------------------------------------------------------------------------------------
  // Runs
  // ---------------------------------------------------------------------------------------------

  /** The counters after a sequence of attempts from the start of the service. */
  function Run(trace: seq<Attempt>): Counters {
    if trace == [] then map[] else After(Run(trace[..|trace| - 1]), trace[|trace| - 1])
  }

  /** The failures in a row of one address, brought up to date with one more attempt. */
  function NextStreak(counters: Counters, attempt: Attempt, key: Key, streak: seq<Attempt>): seq<Attempt> {
    if attempt.key != key then streak
    else match OutcomeOf(counters, attempt)
      case TooMany => streak
      case Failed => streak + [attempt]
      case Succeeded => []
  }

  /** The failures of one address since its last success. */
  function Streak(trace: seq<Attempt>, key: Key): seq<Attempt> {
    if trace == [] then []
    else
      var before := trace[..|trace| - 1];
      NextStreak(Run(before), trace[|trace| - 1], key, Streak(before, key))
  }

  /** The clock does not run backwards during an attempt. */
  predicate Timed(trace: seq<Attempt>) {
    forall i | 0 <= i < |trace| :: 0 <= trace[i].prunedAt <= trace[i].checkedAt <= trace[i].recordedAt
  }

  predicate FewKeys(trace: seq<Attempt>) {
    trace == [] || (|Run(trace[..|trace| - 1])| < PRUNE_SIZE && FewKeys(trace[..|trace| - 1]))
  }

  /** Past the fifth failure, each one waits out the block set by the one before. */
  predicate Spaced(streak: seq<Attempt>) {
    && (forall i | 0 <= i < |streak| :: 0 <= streak[i].checkedAt <= streak[i].recordedAt)
    && (forall i | LOGIN_MAX_FAILURES <= i < |streak| ::
      streak[i - 1].recordedAt + LOGIN_WINDOW_MS <= streak[i].checkedAt)
  }

  /** What the counter of an address says about its streak. */
  predicate Counts(counters: Counters, key: Key, streak: seq<Attempt>) {
    && (key in counters <==> streak != [])
    && (key in counters ==>
          && counters[key].failures == |streak|
          && counters[key].blockedUntil ==
             (if |streak| >= LOGIN_MAX_FAILURES then streak[|streak| - 1].recordedAt + LOGIN_WINDOW_MS else 0))
  }

  lemma AttemptCounts(counters: Counters, attempt: Attempt, key: Key, streak: seq<Attempt>)
    requires |counters| < PRUNE_SIZE && Counts(counters, key, streak) && Spaced(streak)
    requires 0 <= attempt.checkedAt <= attempt.recordedAt
    ensures Counts(After(counters, attempt), key, NextStreak(counters, attempt, key, streak))
    ensures Spaced(NextStreak(counters, attempt, key, streak))
  {
  }

  lemma {:induction false} RunCountsStreaks(trace: seq<Attempt>, key: Key)
    requires Timed(trace) && FewKeys(trace)
    ensures Counts(Run(trace), key, Streak(trace, key)) && Spaced(Streak(trace, key))
  {
    if trace != [] {
      var before := trace[..|trace| - 1];
      RunCountsStreaks(before, key);
      AttemptCounts(Run(before), trace[|trace| - 1], key, Streak(before, key));
    }
  }

  lemma {:induction false} SpacedFromFifth(streak: seq<Attempt>, n: nat)
    requires Spaced(streak) && LOGIN_MAX_FAILURES < n <= |streak|
    ensures streak[n - 1].checkedAt >=
      streak[LOGIN_MAX_FAILURES - 1].recordedAt + (n - LOGIN_MAX_FAILURES) * LOGIN_WINDOW_MS
  {
    if n - 1 > LOGIN_MAX_FAILURES {
      SpacedFromFifth(streak, n - 1);
    }
  }

  /** The n-th failure in a row, n at least 5, cannot be made before n - 5 windows have passed since the fifth. */
  lemma FailuresAreSpaced(trace: seq<Attempt>, key: Key, n: nat)
    requires Timed(trace) && FewKeys(trace)
    requires LOGIN_MAX_FAILURES <= n <= |Streak(trace, key)|
    ensures Streak(trace, key)[n - 1].recordedAt >=
      Streak(trace, key)[LOGIN_MAX_FAILURES - 1].recordedAt + (n - LOGIN_MAX_FAILURES) * LOGIN_WINDOW_MS
  {
    RunCountsStreaks(trace, key);
    if n > LOGIN_MAX_FAILURES {
      SpacedFromFifth(Streak(trace, key), n);
    }
  }

  /** Whatever the number of addresses, a block keeps refusing until it ends: no pruning and no other
      address lifts it. */
  lemma {:induction false} BlockHolds(trace: seq<Attempt>, more: seq<Attempt>, key: Key, until: int)
    requires key in Run(trace) && Run(trace)[key].blockedUntil == until != 0
    requires forall i | 0 <= i < |more| :: more[i].prunedAt <= more[i].checkedAt < until
    ensures key in Run(trace + more) && Run(trace + more)[key] == Run(trace)[key]
    ensures forall i | 0 <= i < |more| && more[i].key == key :: OutcomeOf(Run(trace + more[..i]), more[i]) == TooMany
  {
    hide OutcomeOf, After;
    if more == [] {
      assert trace + more == trace;
    } else {
      var before, last := more[..|more| - 1], more[|more| - 1];
      BlockHolds(trace, before, key, until);
      assert (trace + more)[..|trace + more| - 1] == trace + before;
      BlockHoldsOnce(Run(trace + before), last, key);
      forall i | 0 <= i < |more| && more[i].key == key
        ensures OutcomeOf(Run(trace + more[..i]), more[i]) == TooMany
      {
        if i < |before| {
          assert more[..i] == before[..i] && more[i] == before[i];
        } else {
          assert more[..i] == before;
        }
      }
    }
  }

  lemma BlockHoldsOnce(counters: Counters, attempt: Attempt, key: Key)
    requires key in counters && counters[key].blockedUntil != 0
    requires attempt.prunedAt <= attempt.checkedAt < counters[key].blockedUntil
    ensures key in After(counters, attempt) && After(counters, attempt)[key] == counters[key]
    ensures attempt.key == key ==> OutcomeOf(counters, attempt) == TooMany
  {
  }
}
