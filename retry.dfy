/**
 The bounded retry loop `tryGetChatsWithRetries` (index.js). Its state is two
 module-level variables, the attempt counter and the success flag, which are
 never reset. Each attempt runs `listGroups`; the library's answer to the n-th
 `getChats()` call ever made is `fetches[n - 1]`. Sleeps and the terminal
 report are recorded as events instead of happening.
 */
module GetChatsRetry {
  import opened GroupListing

  const MaxRetries: nat := 5
  const RetryDelayMs: nat := 5000

  datatype Event = Attempt(n: nat) | Sleep(ms: nat) | GaveUp

  datatype RetryState = RetryState(attempts: nat, gotChats: bool)

  datatype Run = Run(log: seq<Event>, final: RetryState)

  /** An attempt succeeds when `listGroups` does not throw. */
  predicate Succeeds(f: Fetched)
    ensures Succeeds(f) <==> f.Returned?
  {
    ListGroups(f).Ok?
  }

  /** The loop's guard: attempts remain and none has succeeded. */
  predicate Continues(s: RetryState)
  {
    s.attempts < MaxRetries && !s.gotChats
  }

  /** What one call of `tryGetChatsWithRetries` does from state `s`. */
  function RunFrom(s: RetryState, fetches: seq<Fetched>): (r: Run)
    requires |fetches| >= MaxRetries
    ensures s.attempts <= r.final.attempts
    ensures !Continues(r.final)
    ensures !Continues(s) ==> r == Run([], s)
    ensures Continues(s) ==> r.final.attempts <= MaxRetries && r.log != [] && r.log[0] == Attempt(s.attempts + 1)
    decreases MaxRetries - s.attempts
  {
    if !Continues(s) then Run([], s)
    else
      var n := s.attempts + 1;
      if Succeeds(fetches[n - 1]) then Run([Attempt(n)], RetryState(n, true))
      else
        var after := if n < MaxRetries then Sleep(RetryDelayMs) else GaveUp;
        var rest := RunFrom(RetryState(n, false), fetches);
        Run([Attempt(n), after] + rest.log, rest.final)
  }

  /** Number of `getChats` calls in a log. */
  function Calls(log: seq<Event>): nat
  {
    if log == [] then 0 else (if log[0].Attempt? then 1 else 0) + Calls(log[1..])
  }

  /** Number of sleeps in a log. */
  function Sleeps(log: seq<Event>): nat
  {
    if log == [] then 0 else (if log[0].Sleep? then 1 else 0) + Sleeps(log[1..])
  }

  /** Attempts `from + 1` .. `to`, each failing and followed by a sleep. */
  function FailedAttempts(from: nat, to: nat): seq<Event>
    decreases (to as int) - from
  {
    if from >= to then [] else [Attempt(from + 1), Sleep(RetryDelayMs)] + FailedAttempts(from + 1, to)
  }

  lemma {:induction false} CountsAppend(a: seq<Event>, b: seq<Event>)
    ensures Calls(a + b) == Calls(a) + Calls(b)
    ensures Sleeps(a + b) == Sleeps(a) + Sleeps(b)
  {
    if a == [] {
      assert a + b == b;
    } else {
      assert (a + b)[1..] == a[1..] + b;
      CountsAppend(a[1..], b);
    }
  }

  lemma {:induction false} FailedAttemptsCounts(from: nat, to: nat)
    requires from <= to
    ensures Calls(FailedAttempts(from, to)) == to - from
    ensures Sleeps(FailedAttempts(from, to)) == to - from
    decreases (to as int) - from
  {
    if from < to {
      var head: seq<Event> := [Attempt(from + 1), Sleep(RetryDelayMs)];
      FailedAttemptsCounts(from + 1, to);
      CountsAppend(head, FailedAttempts(from + 1, to));
      assert Calls(head) == 1 by { assert head[1..] == [Sleep(RetryDelayMs)]; }
      assert Sleeps(head) == 1 by { assert head[1..] == [Sleep(RetryDelayMs)]; }
    }
  }

  /** The counter never passes MaxRetries, every call is counted, and the loop
      ends only on success or exhaustion. */
  lemma {:induction false} RunBounded(s: RetryState, fetches: seq<Fetched>)
    requires |fetches| >= MaxRetries
    requires s.attempts <= MaxRetries
    ensures s.attempts <= RunFrom(s, fetches).final.attempts <= MaxRetries
    ensures Calls(RunFrom(s, fetches).log) == RunFrom(s, fetches).final.attempts - s.attempts
    ensures !Continues(RunFrom(s, fetches).final)
    decreases MaxRetries - s.attempts
  {
    if Continues(s) {
      var n := s.attempts + 1;
      if Succeeds(fetches[n - 1]) {
        assert Calls([Attempt(n)]) == 1 by { assert [Attempt(n)][1..] == []; }
      } else {
        var after := if n < MaxRetries then Sleep(RetryDelayMs) else GaveUp;
        var head := [Attempt(n), after];
        RunBounded(RetryState(n, false), fetches);
        CountsAppend(head, RunFrom(RetryState(n, false), fetches).log);
        assert Calls(head) == 1 by { assert head[1..] == [after]; assert [after][1..] == []; }
      }
    }
  }

  /** Once the loop has stopped, calling it again does nothing: the counters are
      module-level and never reset. */
  lemma NoRestart(s: RetryState, fetches: seq<Fetched>)
    requires |fetches| >= MaxRetries
    requires s.attempts <= MaxRetries
    ensures RunFrom(RunFrom(s, fetches).final, fetches) == Run([], RunFrom(s, fetches).final)
  {
    RunBounded(s, fetches);
  }

  /** If attempts `a + 1` .. `k - 1` fail and attempt `k` succeeds, the run makes
      exactly those calls, sleeps only between failures, and stops with success. */
  lemma {:induction false} SucceedsAt(a: nat, k: nat, fetches: seq<Fetched>)
    requires |fetches| >= MaxRetries
    requires a < k <= MaxRetries
    requires forall i :: a <= i < k - 1 ==> !Succeeds(fetches[i])
    requires Succeeds(fetches[k - 1])
    ensures RunFrom(RetryState(a, false), fetches)
              == Run(FailedAttempts(a, k - 1) + [Attempt(k)], RetryState(k, true))
    decreases k - a
  {
    if a + 1 < k {
      SucceedsAt(a + 1, k, fetches);
      assert [Attempt(a + 1), Sleep(RetryDelayMs)] + (FailedAttempts(a + 1, k - 1) + [Attempt(k)])
          == FailedAttempts(a, k - 1) + [Attempt(k)];
    }
  }

  /** From the initial state: first success on attempt k means k calls and k - 1 sleeps. */
  lemma FirstSuccessCounts(k: nat, fetches: seq<Fetched>)
    requires |fetches| >= MaxRetries
    requires 1 <= k <= MaxRetries
    requires forall i :: 0 <= i < k - 1 ==> !Succeeds(fetches[i])
    requires Succeeds(fetches[k - 1])
    ensures RunFrom(RetryState(0, false), fetches).final == RetryState(k, true)
    ensures Calls(RunFrom(RetryState(0, false), fetches).log) == k
    ensures Sleeps(RunFrom(RetryState(0, false), fetches).log) == k - 1
    ensures RunFrom(RetryState(0, false), fetches).log[|RunFrom(RetryState(0, false), fetches).log| - 1] == Attempt(k)
  {
    SucceedsAt(0, k, fetches);
    FailedAttemptsCounts(0, k - 1);
    CountsAppend(FailedAttempts(0, k - 1), [Attempt(k)]);
    assert [Attempt(k)][1..] == [];
  }

  /** If attempts `a + 1` .. MaxRetries all fail, each but the last is followed by
      a sleep and the last by the terminal report. */
  lemma {:induction false} AllFailFrom(a: nat, fetches: seq<Fetched>)
    requires |fetches| >= MaxRetries
    requires a < MaxRetries
    requires forall i :: a <= i < MaxRetries ==> !Succeeds(fetches[i])
    ensures RunFrom(RetryState(a, false), fetches)
              == Run(FailedAttempts(a, MaxRetries - 1) + [Attempt(MaxRetries), GaveUp],
                     RetryState(MaxRetries, false))
    decreases MaxRetries - a
  {
    if a + 1 < MaxRetries {
      AllFailFrom(a + 1, fetches);
      assert [Attempt(a + 1), Sleep(RetryDelayMs)]
               + (FailedAttempts(a + 1, MaxRetries - 1) + [Attempt(MaxRetries), GaveUp])
          == FailedAttempts(a, MaxRetries - 1) + [Attempt(MaxRetries), GaveUp];
    } else {
      assert RunFrom(RetryState(a + 1, false), fetches) == Run([], RetryState(a + 1, false));
    }
  }

  /** From the initial state, an always-failing fetch gives exactly five calls,
      four sleeps of RetryDelayMs, and the terminal report last (no sleep after it). */
  lemma AllFailCounts(fetches: seq<Fetched>)
    requires |fetches| >= MaxRetries
    requires forall i :: 0 <= i < MaxRetries ==> !Succeeds(fetches[i])
    ensures RunFrom(RetryState(0, false), fetches).final == RetryState(MaxRetries, false)
    ensures Calls(RunFrom(RetryState(0, false), fetches).log) == MaxRetries
    ensures Sleeps(RunFrom(RetryState(0, false), fetches).log) == MaxRetries - 1
    ensures RunFrom(RetryState(0, false), fetches).log[|RunFrom(RetryState(0, false), fetches).log| - 1] == GaveUp
  {
    AllFailFrom(0, fetches);
    var tail := [Attempt(MaxRetries), GaveUp];
    FailedAttemptsCounts(0, MaxRetries - 1);
    CountsAppend(FailedAttempts(0, MaxRetries - 1), tail);
    assert Calls([GaveUp]) == 0 && Sleeps([GaveUp]) == 0 by { assert [GaveUp][1..] == []; }
    assert Calls(tail) == 1 && Sleeps(tail) == 0 by { assert tail[1..] == [GaveUp]; }
  }

  /** The two module-level variables and the loop that updates them. */
  class GetChatsRunner {
    var getChatsAttempts: nat
    var gotChats: bool

    ghost function State(): RetryState
      reads this
    {
      RetryState(getChatsAttempts, gotChats)
    }

    constructor ()
      ensures State() == RetryState(0, false)
    {
      getChatsAttempts := 0;
      gotChats := false;
    }

    method TryGetChatsWithRetries(fetches: seq<Fetched>) returns (log: seq<Event>)
      requires |fetches| >= MaxRetries
      modifies this
      ensures Run(log, State()) == RunFrom(old(State()), fetches)
    {
      log := [];
      ghost var start := State();
      while getChatsAttempts < MaxRetries && !gotChats
        invariant RunFrom(start, fetches) == Run(log + RunFrom(State(), fetches).log, RunFrom(State(), fetches).final)
        decreases MaxRetries - getChatsAttempts
      {
        getChatsAttempts := getChatsAttempts + 1;
        if Succeeds(fetches[getChatsAttempts - 1]) {
          gotChats := true;
          log := log + [Attempt(getChatsAttempts)];
        } else if getChatsAttempts < MaxRetries {
          log := log + [Attempt(getChatsAttempts), Sleep(RetryDelayMs)];
        } else {
          log := log + [Attempt(getChatsAttempts), GaveUp];
        }
      }
    }
  }
}
