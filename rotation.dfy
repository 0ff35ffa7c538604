/** The runtime state of the watchdog, `CurrentIndex` and `Running`, as a
    value, and the transitions `action` and `urlCheck` make on it. `n` is the
    number of configured actions throughout. */
module Rotation {

  /** `Task.CurrentIndex` and `Running` of the configuration record. */
  datatype State = State(index: int, running: bool)

  /** The state the watchdog starts in: Go's zero values. */
  const Initial := State(0, false)

  /** The cursor step of `action`: increment, and go back to 0 on reaching the
      number of actions. From a position in range it is the round-robin
      successor and stays in range. */
  function Next(i: int, n: int): (j: int)
    ensures 0 <= i < n ==> 0 <= j < n && j == (i + 1) % n
  {
    if i + 1 >= n then 0 else i + 1
  }

  /** The cursor after `k` calls to `action` from the start. */
  function IndexAfter(k: nat, n: int): int {
    if k == 0 then 0 else Next(IndexAfter(k - 1, n), n)
  }

  /** The `k`-th call to `action` selects entry `k % n`. */
  lemma {:induction false} IndexAfterIsMod(k: nat, n: int)
    requires n >= 1
    ensures IndexAfter(k, n) == k % n
  {
    if k > 0 {
      IndexAfterIsMod(k - 1, n);
      ModSucc(k - 1, n);
    }
  }

  /** The first call selects the SECOND entry when there are several, and the
      first entry comes only after a full round. */
  lemma FirstSelection(n: int)
    requires n >= 2
    ensures IndexAfter(1, n) == 1 && IndexAfter(n, n) == 0
    ensures forall k :: 1 <= k < n ==> IndexAfter(k, n) != 0
  {
    IndexAfterIsMod(n, n);
    forall k | 1 <= k < n ensures IndexAfter(k, n) != 0 {
      IndexAfterIsMod(k, n);
      ModUnique(k, n, 0, k);
    }
  }

  /** `action` up to the command run: set the busy flag, advance the cursor. */
  function Begin(s: State, n: int): (r: State)
    ensures r.running
    ensures 0 <= s.index < n ==> 0 <= r.index < n && r.index == (s.index + 1) % n
  {
    State(Next(s.index, n), true)
  }

  /** The end of `action`: clear the busy flag, keep the cursor. */
  function Finish(s: State): (r: State)
    ensures !r.running && r.index == s.index
  {
    s.(running := false)
  }

  /** A whole run of `action`. The command's outcome does not enter it: the
      cursor advances by exactly one place on success and on error alike, is
      never rolled back, and the busy flag ends clear. */
  function Act(s: State, n: int): (r: State)
    ensures !r.running
    ensures 0 <= s.index < n ==> 0 <= r.index < n && r.index == (s.index + 1) % n
  {
    Finish(Begin(s, n))
  }

  /** `urlCheck` with the probe result `reachable`: a no-op while an action is
      in flight, a no-op when the target answers, and `action` otherwise. */
  function Check(s: State, n: int, reachable: bool): (r: State)
    ensures r.running == s.running
    ensures 0 <= s.index < n ==> 0 <= r.index < n && (r.index == s.index || r.index == (s.index + 1) % n)
  {
    if s.running || reachable then s else Act(s, n)
  }

  /** A check that finds the watchdog busy changes nothing. */
  lemma CheckWhileBusy(s: State, n: int, reachable: bool)
    requires s.running
    ensures Check(s, n, reachable) == s
  {
  }

  /** A check that reaches the target changes nothing. */
  lemma CheckReachable(s: State, n: int)
    ensures Check(s, n, true) == s
  {
  }

  /** An idle check whose probe fails advances the cursor exactly once, as
      `action` does, and ends idle. */
  lemma CheckFailure(s: State, n: int)
    requires !s.running && 0 <= s.index < n
    ensures Check(s, n, false) == State((s.index + 1) % n, false)
  {
  }

  /** Number of failed probes in a run of checks. */
  function Failures(probes: seq<bool>): nat {
    if probes == [] then 0 else (if probes[0] then 0 else 1) + Failures(probes[1..])
  }

  /** A sequence of checks, one per probe result, as the ticker makes them. */
  function Checks(s: State, n: int, probes: seq<bool>): State
    decreases |probes|
  {
    if probes == [] then s else Checks(Check(s, n, probes[0]), n, probes[1..])
  }

  /** Sequential checks from an idle state advance the cursor once per failed
      probe, wrapping round the actions, and end idle. */
  lemma {:induction false} ChecksAdvancePerFailure(s: State, n: int, probes: seq<bool>)
    requires !s.running && 0 <= s.index < n
    ensures Checks(s, n, probes) == State((s.index + Failures(probes)) % n, false)
    decreases |probes|
  {
    if probes == [] {
      ModUnique(s.index, n, 0, s.index);
    } else {
      var d: nat := if probes[0] then 0 else 1;
      var rest := Failures(probes[1..]);
      assert Failures(probes) == d + rest;
      var t := Check(s, n, probes[0]);
      if probes[0] {
        ModUnique(s.index, n, 0, s.index);
      } else {
        CheckFailure(s, n);
      }
      assert t == State((s.index + d) % n, false);
      ChecksAdvancePerFailure(t, n, probes[1..]);
      ModPlus(s.index + d, rest, n);
    }
  }

  /** A trigger dropped while an action is in flight does not advance the
      cursor an extra time: begin, failed check, finish is one action. */
  lemma BusyCheckIsDropped(s: State, n: int)
    requires 0 <= s.index < n
    ensures Finish(Check(Begin(s, n), n, false)) == Act(s, n)
  {
  }

  /** The signal path calls `action` without the busy guard: a forced action
      started while another is in flight advances the cursor a second time and,
      on finishing, clears the busy flag although the first action is still
      running, so that the next failed check starts a third one beside it. */
  lemma ForceBypassesGuard(s: State, n: int)
    requires 0 <= s.index < n && n >= 2
    ensures var inFlight := Begin(s, n);
      var forced := Act(inFlight, n);
      && inFlight.running
      && forced.index == (s.index + 2) % n
      && forced.index != inFlight.index
      && !forced.running
      && Check(forced, n, false).index == (s.index + 3) % n
  {
  }

  // Remainder arithmetic used by the rotation lemmas.

  /** A positive multiple of `n` is at least `n`. */
  lemma MulAtLeast(k: int, n: int)
    requires k >= 1 && n >= 1
    ensures k * n >= n
  {
  }

  /** The remainder is the `r` of any division `a == q * n + r` with `0 <= r < n`. */
  lemma ModUnique(a: int, n: int, q: int, r: int)
    requires n >= 1 && 0 <= r < n && a == q * n + r
    ensures a % n == r
  {
    var q0, r0 := a / n, a % n;
    assert a == q0 * n + r0;
    if q0 > q {
      MulAtLeast(q0 - q, n);
    } else if q > q0 {
      MulAtLeast(q - q0, n);
    }
  }

  /** Taking the remainder before or after adding one gives the same place. */
  lemma ModSucc(a: nat, n: int)
    requires n >= 1
    ensures (a % n + 1) % n == (a + 1) % n
  {
    var q, r := a / n, a % n;
    assert a == q * n + r;
    if r + 1 < n {
      ModUnique(a + 1, n, q, r + 1);
      ModUnique(r + 1, n, 0, r + 1);
    } else {
      assert a + 1 == (q + 1) * n + 0;
      ModUnique(a + 1, n, q + 1, 0);
      ModUnique(r + 1, n, 1, 0);
    }
  }

  /** Taking the remainder before or after adding `b` gives the same place. */
  lemma ModPlus(a: nat, b: nat, n: int)
    requires n >= 1
    ensures (a % n + b) % n == (a + b) % n
  {
    var q, r := a / n, a % n;
    assert a == q * n + r;
    var q1, r1 := (r + b) / n, (r + b) % n;
    assert r + b == q1 * n + r1;
    assert a + b == (q + q1) * n + r1;
    ModUnique(a + b, n, q + q1, r1);
  }
}
