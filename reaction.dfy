/** The watchdog's shared record, `config_t`, and the operations that update
    it in place: `action`, `urlCheck` and the signal-driven forced action.
    The TCP probe and the spawned command are inputs: the probe as whether the
    target answered, the command as the outcome it ended with. */
module Reaction {
  import opened Wrappers
  import opened Fields
  import Settings
  import Rotation

  /** How the spawned command ended: `cmd.Run` returned no error, or one. */
  datatype Outcome = Succeeded | Failed

  /** What one call of `action` did: the position it selected, and either the
      argument vector it ran with the command's outcome, or the crash of
      `args[0]` on a command line that holds no token. */
  datatype Report =
    | Ran(index: int, argv: Argv, outcome: Outcome)
    | Crashed(index: int)

  /** The configuration record shared by the ticker and the signal handler. */
  class Watchdog {
    const interval: int
    const ip: string
    const port: int
    const actions: seq<string>
    /** `Task.CurrentIndex`: the last action selected. */
    var currentIndex: int
    /** `Running`: an action is in flight. */
    var running: bool
    /** Number of actions started since the watchdog was created. */
    ghost var started: nat

    /** The cursor is in range and is the number of actions started, wrapped
        round the list. */
    ghost predicate Valid()
      reads this
    {
      |actions| >= 1 && 0 <= currentIndex < |actions| && currentIndex == started % |actions|
    }

    /** The runtime part of the record as a value. */
    function State(): Rotation.State
      reads this
    {
      Rotation.State(currentIndex, running)
    }

    /** The record `main` runs with, from a configuration that has at least
        one action; runtime fields start at Go's zero values. */
    constructor (c: Settings.Config)
      requires |c.task.actions| >= 1
      ensures Valid() && started == 0
      ensures State() == Rotation.Initial
      ensures interval == c.interval && ip == c.task.ip && port == c.task.port
      ensures actions == c.task.actions
    {
      interval := c.interval;
      ip := c.task.ip;
      port := c.task.port;
      actions := c.task.actions;
      currentIndex := 0;
      running := false;
      started := 0;
    }

    /** The first half of `action`: mark busy, advance the cursor, and split
        the selected command line. The command then runs until
        `FinishAction`, and other triggers may arrive in between. */
    method BeginAction() returns (cmd: Option<Argv>)
      requires Valid()
      modifies this
      ensures Valid() && started == old(started) + 1
      ensures State() == Rotation.Begin(old(State()), |actions|)
      ensures currentIndex == (old(currentIndex) + 1) % |actions|
      ensures cmd == SplitCommand(actions[currentIndex])
    {
      running := true;
      currentIndex := currentIndex + 1;
      if currentIndex >= |actions| {
        currentIndex := 0;
      }
      assert currentIndex == Rotation.Next(old(currentIndex), |actions|);
      Rotation.ModSucc(started, |actions|);
      started := started + 1;
      cmd := SplitCommand(actions[currentIndex]);
    }

    /** The last step of `action`: clear the busy flag. */
    method FinishAction()
      requires Valid()
      modifies this
      ensures Valid() && started == old(started)
      ensures State() == Rotation.Finish(old(State()))
    {
      running := false;
    }

    /** `action`: select the next command round-robin, run it, and clear the
        busy flag whatever its outcome. The `k`-th action since creation
        selects entry `k % |actions|`. A selected line with no token crashes
        at `args[0]` with the busy flag still set. */
    method Action(outcome: Outcome) returns (r: Report)
      requires Valid()
      modifies this
      ensures Valid() && started == old(started) + 1
      ensures r.index == currentIndex == started % |actions|
      ensures r.Ran? <==> SplitCommand(actions[r.index]).Some?
      ensures r.Ran? ==> State() == Rotation.Act(old(State()), |actions|)
      ensures r.Ran? ==> Some(r.argv) == SplitCommand(actions[r.index]) && r.outcome == outcome
      ensures r.Crashed? ==> State() == Rotation.Begin(old(State()), |actions|)
    {
      var cmd := BeginAction();
      match cmd
      case None =>
        r := Crashed(currentIndex);
      case Some(argv) =>
        r := Ran(currentIndex, argv, outcome);
        FinishAction();
    }

    /** `urlCheck`, given whether the target answered: nothing while an action
        is in flight or when the target answers; otherwise `action`. */
    method UrlCheck(reachable: bool, outcome: Outcome) returns (r: Option<Report>)
      requires Valid()
      modifies this
      ensures Valid()
      ensures r.None? <==> old(running) || reachable
      ensures r.None? ==> State() == old(State()) && started == old(started)
      ensures r.Some? ==> started == old(started) + 1 && r.value.index == currentIndex == started % |actions|
      ensures r.Some? ==> (r.value.Ran? <==> SplitCommand(actions[currentIndex]).Some?)
      ensures r.Some? && r.value.Ran? ==> Some(r.value.argv) == SplitCommand(actions[currentIndex]) && r.value.outcome == outcome
      ensures r.Some? && r.value.Ran? ==> State() == Rotation.Check(old(State()), |actions|, reachable)
      ensures r.Some? && r.value.Crashed? ==> State() == Rotation.Begin(old(State()), |actions|)
    {
      if running {
        return None;
      }
      if reachable {
        r := None;
      } else {
        var report := Action(outcome);
        r := Some(report);
      }
    }

    /** The signal handler's forced action: `action` called directly, with no
        busy guard, so it runs even while another action is in flight. */
    method ForceAction(outcome: Outcome) returns (r: Report)
      requires Valid()
      modifies this
      ensures Valid() && started == old(started) + 1
      ensures r.index == currentIndex == started % |actions|
      ensures r.Ran? <==> SplitCommand(actions[r.index]).Some?
      ensures r.Ran? ==> State() == Rotation.Act(old(State()), |actions|)
      ensures r.Ran? ==> Some(r.argv) == SplitCommand(actions[r.index]) && r.outcome == outcome
      ensures r.Crashed? ==> State() == Rotation.Begin(old(State()), |actions|)
    {
      r := Action(outcome);
    }
  }

  /** `main` from the decoded record to a running watchdog: the loader's
      error, or a watchdog whose interval has been defaulted. */
  method Start(c: Settings.Config) returns (r: Result<Watchdog, Settings.ConfigError>)
    ensures r.Err? <==> Settings.Validate(c).Err?
    ensures r.Err? ==> r.error == Settings.Validate(c).error
    ensures r.Ok? ==> fresh(r.value) && r.value.Valid() && r.value.State() == Rotation.Initial
    ensures r.Ok? ==> r.value.interval == Settings.DefaultInterval(c.interval) >= 1
    ensures r.Ok? ==> r.value.actions == c.task.actions && |r.value.actions| >= 1
    ensures r.Ok? ==> r.value.ip == c.task.ip && r.value.port == c.task.port
  {
    var prepared := Settings.Prepare(c);
    match prepared
    case Err(e) =>
      r := Err(e);
    case Ok(p) =>
      var w := new Watchdog(p);
      r := Ok(w);
  }

  /** The watchdog as the stricter loader admits it never crashes: every
      action it selects has a program to run. */
  method ActionNeverCrashes(w: Watchdog, c: Settings.Config, outcome: Outcome) returns (r: Report)
    requires w.Valid() && w.actions == c.task.actions
    requires Settings.ValidateCommands(c).Ok?
    modifies w
    ensures r.Ran? && r.outcome == outcome
    ensures w.Valid() && w.State() == Rotation.Act(old(w.State()), |w.actions|)
  {
    r := w.Action(outcome);
  }
}
