# reaction — a verified model of the watchdog core

`reaction` watches one TCP endpoint (`ip:port`). When the endpoint does not
answer, it runs the next command of a configured list, round-robin. A user
signal forces the next command at once. This project models the core of
`reaction/reaction.go` in Dafny:

- **The shared record `config_t`.** Its runtime fields are `Task.CurrentIndex`
  (the round-robin cursor) and `Running` (the busy flag). It is modelled as the
  class `Reaction.Watchdog`, whose methods update those fields in place:
  - `Action` models `action`. It is also split into `BeginAction` and
    `FinishAction`, so that a trigger can arrive while a command is running.
  - `UrlCheck` models `urlCheck`.
  - `ForceAction` models the signal handler's direct call of `action`.
- **The pure specification of those fields.** Module `Rotation` describes the
  same transitions on the value `State(index, running)` and proves the
  round-robin properties:
  - the `k`-th action selects entry `k % n`;
  - every complete action advances the cursor by exactly one, whatever the
    command's outcome;
  - a check made while busy is dropped;
  - the forced path skips the busy guard.
- **The command line split.** Module `Fields` models `strings.Fields` with Go's
  `unicode.IsSpace`. It also models the split of the tokens into `args[0]` and
  `args[1:]`.
- **The configuration checks.** Module `Settings` models the checks
  `readConfig` makes on the decoded record, in order, and the interval default
  that `main` applies.

The TCP probe is an input: a boolean saying whether the target answered.
The spawned command is an input too: the outcome it ended with
(`Succeeded`/`Failed`). The record's integers are unbounded.

Three behaviours of the code are easy to miss:

- The cursor starts at Go's zero value and is incremented before use. So with
  several actions the first trigger runs entry 1, not entry 0, and entry 0 runs
  only after a full round (`Rotation.FirstSelection`).
- The signal path calls `action` with no busy guard. A forced action can
  therefore start while another is in flight, advance the cursor a second time,
  and clear the busy flag while the first command still runs
  (`Rotation.ForceBypassesGuard`). At most one action in flight is not
  guaranteed. Two checks can also both start an action without any signal, as
  the next section notes.
- The address check is on the UTF-8 byte length (`len(IP) < 4`), not on
  non-emptiness.

## Model

| member | source | states |
|---|---|---|
| `Fields.IsSpace` | reaction/reaction.go:84 | Go's `unicode.IsSpace`: below U+0100 exactly tab, line feed, vertical tab, form feed, carriage return, space, NEL and NO-BREAK SPACE; above it the other Unicode White_Space code points |
| `Fields.Fields` | reaction/reaction.go:84 | every field of the command line is non-empty and holds no whitespace |
| `Fields.FieldsKeepText` | reaction/reaction.go:84 | the fields, read back in order, are exactly the line's non-whitespace characters: nothing invented, lost or reordered |
| `Fields.FieldsEmptyIff` | reaction/reaction.go:84-85 | there is no field exactly when every character of the line is whitespace |
| `Fields.FieldsOfToken` | reaction/reaction.go:84 | a line that is one whitespace-free token gives exactly that one field |
| `Fields.FieldsSplitAtSpace` | reaction/reaction.go:84 | the line is split at every whitespace character: the fields of the text on each side of one, in order, are the fields of the whole; with `FieldsOfToken` and `FieldsEmptyIff` this fixes the fields as the maximal non-whitespace runs |
| `Fields.FieldsOfJoin` | reaction/reaction.go:84 | round trip: non-empty, whitespace-free tokens joined with blanks split back into the same tokens |
| `Fields.SplitCommand` | reaction/reaction.go:84-85 | the program is the first field and the arguments are the remaining ones; there is no program (so `args[0]` is out of range) exactly when the line is all whitespace |
| `Settings.Utf8Length` | reaction/reaction.go:63 | Go's `len` of the address counts UTF-8 bytes: between one and four per character |
| `Settings.AsciiIpCheck` | reaction/reaction.go:63-64 | an ASCII address is refused as invalid exactly when it has fewer than four characters |
| `Settings.Validate` | reaction/reaction.go:62-70 | the record is accepted unchanged exactly when no check fails; otherwise the error is the first failing check, in the order IP, port, actions; an accepted record has a non-empty address, a positive port and at least one action |
| `Settings.DefaultInterval` | reaction/reaction.go:131 | the interval used is at least one second; a valid interval is kept, and any value below one becomes exactly 10 |
| `Settings.Prepare` | reaction/reaction.go:124-131 | startup fails exactly when validation fails, with its error; otherwise the record is the decoded one with only its interval defaulted (kept if at least one, otherwise 10), so the interval is at least one and there is at least one action |
| `Settings.PrepareIdempotent` | reaction/reaction.go:131 | defaulting a prepared configuration again changes nothing |
| `Settings.BlankActionAccepted` | reaction/reaction.go:63-69 | a record whose only action is a blank line passes validation, although that line has no program to run |
| `Settings.FirstBlank` | reaction/reaction.go:84-85 | finds the first action with no program, or reports that every action has one |
| `Settings.ValidateCommands` | reaction/reaction.go:63-69 | the stricter loader accepts exactly what `Validate` accepts and has a program in every action; any `Validate` error is kept |
| `Rotation.Next` | reaction/reaction.go:79-80 | from a cursor in range, the step gives the round-robin successor `(i + 1) % n`, again in range |
| `Rotation.IndexAfterIsMod` | reaction/reaction.go:79-80 | starting from the zero value, the `k`-th action selects entry `k % n` |
| `Rotation.FirstSelection` | reaction/reaction.go:79-80 | with two or more actions, the first action run is entry 1; no action before the `n`-th selects entry 0, and the `n`-th does |
| `Rotation.Begin` | reaction/reaction.go:78-80 | the first part of `action` sets the busy flag and moves an in-range cursor to `(i + 1) % n`, again in range |
| `Rotation.Finish` | reaction/reaction.go:93 | the end of `action` clears the busy flag and keeps the cursor |
| `Rotation.Act` | reaction/reaction.go:77-94 | one complete action, whatever the command's outcome, advances an in-range cursor by exactly one place, stays in range and ends with the busy flag clear |
| `Rotation.Check` | reaction/reaction.go:96-105 | a check never changes the busy flag as seen after it returns, and moves an in-range cursor by at most one place, staying in range |
| `Rotation.CheckWhileBusy` | reaction/reaction.go:97 | a check made while an action is in flight changes neither field |
| `Rotation.CheckReachable` | reaction/reaction.go:100-102 | a check that reaches the target changes neither field |
| `Rotation.CheckFailure` | reaction/reaction.go:103-104 | an idle check whose probe fails advances the cursor exactly once and ends idle |
| `Rotation.ChecksAdvancePerFailure` | reaction/reaction.go:164-168 | a run of ticks from an idle state advances the cursor once per failed probe, modulo the number of actions, and ends idle |
| `Rotation.BusyCheckIsDropped` | reaction/reaction.go:97 | a failed check that arrives during an action is dropped: the action and the check together advance the cursor once |
| `Rotation.ForceBypassesGuard` | reaction/reaction.go:154-160 | a forced action during an in-flight action advances the cursor a second time and clears the busy flag early, so the next failed check starts a third action |
| `Reaction.Watchdog.constructor` | reaction/reaction.go:36-46 | the record holds the configured values; the cursor is 0 and the busy flag is clear, as Go's zero values make them |
| `Reaction.Watchdog.BeginAction` | reaction/reaction.go:78-85 | sets the busy flag; advances the cursor to `(old + 1) % n`, kept in range; splits the selected command line |
| `Reaction.Watchdog.FinishAction` | reaction/reaction.go:93 | clears the busy flag and keeps the cursor |
| `Reaction.Watchdog.Action` | reaction/reaction.go:77-94 | the `k`-th action selects entry `k % n`; on success and on error alike the cursor advances and the busy flag is cleared; a blank line crashes with the flag still set |
| `Reaction.Watchdog.UrlCheck` | reaction/reaction.go:96-106 | nothing happens exactly when the watchdog is busy or the target answers; otherwise it runs one action on entry `k % n`, which runs the selected line's program and arguments with the state the `Rotation.Check` transition gives, and crashes with the flag set exactly when that line is blank |
| `Reaction.Watchdog.ForceAction` | reaction/reaction.go:154-160 | runs one action whether or not another is in flight, on entry `k % n`; it runs the selected line's program and arguments, the cursor advances and the flag ends clear, and it crashes with the flag set exactly when that line is blank |
| `Reaction.Start` | reaction/reaction.go:124-131 | startup fails exactly when validation fails, with its error; otherwise it gives a fresh, idle watchdog with a defaulted interval of at least one |
| `Reaction.ActionNeverCrashes` | reaction/reaction.go:84-85 | with every action checked by the stricter loader, an action always runs a program and completes |

## Findings

| source | as written | input that shows it | evidently intended | confidence | as-written member | corrected member |
|---|---|---|---|---|---|---|
| reaction/reaction.go:63-69 | validation only checks that the action list is non-empty, so a blank action passes; when `action` selects it, `strings.Fields` gives no token and `args[0]` (line 85) panics, which ends the watchdog | `ip` "10.0.0.1", `port` 80, `actions` [" "] | refuse at load time any action with no program, so that a remediation step cannot crash the watchdog | high, not executed | `Settings.BlankActionAccepted` | `Settings.ValidateCommands` |

`Reaction.Watchdog.Action` models the code as written: a blank line gives
`Crashed`, with the busy flag left set. `Reaction.ActionNeverCrashes` shows
that under the corrected loader that result never happens.

## Left out

- Opening the file and decoding the JSON (reaction/reaction.go:56-61, 72) are file I/O and library decoding. The model starts from the decoded record.
- The `Init` field is decoded but never read.
- `net.Dial` and `conn.Close` are network I/O. The probe is a boolean input. The missing dial timeout cannot be expressed.
- `exec.Command`, `cmd.Run` and the captured standard output are process spawning. The command's result is the `Outcome` input, and the captured output is not modelled.
- All printing is logging only.
- Flag parsing, the version flag and the exit codes are command-line plumbing.
- Signal registration, the goroutines, the ticker and the `WaitGroup` are left out. Each trigger is a sequential call instead: a tick calls `UrlCheck` and a user signal calls `ForceAction`. The unsynchronised access to the record from several goroutines is a data race. The model only captures interleavings at the command's run, between `BeginAction` and `FinishAction`.
- Reaction.Watchdog.UrlCheck: runs the busy check, the probe and the start of `action` as one atomic step. In the code, the check of `Running` (reaction/reaction.go:97) and its setting (line 78) are separated by the untimed `net.Dial` (line 100). `main`'s own first `urlCheck` (line 170) also runs beside the ticker goroutine (lines 164-168). So two checks can both pass the busy check during a slow dial and both start an action, with no signal involved. The model does not capture that interleaving.
- Graceful shutdown on a termination signal is left out. It only releases the `WaitGroup` and does not wait for an action in flight.
- Reaction.Watchdog.Action: a crash at `args[0]` terminates the whole process. The model only returns `Crashed` with the busy flag still set. It does not stop later calls.
- Integers are unbounded. Go's `int` (32 or 64 bits) cannot overflow for the cursor, which stays in range. The interval-to-`time.Duration` multiplication for huge intervals is not modelled.
- Fields.Fields: Dafny strings hold Unicode scalar values, so invalid UTF-8 bytes in a command line are not modelled.
