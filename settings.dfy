/** The configuration record of the watchdog after JSON decoding, the checks
    `readConfig` applies to it, and the interval default applied by `main`. */
module Settings {
  import opened Wrappers
  import Fields

  /** Number of bytes Go's UTF-8 encoding uses for one character. */
  function RuneLength(c: char): (n: nat)
    ensures 1 <= n <= 4
    ensures n == 1 <==> c as int < 0x80
  {
    if c as int < 0x80 then 1
    else if c as int < 0x800 then 2
    else if c as int < 0x1_0000 then 3
    else 4
  }

  /** Go's `len` of a string: its length in UTF-8 bytes, not in characters. */
  function Utf8Length(s: string): (n: nat)
    ensures |s| <= n <= 4 * |s|
  {
    if s == [] then 0 else RuneLength(s[0]) + Utf8Length(s[1..])
  }

  /** On ASCII text the byte length is the character count. */
  lemma {:induction false} AsciiLength(s: string)
    requires forall i :: 0 <= i < |s| ==> s[i] as int < 0x80
    ensures Utf8Length(s) == |s|
  {
    if s != [] {
      assert s[0] as int < 0x80;
      assert forall i :: 0 <= i < |s[1..]| ==> s[1..][i] == s[i + 1];
      AsciiLength(s[1..]);
    }
  }

  /** The `Task` part of the decoded record. `Init` is decoded but never read,
      and `CurrentIndex` is never decoded (it is runtime state of the watchdog). */
  datatype Task = Task(ip: string, port: int, actions: seq<string>)

  /** The decoded configuration file. */
  datatype Config = Config(interval: int, task: Task)

  /** Why a decoded configuration is refused. `BlankAction` is raised only by
      `ValidateCommands`, which also refuses an action with no program. */
  datatype ConfigError =
    | BadIp       // "ip for the task appears invalid"
    | BadPort     // "port for the task appears invalid"
    | NoActions   // "Task has no actions"
    | BlankAction(position: nat)

  /** Every check the record fails, in the order the loader states them. */
  function Problems(c: Config): seq<ConfigError> {
    (if Utf8Length(c.task.ip) < 4 then [BadIp] else [])
    + (if c.task.port < 1 then [BadPort] else [])
    + (if |c.task.actions| < 1 then [NoActions] else [])
  }

  /** The checks `readConfig` applies once decoding succeeded: the record is
      accepted unchanged exactly when it fails none of them, and otherwise the
      first failing check decides the error. An accepted record has a
      non-empty address, a positive port and at least one action. */
  function Validate(c: Config): (r: Result<Config, ConfigError>)
    ensures r.Ok? <==> Problems(c) == []
    ensures r.Ok? ==> r.value == c
    ensures r.Err? ==> r.error == Problems(c)[0]
    ensures r.Ok? ==> c.task.ip != [] && c.task.port >= 1 && |c.task.actions| >= 1
  {
    if Utf8Length(c.task.ip) < 4 then Err(BadIp)
    else if c.task.port < 1 then Err(BadPort)
    else if |c.task.actions| < 1 then Err(NoActions)
    else Ok(c)
  }

  /** An address written in ASCII is refused as invalid exactly when it has
      fewer than four characters. */
  lemma AsciiIpCheck(c: Config)
    requires forall i :: 0 <= i < |c.task.ip| ==> c.task.ip[i] as int < 0x80
    ensures Validate(c) == Err(BadIp) <==> |c.task.ip| < 4
  {
    AsciiLength(c.task.ip);
  }

  /** The polling interval `main` uses: a valid interval (one second or more)
      is kept, and any other value becomes the ten-second default. */
  function DefaultInterval(seconds: int): (r: int)
    ensures r >= 1
    ensures seconds >= 1 ==> r == seconds
    ensures seconds < 1 ==> r == 10
  {
    if seconds < 1 then 10 else seconds
  }

  /** The configuration `main` runs with: the validated record with its
      interval defaulted, or the loader's error. */
  function Prepare(c: Config): (r: Result<Config, ConfigError>)
    ensures r.Err? <==> Validate(c).Err?
    ensures r.Err? ==> r == Validate(c)
    ensures r.Ok? ==> r.value == c.(interval := DefaultInterval(c.interval))
    ensures r.Ok? ==> r.value.interval >= 1 && |r.value.task.actions| >= 1
  {
    match Validate(c)
    case Err(e) => Err(e)
    case Ok(v) => Ok(v.(interval := DefaultInterval(v.interval)))
  }

  /** Defaulting is idempotent: a prepared configuration prepares to itself. */
  lemma PrepareIdempotent(c: Config)
    requires Prepare(c).Ok?
    ensures Prepare(Prepare(c).value) == Prepare(c)
  {
  }

  /** A configuration that `Validate` accepts even though one of its actions
      has no token, so that running that action indexes an empty argument
      list. */
  lemma BlankActionAccepted()
    ensures Validate(Config(10, Task("10.0.0.1", 80, [" "]))).Ok?
    ensures Fields.SplitCommand(" ") == None
  {
  }

  /** The position of the first action that holds no token, if any. */
  function FirstBlank(actions: seq<string>): (r: Option<nat>)
    ensures r.None? <==> forall k :: 0 <= k < |actions| ==> Fields.SplitCommand(actions[k]).Some?
    ensures r.Some? ==> r.value < |actions| && Fields.SplitCommand(actions[r.value]).None?
    ensures r.Some? ==> forall k :: 0 <= k < r.value ==> Fields.SplitCommand(actions[k]).Some?
  {
    if actions == [] then None
    else if Fields.SplitCommand(actions[0]).None? then Some(0)
    else match FirstBlank(actions[1..])
      case None => None
      case Some(k) => Some(k + 1)
  }

  /** `Validate` followed by the check it leaves out: every action must hold
      at least one token. An accepted record can run any of its actions. */
  function ValidateCommands(c: Config): (r: Result<Config, ConfigError>)
    ensures r.Ok? <==> Validate(c).Ok? && FirstBlank(c.task.actions).None?
    ensures Validate(c).Err? ==> r == Validate(c)
    ensures r.Ok? ==> r.value == c
    ensures r.Ok? ==> forall k :: 0 <= k < |c.task.actions| ==> Fields.SplitCommand(c.task.actions[k]).Some?
  {
    match Validate(c)
    case Err(e) => Err(e)
    case Ok(v) =>
      match FirstBlank(v.task.actions)
      case Some(k) => Err(BlankAction(k))
      case None => Ok(v)
  }
}
