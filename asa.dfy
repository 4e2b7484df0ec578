/**
 * The driver for Cisco ASA firewalls: its session bookkeeping, the rule by
 * which it falls back through alternative spellings of a command, the
 * configuration getter, and the candidate-configuration state it keeps.
 */
module Asa {
  import opened Wrappers
  import opened Text
  import Netmiko

  /** The appliance's reply to a command, given the commands sent before it. */
  type Respond = (seq<string>, string) -> string

  /** The marker by which the appliance rejects a command it does not know. */
  const InvalidMarker := "% Invalid"
  const SystemContext := "system"
  const ChangetoSystem := "changeto system"
  const ChangetoContextPrefix := "changeto context "
  const StartupCommand := "show startup-config"
  const RunningCommand := "show running-config"
  const DeviceType := "cisco_asa"
  const DefaultTimeout := 60
  const LoadedMessage := "Candidate loaded to memory (no ASA support)"
  const AutodetectMissingMessage :=
    "Netmiko _autodetect_fs not found please upgrade Netmiko or specify dest_file_system in optional_args."
  const NoCandidateMessage := "'NoneType' object has no attribute 'splitlines'"

  /** The exceptions the driver lets escape. */
  datatype Error =
    | AttributeError(message: string)
    | NotImplementedError
    | FileError(path: string)

  /** Python truthiness of an optional string: neither None nor empty. */
  predicate Truthy(s: Option<string>)
  {
    s.Some? && s.value != ""
  }

  /** The appliance rejected the command that produced `output`. */
  predicate Rejected(output: string)
  {
    Contains(output, InvalidMarker)
  }

  // ---------------------------------------------------------------------
  // Sending commands
  // ---------------------------------------------------------------------

  /** The argument of `_send_command`: one command, or a list of spellings to try in turn. */
  datatype Command = Single(cmd: string) | Alternatives(cmds: seq<string>)

  /** What one call sends, in order, and the output it hands back. */
  datatype Exchange = Exchange(sent: seq<string>, output: string)

  /** Post-processing of command output: the ASA driver keeps it as it came. */
  function Postprocess(output: string): (r: string)
    ensures r == output
  {
    output
  }

  /** The reply to `cmds[i]` when it is tried after `cmds[..i]` on a session that had `history`. */
  function ReplyAt(respond: Respond, history: seq<string>, cmds: seq<string>, i: int): string
    requires 0 <= i < |cmds|
  {
    respond(history + cmds[..i], cmds[i])
  }

  /**
   * The fallback rule over a list of spellings: try them in order and stop
   * at the first whose reply is not rejected; when every reply is rejected,
   * the last reply is the one kept.
   */
  function Fallback(respond: Respond, history: seq<string>, cmds: seq<string>): (r: Exchange)
    requires |cmds| > 0
    ensures 0 < |r.sent| <= |cmds| && r.sent == cmds[..|r.sent|]
    ensures r.output == ReplyAt(respond, history, cmds, |r.sent| - 1)
    ensures |r.sent| < |cmds| ==> !Rejected(r.output)
    decreases |cmds|
  {
    var out := respond(history, cmds[0]);
    assert history + cmds[..0] == history;
    if !Rejected(out) || |cmds| == 1 then
      Exchange([cmds[0]], out)
    else
      var rest := Fallback(respond, history + [cmds[0]], cmds[1..]);
      var n := |rest.sent|;
      assert [cmds[0]] + cmds[1..][..n] == cmds[..n + 1];
      assert history + [cmds[0]] + cmds[1..][..n - 1] == history + cmds[..n];
      Exchange([cmds[0]] + rest.sent, rest.output)
  }

  /** Trying `cmds` after `history` is trying `cmds[1..]` after `history + [cmds[0]]`, from the second spelling on. */
  lemma ReplyAtShift(respond: Respond, history: seq<string>, cmds: seq<string>, i: int)
    requires 0 < i < |cmds|
    ensures ReplyAt(respond, history, cmds, i) == ReplyAt(respond, history + [cmds[0]], cmds[1..], i - 1)
  {
    assert history + [cmds[0]] + cmds[1..][..i - 1] == history + cmds[..i];
  }

  /** After a rejected first spelling, the rule carries on with the rest of the list. */
  lemma FallbackUnfold(respond: Respond, history: seq<string>, cmds: seq<string>)
    requires |cmds| > 1 && Rejected(respond(history, cmds[0]))
    ensures var rest := Fallback(respond, history + [cmds[0]], cmds[1..]);
            Fallback(respond, history, cmds) == Exchange([cmds[0]] + rest.sent, rest.output)
  {
  }

  /** Every spelling tried before the last one sent was rejected. */
  lemma {:induction false} FallbackSkipsOnlyRejected(respond: Respond, history: seq<string>, cmds: seq<string>, i: int)
    requires |cmds| > 0
    requires 0 <= i < |Fallback(respond, history, cmds).sent| - 1
    ensures Rejected(ReplyAt(respond, history, cmds, i))
    decreases |cmds|
  {
    assert history + cmds[..0] == history;
    if i > 0 {
      FallbackSkipsOnlyRejected(respond, history + [cmds[0]], cmds[1..], i - 1);
      ReplyAtShift(respond, history, cmds, i);
    }
  }

  /** When `cmds[k]` is the first spelling not rejected, exactly `cmds[..k+1]` are sent and its reply is returned. */
  lemma {:induction false} FallbackFirstAccepted(respond: Respond, history: seq<string>, cmds: seq<string>, k: int)
    requires 0 <= k < |cmds|
    requires forall i :: 0 <= i < k ==> Rejected(ReplyAt(respond, history, cmds, i))
    requires !Rejected(ReplyAt(respond, history, cmds, k))
    ensures Fallback(respond, history, cmds) == Exchange(cmds[..k + 1], ReplyAt(respond, history, cmds, k))
    decreases k
  {
    assert history + cmds[..0] == history;
    if k > 0 {
      var h', c' := history + [cmds[0]], cmds[1..];
      forall i | 0 <= i < k - 1
        ensures Rejected(ReplyAt(respond, h', c', i))
      {
        assert Rejected(ReplyAt(respond, history, cmds, i + 1));
        ReplyAtShift(respond, history, cmds, i + 1);
      }
      ReplyAtShift(respond, history, cmds, k);
      assert Rejected(ReplyAt(respond, history, cmds, 0));
      FallbackUnfold(respond, history, cmds);
      FallbackFirstAccepted(respond, h', c', k - 1);
      assert [cmds[0]] + c'[..k] == cmds[..k + 1];
    }
  }

  /** When every spelling is rejected, all of them are sent, once each, and the last reply is returned. */
  lemma {:induction false} FallbackAllRejected(respond: Respond, history: seq<string>, cmds: seq<string>)
    requires |cmds| > 0
    requires forall i :: 0 <= i < |cmds| ==> Rejected(ReplyAt(respond, history, cmds, i))
    ensures Fallback(respond, history, cmds) == Exchange(cmds, ReplyAt(respond, history, cmds, |cmds| - 1))
    decreases |cmds|
  {
    assert history + cmds[..0] == history;
    if |cmds| > 1 {
      var h', c' := history + [cmds[0]], cmds[1..];
      forall i | 0 <= i < |c'|
        ensures Rejected(ReplyAt(respond, h', c', i))
      {
        ReplyAtShift(respond, history, cmds, i + 1);
      }
      assert Rejected(ReplyAt(respond, history, cmds, 0));
      FallbackUnfold(respond, history, cmds);
      FallbackAllRejected(respond, h', c');
      ReplyAtShift(respond, history, cmds, |cmds| - 1);
      assert [cmds[0]] + c' == cmds;
    }
  }

  /** What `_send_command` sends and returns for either form of its argument. */
  function Send(respond: Respond, history: seq<string>, command: Command): (r: Exchange)
    requires command.Alternatives? ==> |command.cmds| > 0
    ensures command.Single? ==> r == Exchange([command.cmd], respond(history, command.cmd))
    ensures command.Alternatives? ==> r == Fallback(respond, history, command.cmds)
  {
    match command
    case Single(c) => Exchange([c], Postprocess(respond(history, c)))
    case Alternatives(cmds) =>
      var e := Fallback(respond, history, cmds);
      Exchange(e.sent, Postprocess(e.output))
  }

  /** A list of one spelling behaves exactly like that spelling given alone. */
  lemma SendOneAlternative(respond: Respond, history: seq<string>, cmd: string)
    ensures Send(respond, history, Alternatives([cmd])) == Send(respond, history, Single(cmd))
  {
    assert history + [cmd][..0] == history;
  }

  // ---------------------------------------------------------------------
  // Configuration retrieval
  // ---------------------------------------------------------------------

  predicate WantsStartup(retrieve: string)
  {
    retrieve == "startup" || retrieve == "all"
  }

  predicate WantsRunning(retrieve: string)
  {
    retrieve == "running" || retrieve == "all"
  }

  /** The commands `get_config(retrieve)` sends, in order. */
  function ConfigCommands(retrieve: string): (cmds: seq<string>)
    ensures StartupCommand in cmds <==> WantsStartup(retrieve)
    ensures RunningCommand in cmds <==> WantsRunning(retrieve)
    ensures cmds == [] <==> !WantsStartup(retrieve) && !WantsRunning(retrieve)
    ensures |cmds| <= 2 && (|cmds| == 2 ==> cmds == [StartupCommand, RunningCommand])
  {
    (if WantsStartup(retrieve) then [StartupCommand] else [])
    + (if WantsRunning(retrieve) then [RunningCommand] else [])
  }

  /** The record `get_config(retrieve)` returns on a session that had `history`. */
  function Configs(respond: Respond, history: seq<string>, retrieve: string): (configs: map<string, string>)
    ensures configs.Keys == {"startup", "running", "candidate"}
    ensures configs["candidate"] == ""
    ensures !WantsStartup(retrieve) ==> configs["startup"] == ""
    ensures !WantsRunning(retrieve) ==> configs["running"] == ""
    ensures WantsStartup(retrieve) ==> configs["startup"] == ReplyAt(respond, history, ConfigCommands(retrieve), 0)
    ensures WantsRunning(retrieve) ==>
      configs["running"] == ReplyAt(respond, history, ConfigCommands(retrieve), |ConfigCommands(retrieve)| - 1)
  {
    var startup := if WantsStartup(retrieve) then respond(history, StartupCommand) else "";
    var before := if WantsStartup(retrieve) then history + [StartupCommand] else history;
    var running := if WantsRunning(retrieve) then respond(before, RunningCommand) else "";
    assert history + ConfigCommands(retrieve)[..0] == history;
    map["startup" := startup, "running" := running, "candidate" := ""]
  }

  /** Any scope other than startup, running or all sends nothing and returns three empty texts. */
  lemma ConfigsOtherScope(respond: Respond, history: seq<string>, retrieve: string)
    requires !WantsStartup(retrieve) && !WantsRunning(retrieve)
    ensures ConfigCommands(retrieve) == []
    ensures Configs(respond, history, retrieve) == map["startup" := "", "running" := "", "candidate" := ""]
  {
  }

  // ---------------------------------------------------------------------
  // Session opening and the candidate configuration
  // ---------------------------------------------------------------------

  /** `open` switches into the configured context: one that is set, non-empty and not the system context. */
  predicate SwitchesContext(context: Option<string>)
  {
    Truthy(context) && context.value != SystemContext
  }

  /** The commands `open` sends on a new session; `completed` is false when it raised before the context switch. */
  function OpenCommands(context: Option<string>, completed: bool): (cmds: seq<string>)
    ensures 2 <= |cmds| <= 3
    ensures cmds[0] == Netmiko.EnableCommand && cmds[1] == ChangetoSystem
    ensures |cmds| == 3 <==> completed && SwitchesContext(context)
    ensures |cmds| == 3 ==> cmds[2] == ChangetoContextPrefix + context.value
  {
    [Netmiko.EnableCommand, ChangetoSystem]
    + if completed && SwitchesContext(context) then [ChangetoContextPrefix + context.value] else []
  }

  /** The file `load_replace_candidate` would read cannot be opened. */
  predicate LoadFails(filename: Option<string>, files: map<string, string>)
  {
    Truthy(filename) && filename.value !in files
  }

  /** The candidate after `load_replace_candidate(filename, config)`, reading files from `files`. */
  function NextCandidate(current: Option<string>, filename: Option<string>, config: Option<string>,
                         files: map<string, string>): (r: Option<string>)
    ensures Truthy(filename) && filename.value in files ==> r == Some(files[filename.value])
    ensures !Truthy(filename) && Truthy(config) ==> r == config
    ensures LoadFails(filename, files) || (!Truthy(filename) && !Truthy(config)) ==> r == current
  {
    if Truthy(filename) then
      if filename.value in files then Some(files[filename.value]) else current
    else if Truthy(config) then config
    else current
  }

  /** A readable file name wins: the configuration text passed beside it has no effect. */
  lemma NextCandidateIgnoresConfig(current: Option<string>, filename: Option<string>,
                                   config1: Option<string>, config2: Option<string>, files: map<string, string>)
    requires Truthy(filename)
    ensures NextCandidate(current, filename, config1, files) == NextCandidate(current, filename, config2, files)
  {
  }

  /** Loading the same inputs twice leaves the same candidate as loading them once. */
  lemma NextCandidateIdempotent(current: Option<string>, filename: Option<string>, config: Option<string>,
                                files: map<string, string>)
    ensures var once := NextCandidate(current, filename, config, files);
            NextCandidate(once, filename, config, files) == once
  {
  }

  /** A driver instance: its connection, the candidate it holds and where it stores files. */
  class AsaDriver {
    var device: Netmiko.Connection?
    const hostname: string
    const username: string
    const password: string
    const timeout: int
    /** The candidate configuration text; None until one is loaded. */
    var candidateConfig: Option<string>
    /** The appliance's writable file system, detected on open. */
    var destFileSystem: Option<string>
    var context: Option<string>
    /** The constructor only assigns `context` when it is given optional arguments. */
    ghost var contextAssigned: bool

    constructor (hostname: string, username: string, password: string, timeout: int := DefaultTimeout,
                 optionalArgs: Option<map<string, string>> := None)
      ensures device == null && candidateConfig == None && destFileSystem == None
      ensures this.hostname == hostname && this.username == username && this.password == password
      ensures this.timeout == timeout
      ensures contextAssigned == optionalArgs.Some?
      ensures context == if optionalArgs.Some? && "context" in optionalArgs.value
                         then Some(optionalArgs.value["context"]) else None
    {
      device := null;
      this.hostname := hostname;
      this.username := username;
      this.password := password;
      this.timeout := timeout;
      candidateConfig := None;
      destFileSystem := None;
      if optionalArgs.Some? && "context" in optionalArgs.value {
        context := Some(optionalArgs.value["context"]);
      } else {
        context := None;
      }
      contextAssigned := optionalArgs.Some?;
    }

    /**
     * Connects to `appliance`, enters privileged mode, moves to the system
     * context, detects the file system unless one is known, and then moves
     * into the configured context. A missing file-system probe raises before
     * the context switch; the connection stays assigned.
     */
    method Open(appliance: Netmiko.Appliance) returns (r: Outcome<Error>)
      requires contextAssigned
      modifies this
      ensures device != null && fresh(device)
      ensures device.deviceType == DeviceType && device.host == hostname
      ensures device.username == username && device.password == password
      ensures device.appliance == appliance
      ensures r == if !Truthy(old(destFileSystem)) && appliance.autodetectFs.None?
                   then Fail(AttributeError(AutodetectMissingMessage)) else Pass
      ensures destFileSystem == if !Truthy(old(destFileSystem)) && appliance.autodetectFs.Some?
                                then appliance.autodetectFs else old(destFileSystem)
      ensures device.history == OpenCommands(context, r.Pass?)
      ensures candidateConfig == old(candidateConfig) && context == old(context)
      ensures contextAssigned == old(contextAssigned)
    {
      var conn := new Netmiko.Connection(DeviceType, hostname, username, password, appliance);
      device := conn;
      conn.Enable();
      var _ := conn.SendCommand(ChangetoSystem);
      if !Truthy(destFileSystem) {
        var fs := conn.AutodetectFs();
        if fs.None? {
          return Fail(AttributeError(AutodetectMissingMessage));
        }
        destFileSystem := fs;
      }
      if Truthy(context) && context.value != SystemContext {
        var _ := conn.SendCommand(ChangetoContextPrefix + context.value);
      }
      r := Pass;
    }

    /** `_send_command`: sends one command, or the first acceptable of a list of spellings. */
    method SendCommand(command: Command) returns (output: string)
      requires device != null
      requires command.Alternatives? ==> |command.cmds| > 0
      modifies device
      ensures device.history
              == old(device.history) + Send(device.appliance.respond, old(device.history), command).sent
      ensures output == Send(device.appliance.respond, old(device.history), command).output
    {
      match command
      case Single(c) =>
        output := device.SendCommand(c);
      case Alternatives(cmds) =>
        output := TryInOrder(cmds);
      output := Postprocess(output);
    }

    /** The loop of `_send_command` over a list: send each spelling until a reply is not rejected. */
    method TryInOrder(cmds: seq<string>) returns (output: string)
      requires device != null && |cmds| > 0
      modifies device
      ensures device.history
              == old(device.history) + Fallback(device.appliance.respond, old(device.history), cmds).sent
      ensures output == Fallback(device.appliance.respond, old(device.history), cmds).output
    {
      ghost var h0 := device.history;
      ghost var respond := device.appliance.respond;
      var i := 0;
      output := "";
      while i < |cmds|
        invariant 0 <= i <= |cmds|
        invariant device.history == h0 + cmds[..i]
        invariant forall j :: 0 <= j < i ==> Rejected(ReplyAt(respond, h0, cmds, j))
        invariant i > 0 ==> output == ReplyAt(respond, h0, cmds, i - 1)
      {
        output := device.SendCommand(cmds[i]);
        assert cmds[..i] + [cmds[i]] == cmds[..i + 1];
        if !Rejected(output) {
          FallbackFirstAccepted(respond, h0, cmds, i);
          break;
        }
        i := i + 1;
      }
      if i == |cmds| {
        FallbackAllRejected(respond, h0, cmds);
        assert cmds[..i] == cmds;
      }
    }

    /** `get_config`: the startup and/or running configuration, and an always-empty candidate. */
    method GetConfig(retrieve: string := "all") returns (configs: map<string, string>)
      requires device != null
      modifies device
      ensures device.history == old(device.history) + ConfigCommands(retrieve)
      ensures configs == Configs(device.appliance.respond, old(device.history), retrieve)
    {
      ghost var h0 := device.history;
      ghost var respond := device.appliance.respond;
      configs := map["startup" := "", "running" := "", "candidate" := ""];
      if WantsStartup(retrieve) {
        var output := SendCommand(Single(StartupCommand));
        configs := configs["startup" := output];
      }
      ghost var h1 := device.history;
      assert h1 == h0 + (if WantsStartup(retrieve) then [StartupCommand] else []);
      if WantsRunning(retrieve) {
        var output := SendCommand(Single(RunningCommand));
        assert output == respond(h1, RunningCommand);
        configs := configs["running" := output];
      }
      assert device.history == h0 + ConfigCommands(retrieve);
    }

    /**
     * `compare_config`: reads the running configuration and renders its
     * difference with the candidate through `render`; with no candidate the
     * call raises after the read.
     */
    method CompareConfig(render: (string, string) -> string) returns (r: Result<string, Error>)
      requires device != null
      modifies device
      ensures device.history == old(device.history) + [RunningCommand]
      ensures r == if candidateConfig.None? then Failure(AttributeError(NoCandidateMessage))
                   else Success(render(device.appliance.respond(old(device.history), RunningCommand),
                                       candidateConfig.value))
    {
      var configs := GetConfig("running");
      if candidateConfig.None? {
        return Failure(AttributeError(NoCandidateMessage));
      }
      r := Success(render(configs["running"], candidateConfig.value));
    }

    /** `load_replace_candidate`: a file name takes precedence over configuration text. */
    method LoadReplaceCandidate(files: map<string, string>, filename: Option<string> := None,
                                config: Option<string> := None)
      returns (r: Result<(bool, string), Error>)
      modifies this`candidateConfig
      ensures candidateConfig == NextCandidate(old(candidateConfig), filename, config, files)
      ensures r == if LoadFails(filename, files) then Failure(FileError(filename.value))
                   else Success((true, LoadedMessage))
    {
      if Truthy(filename) {
        if filename.value !in files {
          return Failure(FileError(filename.value));
        }
        candidateConfig := Some(files[filename.value]);
      } else if Truthy(config) {
        candidateConfig := config;
      }
      r := Success((true, LoadedMessage));
    }

    /** `discard_config`: forgets the candidate. */
    method DiscardConfig()
      modifies this`candidateConfig
      ensures candidateConfig == None
    {
      candidateConfig := None;
    }

    /** `commit_config`: not supported on this platform; it always raises and changes nothing. */
    method CommitConfig() returns (r: Outcome<Error>)
      ensures r == Fail(NotImplementedError)
    {
      r := Fail(NotImplementedError);
    }
  }

  /**
   * Loading and then discarding leaves a driver whose candidate, file
   * system and context are those of a freshly constructed one.
   */
  method LoadThenDiscard(hostname: string, username: string, password: string,
                         optionalArgs: Option<map<string, string>>, files: map<string, string>,
                         filename: Option<string>, config: Option<string>)
    returns (initial: AsaDriver, used: AsaDriver)
    ensures initial.candidateConfig == used.candidateConfig == None
    ensures initial.destFileSystem == used.destFileSystem && initial.context == used.context
  {
    initial := new AsaDriver(hostname, username, password, DefaultTimeout, optionalArgs);
    used := new AsaDriver(hostname, username, password, DefaultTimeout, optionalArgs);
    var _ := used.LoadReplaceCandidate(files, filename, config);
    used.DiscardConfig();
  }
}
