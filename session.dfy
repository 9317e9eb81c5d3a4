/**
 * The VPN session driver (`OpenVpnServiceImpl`): starting the OpenVPN
 * process, the management handshake, the session state and its cleanup.
 *
 * Process liveness (`process.exitValue()` throwing or not) is the parameter
 * `alive`; the outcome of each file, process and socket operation of `start`
 * is given by an `Env`, and what the management socket delivers by its
 * script of polling rounds.
 */
module Session {
  import opened Wrappers
  import opened Text
  import opened Address
  import opened Expect

  const HoldMarker: string := ">HOLD:Waiting for hold release"
  const PasswordMarker: string := ">PASSWORD:Need 'Auth' username/password"
  const FailureMarker: string := ">PASSWORD:Verification Failed: 'Auth'"

  const HoldTimeout: int := 5000
  const PasswordTimeout: int := 5000
  const ResultTimeout: int := 30000

  /** `sendCommand` writes the command followed by a line feed. */
  function Wire(command: string): string {
    command + "\n"
  }

  /** The commands of the handshake, in the order they are sent. */
  function HandshakeCommands(username: string, password: string): seq<string> {
    ["state on", "hold release", "username \"Auth\" " + username, "password \"Auth\" " + password]
  }

  /** The wire text of each command. */
  function Wires(commands: seq<string>): (r: seq<string>)
    ensures |r| == |commands|
    ensures forall k :: 0 <= k < |r| ==> r[k] == Wire(commands[k])
    decreases |commands|
  {
    if commands == [] then [] else [Wire(commands[0])] + Wires(commands[1..])
  }

  /** The errors `start` raises as a `KuraException`. */
  datatype StartError =
    | AlreadyRunning
    | InvalidCredentials
    | ConfigPathUnresolved
    | LogFileUncreatable
    | LogWriterUnavailable
    | LaunchFailed
    | ManageInputUnavailable
    | ManageOutputUnavailable
    | ManageStreamClosed
    | ManageSocketError
    | HandshakeTimeout(success: Markers, failure: Markers)
    | ConnectFailed(line: string)

  /** Errors raised before the log writer is opened, which change nothing. */
  predicate IsRefusal(e: StartError) {
    e.AlreadyRunning? || e.InvalidCredentials? || e.ConfigPathUnresolved? ||
    e.LogFileUncreatable? || e.LogWriterUnavailable?
  }

  /**
   * How `start` ends: normally, with a `KuraException`, or with the
   * NullPointerException that escapes when the management socket could not
   * be created (the socket field stays null and `isConnected()` is called on it).
   */
  datatype StartResult = Started | Failed(error: StartError) | Crashed

  /** The error `start` raises for an `expect` that returned no line. */
  function ExpectError(o: Outcome): (e: StartError)
    requires !o.Matched?
    ensures !IsRefusal(e) && !e.ConnectFailed?
  {
    match o
    case StreamClosed => ManageStreamClosed
    case ReadFailed => ManageSocketError
    case TimedOut(success, failure) => HandshakeTimeout(success, failure)
  }

  /** How the handshake ends. */
  datatype HandshakeOutcome =
    | Connected(line: string)
    | Rejected(line: string)
    | Aborted(error: StartError)

  /** The handshake's outcome, the wire text it sent and the input left on the socket. */
  datatype HandshakeRun = HandshakeRun(outcome: HandshakeOutcome, sent: seq<string>, left: Input)

  /** The first `expect` of the handshake: the hold notice. */
  function AwaitHold(input: Input): (Outcome, Input) {
    ExpectSpec(input, Some([HoldMarker]), None, HoldTimeout)
  }

  /** The second `expect`: the request for username and password. */
  function AwaitPasswordRequest(input: Input): (Outcome, Input) {
    ExpectSpec(input, Some([PasswordMarker]), None, PasswordTimeout)
  }

  /** The third `expect`: the connection report or the verification failure. */
  function AwaitResult(input: Input): (Outcome, Input) {
    ExpectSpec(input, Some([ConnectedMarker]), Some([FailureMarker]), ResultTimeout)
  }

  /**
   * The handshake as a linear state machine: `state on`, wait for the hold
   * notice, `hold release`, wait for the password request, the username and
   * the password, wait for the result. Each command after the first is sent
   * only once the `expect` before it returned a line.
   */
  function Handshake(input: Input, username: string, password: string): (h: HandshakeRun)
    ensures h.outcome.Aborted? ==> !IsRefusal(h.outcome.error) && !h.outcome.error.ConnectFailed?
  {
    var (hold, afterHold) := AwaitHold(input);
    if !hold.Matched? then
      HandshakeRun(Aborted(ExpectError(hold)), [Wire("state on")], afterHold)
    else
      var (request, afterRequest) := AwaitPasswordRequest(afterHold);
      if !request.Matched? then
        HandshakeRun(Aborted(ExpectError(request)), [Wire("state on"), Wire("hold release")], afterRequest)
      else
        var (result, afterResult) := AwaitResult(afterRequest);
        var sent := [Wire("state on"), Wire("hold release"),
                     Wire("username \"Auth\" " + username), Wire("password \"Auth\" " + password)];
        if !result.Matched? then
          HandshakeRun(Aborted(ExpectError(result)), sent, afterResult)
        else if Contains(result.line, ConnectedMarker) then
          HandshakeRun(Connected(result.line), sent, afterResult)
        else
          HandshakeRun(Rejected(result.line), sent, afterResult)
  }

  /**
   * The handshake sends a prefix of its four commands: one while the hold
   * notice is missing, two while the password request is missing, all four
   * otherwise, and all four whenever it reaches a verdict.
   */
  lemma HandshakeProgress(input: Input, username: string, password: string)
    ensures var h := Handshake(input, username, password);
      var hold := AwaitHold(input);
      (|h.sent| == 1 || |h.sent| == 2 || |h.sent| == 4) &&
      h.sent == Wires(HandshakeCommands(username, password)[..|h.sent|]) &&
      (|h.sent| >= 2 <==> hold.0.Matched?) &&
      (|h.sent| == 4 <==> hold.0.Matched? && AwaitPasswordRequest(hold.1).0.Matched?) &&
      (!h.outcome.Aborted? ==> |h.sent| == 4)
  {
    var commands := HandshakeCommands(username, password);
    assert Wires(commands[..1]) == [Wire("state on")] by {
      assert commands[..1] == ["state on"];
    }
    assert Wires(commands[..2]) == [Wire("state on"), Wire("hold release")] by {
      assert commands[..2] == ["state on", "hold release"];
    }
    assert commands[..4] == commands;
  }

  /**
   * A connected handshake ends on a line that reports the connection; a
   * rejected one on a line with the verification failure and no report.
   */
  lemma HandshakeVerdict(input: Input, username: string, password: string)
    ensures var h := Handshake(input, username, password);
      (h.outcome.Connected? ==> Contains(h.outcome.line, ConnectedMarker)) &&
      (h.outcome.Rejected? ==>
        !Contains(h.outcome.line, ConnectedMarker) && Contains(h.outcome.line, FailureMarker))
  {
    var h := Handshake(input, username, password);
    if h.outcome.Rejected? {
      var afterRequest := AwaitPasswordRequest(AwaitHold(input).1).1;
      ExpectMatchedLine(afterRequest, Some([ConnectedMarker]), Some([FailureMarker]), ResultTimeout);
      assert AnyContained(h.outcome.line, Some([FailureMarker]));
    }
  }

  /** The environment's answer to each file, process and socket operation of `start`. */
  datatype Env = Env(
    configPathResolves: bool,  // getCanonicalPath() of the configuration file
    logFileReady: bool,        // the log file exists or createNewFile() succeeds
    logWriterOpens: bool,      // the log file can be opened for writing
    launchSucceeds: bool,      // Runtime.exec() starts the OpenVPN process
    socketConnects: bool,      // new Socket(127.0.0.1, 50002) succeeds
    socketInputOpens: bool,    // getInputStream() of the management socket
    socketOutputOpens: bool,   // getOutputStream() of the management socket
    script: Input)             // what the management interface sends

  /**
   * The driver's fields: each handle is present (`true`, `Some`) or null.
   * `manageReader` holds the input still to be read from the management
   * socket; `sent` is everything written to management writers so far.
   */
  datatype Session = Session(
    ipAddress: Option<string>,
    process: bool,
    stderrReader: bool,
    stdoutReader: bool,
    stderrGobbler: bool,
    stdoutGobbler: bool,
    logWriter: bool,
    manageSocket: bool,
    manageReader: Option<Input>,
    manageWriter: bool,
    sent: seq<string>)

  /** A fresh driver: every field null, nothing sent. */
  function Initial(): Session {
    Session(None, false, false, false, false, false, false, false, None, false, [])
  }

  /** No management socket, reader or writer. */
  predicate ManageSessionClosed(s: Session) {
    !s.manageSocket && s.manageReader.None? && !s.manageWriter
  }

  /** Every handle null and no address: the state `cleanup` leaves. */
  predicate IsClean(s: Session) {
    ManageSessionClosed(s) && s.ipAddress.None? && !s.process &&
    !s.stderrReader && !s.stdoutReader && !s.stderrGobbler && !s.stdoutGobbler && !s.logWriter
  }

  /**
   * What holds between calls: the management session is closed, and an
   * address is stored only while a process is tracked.
   */
  predicate SessionInvariant(s: Session) {
    ManageSessionClosed(s) && (s.ipAddress.Some? ==> s.process)
  }

  /** `isRunning`: a process is tracked and has not exited. */
  function Running(s: Session, alive: bool): bool {
    s.process && alive
  }

  /** `getNetInterfaceIpAddress`: the stored address while running, null otherwise. */
  function ReportedAddress(s: Session, alive: bool): (address: Option<string>)
    ensures address.Some? ==> Running(s, alive) && address == s.ipAddress
    ensures Running(s, alive) ==> address == s.ipAddress
  {
    if Running(s, alive) then s.ipAddress else None
  }

  /**
   * `closeManageSession`: sends `exit` if a management writer is present,
   * then drops the socket, its reader and its writer; nothing else changes.
   */
  function AfterCloseManageSession(s: Session): (r: Session)
    ensures ManageSessionClosed(r)
    ensures r.sent == s.sent + (if s.manageWriter then [Wire("exit")] else [])
    ensures r.(manageSocket := s.manageSocket, manageReader := s.manageReader,
               manageWriter := s.manageWriter, sent := s.sent) == s
  {
    var sent := if s.manageWriter then s.sent + [Wire("exit")] else s.sent;
    s.(manageSocket := false, manageReader := None, manageWriter := false, sent := sent)
  }

  /**
   * `cleanup`: closes the management session, destroys the process, stops
   * both gobblers, drops the stream readers, closes the log writer and
   * clears the address.
   */
  function AfterCleanup(s: Session): (r: Session)
    ensures IsClean(r) && SessionInvariant(r)
    ensures r.sent == s.sent + (if s.manageWriter then [Wire("exit")] else [])
  {
    AfterCloseManageSession(s).(process := false, stderrGobbler := false, stdoutGobbler := false,
      stderrReader := false, stdoutReader := false, logWriter := false, ipAddress := None)
  }

  /** `stop` is idempotent: a second cleanup changes nothing. */
  lemma CleanupIdempotent(s: Session)
    ensures AfterCleanup(AfterCleanup(s)) == AfterCleanup(s)
  {
  }

  /** Neither username nor password is null or empty. */
  predicate ValidCredentials(username: Option<string>, password: Option<string>) {
    username.Some? && username.value != [] && password.Some? && password.value != []
  }

  /**
   * The inner `try` block of `start`: the handshake on the open management
   * session and, once the last line reports the connection, the address it
   * carries and `closeManageSession`.
   */
  function ConverseSpec(s: Session, username: string, password: string): (r: (Session, StartResult))
    requires s.manageReader.Some?
    ensures r.1.Failed? ==> !IsRefusal(r.1.error)
    ensures !r.1.Crashed?
  {
    var h := Handshake(s.manageReader.value, username, password);
    var talked := s.(sent := s.sent + h.sent, manageReader := Some(h.left));
    match h.outcome
    case Connected(line) =>
      (AfterCloseManageSession(talked.(ipAddress := FindNetInterfaceIpAddress(line))), Started)
    case Rejected(line) => (talked, Failed(ConnectFailed(line)))
    case Aborted(e) => (talked, Failed(e))
  }

  /**
   * The body of the outer `try` block of `start`: launch, management
   * connection, then `ConverseSpec`.
   */
  function LaunchSpec(s: Session, username: string, password: string, env: Env): (r: (Session, StartResult))
    requires ManageSessionClosed(s)
    ensures r.1.Failed? ==> !IsRefusal(r.1.error)
    ensures r.1.Crashed? ==> ManageSessionClosed(r.0)
  {
    if !env.launchSucceeds then (s, Failed(LaunchFailed))
    else
      var launched := s.(process := true, stderrReader := true, stdoutReader := true,
                         stderrGobbler := true, stdoutGobbler := true);
      // `manageSocket` is still null, so `isConnected()` throws.
      if !env.socketConnects then (launched, Crashed)
      else
        var connected := launched.(manageSocket := true);
        if !env.socketInputOpens then (connected, Failed(ManageInputUnavailable))
        else
          var reading := connected.(manageReader := Some(env.script));
          if !env.socketOutputOpens then (reading, Failed(ManageOutputUnavailable))
          else ConverseSpec(reading.(manageWriter := true), username, password)
  }

  /** The outer `try` block with its `catch`: a `KuraException` is passed on after `cleanup()`. */
  function GuardedLaunchSpec(s: Session, username: string, password: string, env: Env): (r: (Session, StartResult))
    requires ManageSessionClosed(s)
    ensures r.1.Failed? ==> !IsRefusal(r.1.error) && IsClean(r.0)
  {
    var (s', result) := LaunchSpec(s, username, password, env);
    if result.Failed? then (AfterCleanup(s'), result) else (s', result)
  }

  /**
   * `start(username, password)`: the checks in their order, then
   * `GuardedLaunchSpec`.
   */
  function StartSpec(s: Session, username: Option<string>, password: Option<string>, alive: bool, env: Env)
    : (r: (Session, StartResult))
    requires SessionInvariant(s)
    ensures Running(s, alive) ==> r == (s, Failed(AlreadyRunning))
    ensures !Running(s, alive) && !ValidCredentials(username, password) ==> r == (s, Failed(InvalidCredentials))
    ensures r.1.Failed? && IsRefusal(r.1.error) ==> r.0 == s
    ensures r.1.Failed? && !IsRefusal(r.1.error) ==> IsClean(r.0)
    ensures !r.1.Failed? ==> r.0.process && r.0.logWriter && r.0.stderrGobbler && r.0.stdoutGobbler
    ensures r.1.Started? ==> ManageSessionClosed(r.0)
    ensures r.1.Crashed? ==> !r.0.manageSocket && r.0.ipAddress == s.ipAddress && r.0.sent == s.sent
    ensures SessionInvariant(r.0)
  {
    if Running(s, alive) then (s, Failed(AlreadyRunning))
    else if !ValidCredentials(username, password) then (s, Failed(InvalidCredentials))
    else if !env.configPathResolves then (s, Failed(ConfigPathUnresolved))
    else if !env.logFileReady then (s, Failed(LogFileUncreatable))
    else if !env.logWriterOpens then (s, Failed(LogWriterUnavailable))
    else
      GuardedLaunchSpec(s.(logWriter := true), username.value, password.value, env)
  }

  /**
   * A successful start sent the four handshake commands and `exit`, and
   * stored the address found in the line that reported the connection.
   */
  lemma StartedSession(s: Session, username: Option<string>, password: Option<string>, alive: bool, env: Env)
    requires SessionInvariant(s)
    requires StartSpec(s, username, password, alive, env).1.Started?
    ensures var r := StartSpec(s, username, password, alive, env).0;
      var h := Handshake(env.script, username.value, password.value);
      h.outcome.Connected? && Contains(h.outcome.line, ConnectedMarker) &&
      r.ipAddress == FindNetInterfaceIpAddress(h.outcome.line) &&
      r.sent == s.sent + Wires(HandshakeCommands(username.value, password.value)) + [Wire("exit")]
  {
    HandshakeVerdict(env.script, username.value, password.value);
    HandshakeProgress(env.script, username.value, password.value);
    assert HandshakeCommands(username.value, password.value)[..4] == HandshakeCommands(username.value, password.value);
  }

  /**
   * A rejected start reports the line with the verification failure, sent
   * the four commands and `exit`, and ends clean with no address.
   */
  lemma RejectedSession(s: Session, username: Option<string>, password: Option<string>, alive: bool, env: Env)
    requires SessionInvariant(s)
    requires StartSpec(s, username, password, alive, env).1.Failed?
    requires StartSpec(s, username, password, alive, env).1.error.ConnectFailed?
    ensures var (r, result) := StartSpec(s, username, password, alive, env);
      Contains(result.error.line, FailureMarker) && !Contains(result.error.line, ConnectedMarker) &&
      IsClean(r) && ReportedAddress(r, alive) == None &&
      r.sent == s.sent + Wires(HandshakeCommands(username.value, password.value)) + [Wire("exit")]
  {
    HandshakeVerdict(env.script, username.value, password.value);
    HandshakeProgress(env.script, username.value, password.value);
    assert HandshakeCommands(username.value, password.value)[..4] == HandshakeCommands(username.value, password.value);
  }

  /**
   * The socket failure as written: the NullPointerException skips `cleanup`,
   * so the new process, its gobblers and the log writer stay tracked and a
   * stored address survives.
   */
  lemma CrashLeavesProcessTracked(s: Session, username: Option<string>, password: Option<string>, env: Env)
    requires !s.process && s.ipAddress.None? && ManageSessionClosed(s) && ValidCredentials(username, password)
    requires env.configPathResolves && env.logFileReady && env.logWriterOpens && env.launchSucceeds
    requires !env.socketConnects
    ensures var (r, result) := StartSpec(s, username, password, true, env);
      result == Crashed && !IsClean(r) && Running(r, true) && r.logWriter && !r.manageSocket
  {
  }
}
