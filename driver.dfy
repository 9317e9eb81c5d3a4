/**
 * The driver object `OpenVpnServiceImpl` with the fields its methods
 * assign, each method proved against the function of `Session` that
 * specifies it.
 */
module Driver {
  import opened Wrappers
  import opened Text
  import opened Address
  import opened Expect
  import opened Session

  /**
   * The driver object. Its fields are the ones `start`, `stop` and
   * `cleanup` assign; `State()` reads them as a `Session` value, and every
   * method is stated against the `Session` function that specifies it.
   */
  class OpenVpnService {
    var ipAddress: Option<string>
    var process: bool
    var stderrReader: bool
    var stdoutReader: bool
    var stderrGobbler: bool
    var stdoutGobbler: bool
    var logWriter: bool
    var manageSocket: bool
    var manageReader: Option<Input>
    var manageWriter: bool
    var sent: seq<string>

    function State(): Session
      reads this
    {
      Session(ipAddress, process, stderrReader, stdoutReader, stderrGobbler, stdoutGobbler,
              logWriter, manageSocket, manageReader, manageWriter, sent)
    }

    ghost predicate Valid()
      reads this
    {
      SessionInvariant(State())
    }

    constructor()
      ensures State() == Initial() && Valid()
    {
      ipAddress := None;
      process := false;
      stderrReader := false;
      stdoutReader := false;
      stderrGobbler := false;
      stdoutGobbler := false;
      logWriter := false;
      manageSocket := false;
      manageReader := None;
      manageWriter := false;
      sent := [];
    }

    /** `isRunning`: a process is tracked and `exitValue()` throws. */
    method IsRunning(alive: bool) returns (running: bool)
      ensures running <==> process && alive
      ensures running == Running(State(), alive)
    {
      running := false;
      if process {
        running := alive;
      }
    }

    /** `getNetInterfaceIpAddress`: the stored address while running, null otherwise. */
    method GetNetInterfaceIpAddress(alive: bool) returns (address: Option<string>)
      ensures address == ReportedAddress(State(), alive)
      ensures address.Some? ==> process && alive && address == ipAddress
    {
      var running := IsRunning(alive);
      if running {
        return ipAddress;
      }
      return None;
    }

    /** `sendCommand`: the command and a line feed go out on the management writer. */
    method SendCommand(command: string)
      requires manageWriter
      modifies this`sent
      ensures sent == old(sent) + [Wire(command)]
    {
      sent := sent + [Wire(command)];
    }

    /**
     * `expect` on the management reader: the outcome of polling what the
     * reader still holds, which is then what is left after the returned line.
     */
    method ExpectLine(success: Markers, failure: Markers, millis: int) returns (outcome: Outcome)
      requires manageReader.Some?
      modifies this`manageReader
      ensures manageReader.Some?
      ensures (outcome, manageReader.value) == ExpectSpec(old(manageReader.value), success, failure, millis)
    {
      var left;
      outcome, left := Expect.Expect(manageReader.value, success, failure, millis);
      manageReader := Some(left);
    }

    /** `closeManageSession`: `exit` if a writer is present, then the socket, reader and writer are dropped. */
    method CloseManageSession()
      modifies this`manageSocket, this`manageReader, this`manageWriter, this`sent
      ensures State() == AfterCloseManageSession(old(State()))
    {
      if manageWriter {
        SendCommand("exit");
      }
      // Closing the socket has no effect on the model beyond dropping it.
      manageSocket := false;
      manageReader := None;
      manageWriter := false;
    }

    /**
     * `cleanup`: the management session, the process, the gobblers, the
     * readers, the log writer and the address. Destroying the process,
     * interrupting the gobblers and closing the writer are not modelled;
     * each handle ends null.
     */
    method Cleanup()
      modifies this
      ensures State() == AfterCleanup(old(State()))
      ensures Valid()
    {
      CloseManageSession();
      process := false;
      stderrGobbler := false;
      stdoutGobbler := false;
      stderrReader := false;
      stdoutReader := false;
      logWriter := false;
      ipAddress := None;
    }

    /** `stop`: `cleanup`. */
    method Stop()
      modifies this
      ensures State() == AfterCleanup(old(State()))
      ensures IsClean(State()) && Valid()
      ensures forall alive :: !Running(State(), alive) && ReportedAddress(State(), alive) == None
    {
      Cleanup();
    }

    /**
     * The outer `try` block of `start`, from `Runtime.exec` on; a
     * `KuraException` it raises is the `Failed` result.
     */
    method Launch(username: string, password: string, env: Env) returns (result: StartResult)
      requires ManageSessionClosed(State())
      modifies this
      ensures (State(), result) == LaunchSpec(old(State()), username, password, env)
    {
      if !env.launchSucceeds {
        return Failed(LaunchFailed);
      }
      process := true;
      stderrReader := true;
      stdoutReader := true;
      stderrGobbler := true;
      stdoutGobbler := true;
      if !env.socketConnects {
        // `manageSocket` is still null and `isConnected()` throws.
        return Crashed;
      }
      manageSocket := true;
      if !env.socketInputOpens {
        return Failed(ManageInputUnavailable);
      }
      manageReader := Some(env.script);
      if !env.socketOutputOpens {
        return Failed(ManageOutputUnavailable);
      }
      manageWriter := true;
      ghost var ready := old(State()).(process := true, stderrReader := true, stdoutReader := true,
        stderrGobbler := true, stdoutGobbler := true, manageSocket := true,
        manageReader := Some(env.script), manageWriter := true);
      assert State() == ready;
      result := Converse(username, password);
      assert (State(), result) == ConverseSpec(ready, username, password);
    }

    /**
     * The inner `try` block of `start`: the handshake, then the address of
     * the line that reports the connection and `closeManageSession`.
     */
    method Converse(username: string, password: string) returns (result: StartResult)
      requires manageWriter && manageReader.Some?
      modifies this
      ensures (State(), result) == ConverseSpec(old(State()), username, password)
    {
      var outcome := RunHandshake(username, password);
      match outcome
      case Connected(line) =>
        ipAddress := FindNetInterfaceIpAddress(line);
        CloseManageSession();
        return Started;
      case Rejected(line) =>
        return Failed(ConnectFailed(line));
      case Aborted(e) =>
        return Failed(e);
    }

    /**
     * The `try` block of `start` around the management exchange: each
     * `sendCommand` and `expect` in turn, and the test of the last line for
     * the connection report. An `expect` that returns no line ends it.
     */
    method RunHandshake(username: string, password: string) returns (outcome: HandshakeOutcome)
      requires manageWriter && manageReader.Some?
      modifies this`sent, this`manageReader
      ensures var h := Handshake(old(manageReader.value), username, password);
        outcome == h.outcome && sent == old(sent) + h.sent && manageReader == Some(h.left)
    {
      SendCommand("state on");
      var hold := ExpectLine(Some([HoldMarker]), None, HoldTimeout);
      if !hold.Matched? {
        return Aborted(ExpectError(hold));
      }
      SendCommand("hold release");
      var request := ExpectLine(Some([PasswordMarker]), None, PasswordTimeout);
      if !request.Matched? {
        return Aborted(ExpectError(request));
      }
      SendCommand("username \"Auth\" " + username);
      SendCommand("password \"Auth\" " + password);
      var verdict := ExpectLine(Some([ConnectedMarker]), Some([FailureMarker]), ResultTimeout);
      if !verdict.Matched? {
        return Aborted(ExpectError(verdict));
      }
      if Contains(verdict.line, ConnectedMarker) {
        return Connected(verdict.line);
      }
      return Rejected(verdict.line);
    }

    /**
     * `start(username, password)`: refuses while running, on a null or
     * empty credential and when the configuration path, the log file or its
     * writer is unavailable; otherwise it opens the log writer and runs
     * `TryLaunch`.
     */
    method Start(username: Option<string>, password: Option<string>, alive: bool, env: Env)
      returns (result: StartResult)
      requires Valid()
      modifies this
      ensures (State(), result) == StartSpec(old(State()), username, password, alive, env)
      ensures Valid()
    {
      var running := IsRunning(alive);
      if running {
        return Failed(AlreadyRunning);
      }
      if username.None? || username.value == [] || password.None? || password.value == [] {
        return Failed(InvalidCredentials);
      }
      if !env.configPathResolves {
        return Failed(ConfigPathUnresolved);
      }
      if !env.logFileReady {
        return Failed(LogFileUncreatable);
      }
      if !env.logWriterOpens {
        return Failed(LogWriterUnavailable);
      }
      logWriter := true;
      result := TryLaunch(username.value, password.value, env);
    }

    /** The outer `try` block of `start` and its `catch`, which runs `cleanup` before passing the exception on. */
    method TryLaunch(username: string, password: string, env: Env) returns (result: StartResult)
      requires ManageSessionClosed(State())
      modifies this
      ensures (State(), result) == GuardedLaunchSpec(old(State()), username, password, env)
    {
      result := Launch(username, password, env);
      if result.Failed? {
        Cleanup();
      }
    }
  }
}
