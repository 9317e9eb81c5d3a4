/**
 * End-to-end runs of `start` against a management interface that sends the
 * hold notice, the password request and a final line, one per polling
 * round, with every file, process and socket operation succeeding.
 */
module Scenarios {
  import opened Wrappers
  import opened Text
  import opened Address
  import opened Expect
  import opened Session

  /** The management interface sending `line` and a line feed in one round. */
  function Received(line: string): (round: Round)
    ensures AllChars(round)
  {
    seq(|line|, k requires 0 <= k < |line| => Char(line[k])) + [Char('\n')]
  }

  /** A round that holds one matching line is returned as that line. */
  lemma {:induction false} ScanReceived(line: string, rest: seq<Read>, acc: string, success: Markers, failure: Markers)
    requires NoTerminator(line) && NoTerminator(acc) && acc + line != []
    requires Matches(acc + line, success, failure)
    ensures Scan(seq(|line|, k requires 0 <= k < |line| => Char(line[k])) + [Char('\n')] + rest, acc, success, failure)
         == Found(acc + line, rest)
    decreases |line|
  {
    var chars := seq(|line|, k requires 0 <= k < |line| => Char(line[k]));
    var ready := chars + [Char('\n')] + rest;
    if line == [] {
      assert ready[0] == Char('\n') && ready[1..] == rest;
      assert acc + line == acc;
    } else {
      assert ready[0] == Char(line[0]);
      assert line == [line[0]] + line[1..];
      assert ready[1..] == seq(|line[1..]|, k requires 0 <= k < |line[1..]| => Char(line[1..][k])) + [Char('\n')] + rest;
      assert acc + line == (acc + [line[0]]) + line[1..];
      ScanReceived(line[1..], rest, acc + [line[0]], success, failure);
    }
  }

  /** A script of three rounds, one line each: the hold notice, the password request and `result`. */
  function Script(result: string): Input {
    [Received(HoldMarker), Received(PasswordMarker), Received(result)]
  }

  /** Every file, process and socket operation succeeds. */
  function Smooth(script: Input): Env {
    Env(true, true, true, true, true, true, true, script)
  }

  /** A round with one matching line, polled with budget left, is returned as that line. */
  lemma ReceivedLine(line: string, later: Input, remaining: int, success: Markers, failure: Markers)
    requires remaining > 0 && line != [] && NoTerminator(line) && Matches(line, success, failure)
    ensures Run([Received(line)] + later, [], remaining, success, failure) == (Matched(line), [[]] + later)
  {
    assert [] + line == line;
    ScanReceived(line, [], [], success, failure);
    assert Received(line) == Received(line) + [];
  }

  /** A round in which nothing was ready costs one interval and nothing else. */
  lemma EmptyRound(later: Input, remaining: int, success: Markers, failure: Markers)
    requires remaining > 0
    ensures Run([[]] + later, [], remaining, success, failure) == Run(later, [], remaining - PollInterval, success, failure)
  {
    assert ([[]] + later)[0] == [] && ([[]] + later)[1..] == later;
  }

  /** A line is matched by an array that holds the line itself. */
  lemma OwnMarker(m: string)
    ensures Matches(m, Some([m]), None)
  {
    ContainsItself(m);
    assert [m][0] == m;
  }

  /** The two prompts are non-empty single lines. */
  lemma PromptsArePlain()
    ensures HoldMarker != [] && NoTerminator(HoldMarker)
    ensures PasswordMarker != [] && NoTerminator(PasswordMarker)
  {
  }

  /** The hold notice in the first round passes the first `expect`. */
  lemma HoldReceived(later: Input)
    ensures AwaitHold([Received(HoldMarker)] + later) == (Matched(HoldMarker), [[]] + later)
  {
    var m := HoldMarker;
    PromptsArePlain();
    OwnMarker(m);
    ReceivedLine(m, later, HoldTimeout, Some([m]), None);
  }

  /** After an empty round, the password request passes the second `expect`. */
  lemma PasswordRequestReceived(later: Input)
    ensures AwaitPasswordRequest([[], Received(PasswordMarker)] + later) == (Matched(PasswordMarker), [[]] + later)
  {
    var m := PasswordMarker;
    var input := [Received(m)] + later;
    assert [[], Received(m)] + later == [[]] + input;
    EmptyRound(input, PasswordTimeout, Some([m]), None);
    PromptsArePlain();
    OwnMarker(m);
    ReceivedLine(m, later, PasswordTimeout - PollInterval, Some([m]), None);
  }

  /** After an empty round, a line with a success or failure marker passes the third `expect`. */
  lemma ResultReceived(result: string)
    requires result != [] && NoTerminator(result)
    requires Matches(result, Some([ConnectedMarker]), Some([FailureMarker]))
    ensures AwaitResult([[], Received(result)]) == (Matched(result), [[]])
  {
    var none: Input := [];
    assert [[], Received(result)] == [[]] + [Received(result)];
    EmptyRound([Received(result)], ResultTimeout, Some([ConnectedMarker]), Some([FailureMarker]));
    ReceivedLine(result, none, ResultTimeout - PollInterval, Some([ConnectedMarker]), Some([FailureMarker]));
    assert [Received(result)] + none == [Received(result)];
    assert [[]] + none == [[]];
  }

  /** The handshake on the three-line script follows the verdict of its last line. */
  lemma ScriptHandshake(result: string, username: string, password: string)
    requires result != [] && NoTerminator(result)
    requires Matches(result, Some([ConnectedMarker]), Some([FailureMarker]))
    ensures Handshake(Script(result), username, password).outcome
         == if Contains(result, ConnectedMarker) then Connected(result) else Rejected(result)
  {
    HoldReceived([Received(PasswordMarker), Received(result)]);
    assert Script(result) == [Received(HoldMarker)] + [Received(PasswordMarker), Received(result)];
    PasswordRequestReceived([Received(result)]);
    assert [[]] + [Received(PasswordMarker), Received(result)] == [[], Received(PasswordMarker)] + [Received(result)];
    ResultReceived(result);
    assert [[]] + [Received(result)] == [[], Received(result)];
  }

  /** With every operation succeeding, `start` ends as the handshake does. */
  lemma SmoothStart(s: Session, username: string, password: string, script: Input)
    requires SessionInvariant(s) && username != [] && password != []
    ensures var (r, result) := StartSpec(s, Some(username), Some(password), false, Smooth(script));
      match Handshake(script, username, password).outcome
      case Connected(_) => result == Started
      case Rejected(line) => result == Failed(ConnectFailed(line))
      case Aborted(e) => result == Failed(e)
  {
  }

  /** A line reporting the connection and an address passes the third `expect` as a success. */
  lemma ConnectedLine(address: string, rest: string)
    requires address != [] && ',' !in address && (rest == [] || rest[0] == ',')
    requires !Contains(address + rest, ConnectedMarker) && NoTerminator(address + rest)
    ensures var line := ConnectedMarker + "," + address + rest;
      line != [] && NoTerminator(line) && Contains(line, ConnectedMarker) &&
      Matches(line, Some([ConnectedMarker]), Some([FailureMarker])) &&
      FindNetInterfaceIpAddress(line) == Some(address)
  {
    var line := ConnectedMarker + "," + address + rest;
    assert line == ConnectedMarker + "," + (address + rest);
    assert line != [] && NoTerminator(line) by {
      ConnectedLinePlain(address + rest);
    }
    assert Contains(line, ConnectedMarker) && Matches(line, Some([ConnectedMarker]), Some([FailureMarker])) by {
      ConnectedLineMatches(address + rest);
    }
    assert FindNetInterfaceIpAddress(line) == Some(address) by {
      AddressAfterMarker([], address, rest);
      assert [] + ConnectedMarker == ConnectedMarker;
    }
  }

  /** A line that starts with the marker contains it and passes the third `expect`. */
  lemma ConnectedLineMatches(t: string)
    ensures var line := ConnectedMarker + "," + t;
      Contains(line, ConnectedMarker) && Matches(line, Some([ConnectedMarker]), Some([FailureMarker]))
  {
    var line := ConnectedMarker + "," + t;
    ContainsPrefix(ConnectedMarker, "," + t);
    assert ConnectedMarker + ("," + t) == line;
    assert [ConnectedMarker][0] == ConnectedMarker;
  }

  /** The marker, a comma and a text without terminators form one non-empty line. */
  lemma ConnectedLinePlain(t: string)
    requires NoTerminator(t)
    ensures var line := ConnectedMarker + "," + t;
      line != [] && NoTerminator(line)
  {
    assert NoTerminator(ConnectedMarker + ",");
  }

  /**
   * End to end: OpenVPN holds, asks for the password and reports
   * `CONNECTED,SUCCESS,<address><rest>`, with no further marker in the
   * fields that follow; the driver is then running with
   * that address, having sent the four commands and `exit`.
   */
  lemma ConnectScenario(username: string, password: string, address: string, rest: string)
    requires username != [] && password != []
    requires address != [] && ',' !in address && (rest == [] || rest[0] == ',')
    requires !Contains(address + rest, ConnectedMarker) && NoTerminator(address + rest)
    ensures var (r, result) := StartSpec(Initial(), Some(username), Some(password), false,
                                         Smooth(Script(ConnectedMarker + "," + address + rest)));
      result == Started && ReportedAddress(r, true) == Some(address) &&
      r.sent == Wires(HandshakeCommands(username, password)) + [Wire("exit")]
  {
    var line := ConnectedMarker + "," + address + rest;
    ConnectedLine(address, rest);
    ScriptHandshake(line, username, password);
    SmoothConnected(username, password, Script(line), line);
  }

  /** With every operation succeeding and a connected handshake, `start` stores the address of its line. */
  lemma SmoothConnected(username: string, password: string, script: Input, line: string)
    requires username != [] && password != []
    requires Handshake(script, username, password).outcome == Connected(line)
    ensures var (r, result) := StartSpec(Initial(), Some(username), Some(password), false, Smooth(script));
      result == Started && ReportedAddress(r, true) == FindNetInterfaceIpAddress(line) &&
      r.sent == Wires(HandshakeCommands(username, password)) + [Wire("exit")]
  {
    SmoothStart(Initial(), username, password, script);
    StartedSession(Initial(), Some(username), Some(password), false, Smooth(script));
    assert Initial().sent == [];
  }

  /**
   * End to end: the last line reports the verification failure and no
   * connection; `start` fails with that line and the driver is clean,
   * reporting no address.
   */
  lemma RejectScenario(username: string, password: string, line: string)
    requires username != [] && password != []
    requires NoTerminator(line) && Contains(line, FailureMarker) && !Contains(line, ConnectedMarker)
    ensures var (r, result) := StartSpec(Initial(), Some(username), Some(password), false, Smooth(Script(line)));
      result == Failed(ConnectFailed(line)) && IsClean(r) && ReportedAddress(r, true) == None
  {
    assert line != [] by {
      var i :| 0 <= i <= |line| && OccursAt(line, FailureMarker, i);
    }
    assert Handshake(Script(line), username, password).outcome == Rejected(line) by {
      assert Matches(line, Some([ConnectedMarker]), Some([FailureMarker])) by {
        assert [FailureMarker][0] == FailureMarker;
      }
      ScriptHandshake(line, username, password);
    }
    SmoothStart(Initial(), username, password, Script(line));
  }
}
