/**
 * The `expect` primitive of the management-protocol client: a polling loop
 * that reads characters into a line accumulator and returns the first
 * completed, non-empty line that contains one of the expected markers, or
 * fails when the stream ends, a read fails or the time budget runs out.
 *
 * The management socket is modelled as a script of polling rounds: round k
 * holds the reads that `ready()` offers in the k-th round (an empty round is
 * a round in which nothing was ready).
 */
module Expect {
  import opened Wrappers
  import opened Text

  /** What one `read()` returns: a character, -1 at end of stream, or an IOException. */
  datatype Read = Char(c: char) | EndOfStream | ReadError

  type Round = seq<Read>
  type Input = seq<Round>

  /** A Java `String[]` of expected markers, which may be `null`. */
  type Markers = Option<seq<string>>

  /** Milliseconds slept, and taken from the budget, after each polling round. */
  const PollInterval: int := 100

  /** Carriage return (13) and line feed (10) end a line. */
  predicate IsTerminator(c: char) {
    c == '\r' || c == '\n'
  }

  /** No character of `s` ends a line. */
  predicate NoTerminator(s: string) {
    forall k :: 0 <= k < |s| ==> !IsTerminator(s[k])
  }

  /** Some marker of a non-null array occurs in `line`. */
  predicate AnyContained(line: string, expected: Markers) {
    expected.Some? && exists k :: 0 <= k < |expected.value| && Contains(line, expected.value[k])
  }

  /** The line is one that `expect` returns: it contains a success or a failure marker. */
  predicate Matches(line: string, success: Markers, failure: Markers) {
    AnyContained(line, success) || AnyContained(line, failure)
  }

  /** How `expect` ends. */
  datatype Outcome =
    | Matched(line: string)
    | StreamClosed
    | ReadFailed
    | TimedOut(success: Markers, failure: Markers)

  /** How draining the ready characters of one round ends. */
  datatype Scanned =
    | Found(line: string, rest: seq<Read>)
    | Closed
    | Errored
    | Pending(acc: string)

  /**
   * Consumes the reads `ready` with the accumulator `acc`: terminators complete a line,
   * empty lines are skipped, a completed line that does not match is
   * discarded; a matching line is returned with the reads not yet consumed.
   */
  function Scan(ready: seq<Read>, acc: string, success: Markers, failure: Markers): Scanned
    decreases |ready|
  {
    if ready == [] then Pending(acc)
    else match ready[0]
      case EndOfStream => Closed
      case ReadError => Errored
      case Char(c) =>
        if !IsTerminator(c) then Scan(ready[1..], acc + [c], success, failure)
        else if acc == [] then Scan(ready[1..], acc, success, failure)
        else if Matches(acc, success, failure) then Found(acc, ready[1..])
        else Scan(ready[1..], [], success, failure)
  }

  /**
   * The polling loop from the state (`input`, `acc`, `remaining`): the
   * outcome and what is left of the input for the next reader of the socket.
   * A round is polled while `remaining > 0`; each unmatched round costs
   * PollInterval.
   */
  function Run(input: Input, acc: string, remaining: int, success: Markers, failure: Markers): (Outcome, Input)
    decreases remaining
  {
    if remaining <= 0 then (TimedOut(success, failure), input)
    else
      var round := if input == [] then [] else input[0];
      var later := if input == [] then [] else input[1..];
      match Scan(round, acc, success, failure)
      case Found(line, rest) => (Matched(line), [rest] + later)
      case Closed => (StreamClosed, later)
      case Errored => (ReadFailed, later)
      case Pending(acc') => Run(later, acc', remaining - PollInterval, success, failure)
  }

  /**
   * `expect(br, success, failure, millis)` on the input `input`, starting
   * with an empty accumulator; a budget that is not positive times out
   * without reading anything.
   */
  function ExpectSpec(input: Input, success: Markers, failure: Markers, millis: int): (r: (Outcome, Input))
    ensures millis <= 0 ==> r == (TimedOut(success, failure), input)
  {
    Run(input, [], millis, success, failure)
  }

  /** The number of polling rounds a budget of `millis` allows: ceil(millis / 100), or 0. */
  function PollRounds(millis: int): (n: nat)
    ensures millis > 0 ==> (n - 1) * PollInterval < millis <= n * PollInterval
    ensures millis <= 0 ==> n == 0
  {
    if millis <= 0 then 0 else (millis + PollInterval - 1) / PollInterval
  }

  /** The first `n` rounds of the input (all of it when it is shorter). */
  function Take(input: Input, n: nat): (r: Input)
    ensures |r| <= n && r <= input
    ensures |r| == n || r == input
  {
    if n <= |input| then input[..n] else input
  }

  /** All reads of the rounds, in order. */
  function Flatten(input: Input): seq<Read> {
    if input == [] then [] else input[0] + Flatten(input[1..])
  }

  /**
   * Java's `for` loop over one expected array: `found` is true when the array
   * is non-null and one of its markers occurs in `line`.
   */
  method ContainsAny(line: string, expected: Markers) returns (found: bool)
    ensures found == AnyContained(line, expected)
  {
    found := false;
    if expected.Some? {
      var markers := expected.value;
      var i := 0;
      while i < |markers| && !found
        invariant 0 <= i <= |markers|
        invariant found <==> exists k :: 0 <= k < i && Contains(line, markers[k])
      {
        found := Contains(line, markers[i]);
        i := i + 1;
      }
    }
  }

  /**
   * `expect`: polls round after round while the budget is positive, drains
   * the ready reads of each round into the accumulator and returns the first
   * matching line, together with the input that is left.
   */
  method Expect(input: Input, success: Markers, failure: Markers, millis: int) returns (outcome: Outcome, left: Input)
    ensures (outcome, left) == ExpectSpec(input, success, failure, millis)
  {
    var sb: string := [];
    var remaining := millis;
    var pending := input;
    while remaining > 0
      invariant Run(pending, sb, remaining, success, failure) == ExpectSpec(input, success, failure, millis)
      decreases remaining
    {
      var round := if pending == [] then [] else pending[0];
      pending := if pending == [] then [] else pending[1..];
      ghost var sb0 := sb;
      var i := 0;
      while i < |round|
        invariant 0 <= i <= |round|
        invariant Scan(round[i..], sb, success, failure) == Scan(round, sb0, success, failure)
      {
        assert round[i..][1..] == round[i + 1..];
        match round[i]
        case EndOfStream =>
          return StreamClosed, pending;
        case ReadError =>
          return ReadFailed, pending;
        case Char(c) =>
          if IsTerminator(c) {
            if sb != [] {
              var hit := ContainsAny(sb, success);
              if !hit {
                hit := ContainsAny(sb, failure);
              }
              if hit {
                return Matched(sb), [round[i + 1..]] + pending;
              }
              sb := [];
            }
          } else {
            sb := sb + [c];
          }
        i := i + 1;
      }
      remaining := remaining - PollInterval;
    }
    return TimedOut(success, failure), pending;
  }

  /** The outcome `expect` gives once scanning the reads it polls ends as `sc`. */
  function OutcomeOf(sc: Scanned, success: Markers, failure: Markers): Outcome {
    match sc
    case Found(line, _) => Matched(line)
    case Closed => StreamClosed
    case Errored => ReadFailed
    case Pending(_) => TimedOut(success, failure)
  }

  /** Scanning `b` after whatever scanning `a` left. */
  function Continue(sc: Scanned, b: seq<Read>, success: Markers, failure: Markers): Scanned {
    match sc
    case Found(line, rest) => Found(line, rest + b)
    case Closed => Closed
    case Errored => Errored
    case Pending(acc) => Scan(b, acc, success, failure)
  }

  /** Scanning is insensitive to how the reads are cut into pieces. */
  lemma {:induction false} ScanAppend(a: seq<Read>, b: seq<Read>, acc: string, success: Markers, failure: Markers)
    ensures Scan(a + b, acc, success, failure) == Continue(Scan(a, acc, success, failure), b, success, failure)
    decreases |a|
  {
    if a != [] {
      assert (a + b)[0] == a[0] && (a + b)[1..] == a[1..] + b;
      match a[0]
      case EndOfStream =>
      case ReadError =>
      case Char(c) =>
        if !IsTerminator(c) {
          ScanAppend(a[1..], b, acc + [c], success, failure);
        } else if acc == [] {
          ScanAppend(a[1..], b, acc, success, failure);
        } else if !Matches(acc, success, failure) {
          ScanAppend(a[1..], b, [], success, failure);
        }
    } else {
      assert a + b == b;
    }
  }

  /**
   * The polling loop sees exactly the reads of the rounds its budget allows,
   * as one stream: the round boundaries and every later round play no part.
   */
  lemma {:induction false} RunIsScanOfBudget(input: Input, acc: string, remaining: int, success: Markers, failure: Markers)
    ensures Run(input, acc, remaining, success, failure).0
         == OutcomeOf(Scan(Flatten(Take(input, PollRounds(remaining))), acc, success, failure), success, failure)
    decreases remaining
  {
    if remaining > 0 {
      var round := if input == [] then [] else input[0];
      var later := if input == [] then [] else input[1..];
      var n := PollRounds(remaining - PollInterval);
      assert PollRounds(remaining) == n + 1;
      assert Flatten(Take(input, n + 1)) == round + Flatten(Take(later, n)) by {
        if input != [] {
          assert Take(input, n + 1)[1..] == Take(later, n);
        }
      }
      ScanAppend(round, Flatten(Take(later, n)), acc, success, failure);
      match Scan(round, acc, success, failure)
      case Found(_, _) =>
      case Closed =>
      case Errored =>
      case Pending(acc') =>
        RunIsScanOfBudget(later, acc', remaining - PollInterval, success, failure);
    }
  }

  /**
   * At most ceil(millis / 100) rounds are polled: the outcome of `expect` does
   * not depend on anything the socket offers later.
   */
  lemma ExpectReadsOnlyBudget(input: Input, success: Markers, failure: Markers, millis: int)
    ensures ExpectSpec(input, success, failure, millis).0
         == ExpectSpec(Take(input, PollRounds(millis)), success, failure, millis).0
  {
    var n := PollRounds(millis);
    RunIsScanOfBudget(input, [], millis, success, failure);
    RunIsScanOfBudget(Take(input, n), [], millis, success, failure);
    assert Take(Take(input, n), n) == Take(input, n);
  }

  /**
   * A line found by scanning is non-empty, free of CR and LF, and matches;
   * the reads after its terminator are left over.
   */
  lemma {:induction false} FoundLine(ready: seq<Read>, acc: string, success: Markers, failure: Markers)
    requires NoTerminator(acc)
    requires Scan(ready, acc, success, failure).Found?
    ensures var sc := Scan(ready, acc, success, failure);
      sc.line != [] && NoTerminator(sc.line) && Matches(sc.line, success, failure) &&
      |sc.rest| < |ready| && sc.rest == ready[|ready| - |sc.rest|..]
    decreases |ready|
  {
    match ready[0]
    case Char(c) =>
      if !IsTerminator(c) {
        FoundLine(ready[1..], acc + [c], success, failure);
      } else if acc == [] {
        FoundLine(ready[1..], acc, success, failure);
      } else if !Matches(acc, success, failure) {
        FoundLine(ready[1..], [], success, failure);
      }
  }

  /**
   * The line `expect` returns is non-empty, holds no CR or LF, and contains a
   * success marker or a failure marker.
   */
  lemma ExpectMatchedLine(input: Input, success: Markers, failure: Markers, millis: int)
    requires ExpectSpec(input, success, failure, millis).0.Matched?
    ensures var line := ExpectSpec(input, success, failure, millis).0.line;
      line != [] && NoTerminator(line) && Matches(line, success, failure)
  {
    var ready := Flatten(Take(input, PollRounds(millis)));
    RunIsScanOfBudget(input, [], millis, success, failure);
    FoundLine(ready, [], success, failure);
  }

  /** `expect` fails with "stream closed" only after reading -1 within its budget. */
  lemma ExpectClosedMeansEndOfStream(input: Input, success: Markers, failure: Markers, millis: int)
    requires ExpectSpec(input, success, failure, millis).0.StreamClosed?
    ensures EndOfStream in Flatten(Take(input, PollRounds(millis)))
  {
    RunIsScanOfBudget(input, [], millis, success, failure);
    ScanClosed(Flatten(Take(input, PollRounds(millis))), [], success, failure);
  }

  lemma {:induction false} ScanClosed(ready: seq<Read>, acc: string, success: Markers, failure: Markers)
    requires Scan(ready, acc, success, failure).Closed?
    ensures EndOfStream in ready
    decreases |ready|
  {
    if ready[0].Char? {
      var c := ready[0].c;
      var acc' := if !IsTerminator(c) then acc + [c] else if acc == [] then acc else [];
      ScanClosed(ready[1..], acc', success, failure);
      assert ready == [ready[0]] + ready[1..];
    }
  }

  // A reference definition: the text cut into lines, and the first line that matches.

  /** The reads are all characters (no end of stream, no failed read). */
  predicate AllChars(ready: seq<Read>) {
    forall k :: 0 <= k < |ready| ==> ready[k].Char?
  }

  /** The characters of reads that are all characters. */
  function TextOf(ready: seq<Read>): string
    requires AllChars(ready)
    decreases |ready|
  {
    if ready == [] then [] else [ready[0].c] + TextOf(ready[1..])
  }

  /**
   * The non-empty lines that terminators complete in `text`, the first of
   * them continuing `acc`; a last line without a terminator is not complete.
   */
  function Lines(text: string, acc: string): seq<string>
    decreases |text|
  {
    if text == [] then []
    else if !IsTerminator(text[0]) then Lines(text[1..], acc + [text[0]])
    else if acc == [] then Lines(text[1..], [])
    else [acc] + Lines(text[1..], [])
  }

  /** The first line that contains a success or a failure marker. */
  function FirstMatch(lines: seq<string>, success: Markers, failure: Markers): Option<string>
    decreases |lines|
  {
    if lines == [] then None
    else if Matches(lines[0], success, failure) then Some(lines[0])
    else FirstMatch(lines[1..], success, failure)
  }

  /** On reads that are all characters, scanning returns the first matching complete line. */
  lemma {:induction false} ScanIsFirstMatch(ready: seq<Read>, acc: string, success: Markers, failure: Markers)
    requires AllChars(ready)
    ensures var sc := Scan(ready, acc, success, failure);
      !sc.Closed? && !sc.Errored? &&
      FirstMatch(Lines(TextOf(ready), acc), success, failure) == (if sc.Found? then Some(sc.line) else None)
    decreases |ready|
  {
    if ready != [] {
      var c := ready[0].c;
      var text := TextOf(ready);
      assert text[0] == c && text[1..] == TextOf(ready[1..]);
      if !IsTerminator(c) {
        ScanIsFirstMatch(ready[1..], acc + [c], success, failure);
      } else if acc == [] {
        ScanIsFirstMatch(ready[1..], acc, success, failure);
      } else if !Matches(acc, success, failure) {
        ScanIsFirstMatch(ready[1..], [], success, failure);
      }
    }
  }

  /**
   * Scanning characters and then a failed read (-1 or an `IOException`):
   * the first matching complete line of the characters when there is one,
   * otherwise the failure of that read.
   */
  lemma ScanStopsAtBadRead(chars: seq<Read>, bad: Read, rest: seq<Read>, acc: string, success: Markers, failure: Markers)
    requires AllChars(chars) && !bad.Char?
    ensures var sc := Scan(chars + [bad] + rest, acc, success, failure);
      match FirstMatch(Lines(TextOf(chars), acc), success, failure)
      case Some(line) => sc.Found? && sc.line == line
      case None => sc == (if bad.EndOfStream? then Closed else Errored)
  {
    assert chars + [bad] + rest == chars + ([bad] + rest);
    ScanAppend(chars, [bad] + rest, acc, success, failure);
    ScanIsFirstMatch(chars, acc, success, failure);
  }

  /**
   * When the budgeted reads hit -1 or a failed read, `expect` returns the
   * first matching complete line before it, and otherwise fails with
   * "stream closed" or the read error.
   */
  lemma ExpectStopsAtBadRead(input: Input, success: Markers, failure: Markers, millis: int,
                             chars: seq<Read>, bad: Read, rest: seq<Read>)
    requires Flatten(Take(input, PollRounds(millis))) == chars + [bad] + rest
    requires AllChars(chars) && !bad.Char?
    ensures ExpectSpec(input, success, failure, millis).0 ==
      match FirstMatch(Lines(TextOf(chars), []), success, failure)
      case Some(line) => Matched(line)
      case None => if bad.EndOfStream? then StreamClosed else ReadFailed
  {
    RunIsScanOfBudget(input, [], millis, success, failure);
    ScanStopsAtBadRead(chars, bad, rest, [], success, failure);
  }

  /**
   * When everything read within the budget is characters, `expect` returns
   * exactly the first complete line of that text that matches, and times out
   * when there is none.
   */
  lemma ExpectIsFirstMatchingLine(input: Input, success: Markers, failure: Markers, millis: int)
    requires AllChars(Flatten(Take(input, PollRounds(millis))))
    ensures var text := TextOf(Flatten(Take(input, PollRounds(millis))));
      ExpectSpec(input, success, failure, millis).0 ==
        match FirstMatch(Lines(text, []), success, failure)
        case Some(line) => Matched(line)
        case None => TimedOut(success, failure)
  {
    var ready := Flatten(Take(input, PollRounds(millis)));
    RunIsScanOfBudget(input, [], millis, success, failure);
    ScanIsFirstMatch(ready, [], success, failure);
  }
}
