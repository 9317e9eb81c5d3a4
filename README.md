# OpenVPN driver model

This project models `OpenVpnServiceImpl`, the Kura service that runs an
OpenVPN client process and drives it through OpenVPN's management
interface. `start(username, password)` does the following:

- it refuses when a process is already running or a credential is null or empty;
- it resolves the configuration path and prepares the log file and its writer;
- it launches `openvpn` and starts the two gobbler threads;
- it connects to the management socket on 127.0.0.1:50002;
- it runs the handshake: `state on`, wait for the hold notice, `hold release`, wait for the password request, send the username and the password, then wait for `CONNECTED,SUCCESS` or the verification failure;
- it reads the tunnel address from the line that reports the connection, and closes the management session.

Any `KuraException` raised once the launch has begun runs `cleanup()` before
it reaches the caller. `stop()` is `cleanup()`. `isRunning()` and
`getNetInterfaceIpAddress()` report the process and the address it got.

The modules follow the program:

- `Text` holds the parts of `java.lang.String` the driver relies on: substring containment, `lastIndexOf`, and `split(",")`, which drops trailing empty fields.
- `Address` holds `findNetInterfaceIpddress`.
- `Expect` holds the `expect` polling loop. It is an imperative method proved against a pure specification, and against an independent "first matching complete line" definition.
- `Session` holds the driver's fields as a `Session` value, the `Env` record, and the pure specification of `closeManageSession`, `cleanup`, the handshake and `start`.
- `Driver` holds the class `OpenVpnService`. Its fields are the ones the Java object assigns, and each method is proved against the `Session` function that specifies it.
- `Scenarios` holds end-to-end runs of `start` against a scripted management interface.

A few conventions:

- Each handle is modelled as present (`true` or `Some`) or null.
- The management socket's input is a sequence of polling rounds. A round holds the reads that `ready()` allows before the 100 ms sleep.
- Everything written to the management writer is kept in `sent`.
- Between calls the management socket, its reader and its writer are null, and an address is stored only while a process is tracked. The constructor establishes this invariant, and `start` and `stop` keep it. `start` is specified for the states where it holds.

In the code, not every failure after the process is spawned ends in
cleanup. A failed `new Socket(...)` is only logged, so `manageSocket` stays
null. `manageSocket.isConnected()` then throws a `NullPointerException`,
and the `catch (KuraException e)` that runs `cleanup()` does not catch it.
The model gives this path the result `Crashed`: the process, its gobblers
and the log writer stay tracked, and a stored address survives
(`Session.CrashLeavesProcessTracked`).

## Model

| member | source | states |
|---|---|---|
| Text.LastIndexOf | src/main/java/fr/rtone/kura/vpn/impl/OpenVpnServiceImpl.java:315-316 | `lastIndexOf`: -1 exactly when the marker does not occur, otherwise an occurrence with no later occurrence |
| Text.SplitAll | src/main/java/fr/rtone/kura/vpn/impl/OpenVpnServiceImpl.java:318 | the comma-separated fields: at least one, none containing a comma, and joined by commas they give back the text |
| Text.JavaSplit | src/main/java/fr/rtone/kura/vpn/impl/OpenVpnServiceImpl.java:318 | `split(",")`: the text itself when it has no comma; otherwise a prefix of the fields that is empty or ends in a non-empty field, where every field dropped is empty |
| Text.SplitAllField | src/main/java/fr/rtone/kura/vpn/impl/OpenVpnServiceImpl.java:318 | a comma-free field followed by a comma splits off as the first field |
| Address.FindNetInterfaceIpAddress | src/main/java/fr/rtone/kura/vpn/impl/OpenVpnServiceImpl.java:312-326 | null when the line lacks `CONNECTED,SUCCESS`; an address it returns comes from a line with the marker and holds no comma |
| Address.MarkerIsLast | src/main/java/fr/rtone/kura/vpn/impl/OpenVpnServiceImpl.java:315 | an occurrence of the marker is the one `lastIndexOf` finds when what follows it does not start with `C` and holds no further marker |
| Address.AddressAfterMarker | src/main/java/fr/rtone/kura/vpn/impl/OpenVpnServiceImpl.java:315-319 | the address is the non-empty field right after `CONNECTED,SUCCESS,`, whatever precedes the marker and whatever fields follow, provided no later marker occurs |
| Address.NoAddressAfterMarker | src/main/java/fr/rtone/kura/vpn/impl/OpenVpnServiceImpl.java:318-325 | when only commas follow the last marker, `split` leaves two fields and the caught `IndexOutOfBoundsException` yields null |
| Address.NoMarkerWithoutC | src/main/java/fr/rtone/kura/vpn/impl/OpenVpnServiceImpl.java:315-316 | a line without an upper-case `C` has no marker, so `lastIndexOf` gives -1 and there is no address |
| Address.ExampleAddress | src/main/java/fr/rtone/kura/vpn/impl/OpenVpnServiceImpl.java:312-326 | a timestamped status line yields `10.8.0.5` |
| Address.ExampleNoAddress | src/main/java/fr/rtone/kura/vpn/impl/OpenVpnServiceImpl.java:318-325 | the bare marker, and the marker with one trailing comma, yield null |
| Expect.ContainsAny | src/main/java/fr/rtone/kura/vpn/impl/OpenVpnServiceImpl.java:356-373 | the loop over one expected array is true exactly when the array is non-null and one of its markers occurs in the line |
| Expect.Expect | src/main/java/fr/rtone/kura/vpn/impl/OpenVpnServiceImpl.java:335-389 | the nested polling loops compute `ExpectSpec`: the outcome and the input left after the returned line |
| Expect.ExpectSpec | src/main/java/fr/rtone/kura/vpn/impl/OpenVpnServiceImpl.java:340-341 | a budget that is not positive times out without reading anything |
| Expect.PollRounds | src/main/java/fr/rtone/kura/vpn/impl/OpenVpnServiceImpl.java:340-382 | a budget of `millis` allows ceil(millis / 100) rounds of 100 ms |
| Expect.RunIsScanOfBudget | src/main/java/fr/rtone/kura/vpn/impl/OpenVpnServiceImpl.java:341-382 | the polling loop's outcome is the outcome of scanning, as one stream, the rounds the budget allows |
| Expect.ExpectReadsOnlyBudget | src/main/java/fr/rtone/kura/vpn/impl/OpenVpnServiceImpl.java:341-382 | the outcome depends only on the first ceil(millis / 100) rounds |
| Expect.ExpectMatchedLine | src/main/java/fr/rtone/kura/vpn/impl/OpenVpnServiceImpl.java:349-373 | a returned line is non-empty, holds no CR or LF, and contains a success or a failure marker |
| Expect.ExpectClosedMeansEndOfStream | src/main/java/fr/rtone/kura/vpn/impl/OpenVpnServiceImpl.java:343-347 | "stream closed" is raised only after `read()` returned -1 within the budget |
| Expect.ExpectStopsAtBadRead | src/main/java/fr/rtone/kura/vpn/impl/OpenVpnServiceImpl.java:341-382 | when the budgeted reads hit -1 or a failed `read()`, the result is the first matching complete line before it, and otherwise "stream closed" or the read error; with `ExpectClosedMeansEndOfStream` and `ExpectIsFirstMatchingLine`, "stream closed" comes exactly when -1 is read within the budget before any matching line |
| Expect.ScanIsFirstMatch | src/main/java/fr/rtone/kura/vpn/impl/OpenVpnServiceImpl.java:349-378 | on characters only, scanning returns the first matching complete line of the text, and empty lines are skipped |
| Expect.ExpectIsFirstMatchingLine | src/main/java/fr/rtone/kura/vpn/impl/OpenVpnServiceImpl.java:335-389 | when the budgeted rounds hold only characters, `expect` returns the first complete line that matches, or times out when there is none |
| Session.ExpectError | src/main/java/fr/rtone/kura/vpn/impl/OpenVpnServiceImpl.java:240-388 | an `expect` without a line fails `start`: "stream closed" (raised at 345-347) and the timeout (383-388) pass through the catch at 248-249, and a failed read becomes "Exception using OpenVPN manage socket" (240-243); none is a refusal or "Connect failed" |
| Session.Wires | src/main/java/fr/rtone/kura/vpn/impl/OpenVpnServiceImpl.java:328-333 | each command is written followed by a line feed, in order |
| Session.Handshake | src/main/java/fr/rtone/kura/vpn/impl/OpenVpnServiceImpl.java:210-239 | a handshake that stops early fails with an `expect` failure, never a refusal or "Connect failed" |
| Session.HandshakeProgress | src/main/java/fr/rtone/kura/vpn/impl/OpenVpnServiceImpl.java:210-233 | the commands sent are a prefix of the four handshake commands: two once the hold notice arrived, all four once the password request arrived, and all four whenever a verdict is reached |
| Session.HandshakeVerdict | src/main/java/fr/rtone/kura/vpn/impl/OpenVpnServiceImpl.java:229-239 | a connected handshake ends on a line with `CONNECTED,SUCCESS`; a rejected one on a line with the verification failure and without that marker |
| Session.ReportedAddress | src/main/java/fr/rtone/kura/vpn/impl/OpenVpnServiceImpl.java:304-310 | an address is reported only while running, and then it is the stored one |
| Session.AfterCloseManageSession | src/main/java/fr/rtone/kura/vpn/impl/OpenVpnServiceImpl.java:451-470 | the socket, reader and writer end null; `exit` is sent exactly when a writer was present; nothing else changes |
| Session.AfterCleanup | src/main/java/fr/rtone/kura/vpn/impl/OpenVpnServiceImpl.java:424-449 | every handle ends null with no address, and `exit` is sent exactly when a management writer was present |
| Session.CleanupIdempotent | src/main/java/fr/rtone/kura/vpn/impl/OpenVpnServiceImpl.java:258-260 | a second `stop()` changes nothing |
| Session.ConverseSpec | src/main/java/fr/rtone/kura/vpn/impl/OpenVpnServiceImpl.java:210-251 | the handshake block never crashes and never fails with a refusal |
| Session.LaunchSpec | src/main/java/fr/rtone/kura/vpn/impl/OpenVpnServiceImpl.java:96-251 | a failure after the launch has begun is never a refusal |
| Session.GuardedLaunchSpec | src/main/java/fr/rtone/kura/vpn/impl/OpenVpnServiceImpl.java:96-255 | every `KuraException` raised after the launch began leaves the driver clean |
| Session.StartSpec | src/main/java/fr/rtone/kura/vpn/impl/OpenVpnServiceImpl.java:52-256 | "Already running" while running, and invalid credentials next, each with the state unchanged. Every refusal leaves the state unchanged, and every later failure leaves it clean. A start that does not fail leaves the process, gobblers and log writer in place; a successful one closes the management session. A crash leaves the socket null and keeps the old address and output. The invariant is preserved. |
| Session.StartedSession | src/main/java/fr/rtone/kura/vpn/impl/OpenVpnServiceImpl.java:210-251 | a successful start saw the connection report, stored the address of that line, and sent the four commands and `exit` |
| Session.RejectedSession | src/main/java/fr/rtone/kura/vpn/impl/OpenVpnServiceImpl.java:234-255 | "Connect failed" carries the verification-failure line; the four commands and `exit` were sent, and the driver ends clean with no address |
| Session.CrashLeavesProcessTracked | src/main/java/fr/rtone/kura/vpn/impl/OpenVpnServiceImpl.java:165-191 | when the socket cannot be opened, `start` crashes with the socket still null, the new process still running and the log writer open |
| Scenarios.ScriptHandshake | src/main/java/fr/rtone/kura/vpn/impl/OpenVpnServiceImpl.java:210-233 | when the server sends the hold notice, the password request and a result line, the handshake reaches that line |
| Scenarios.SmoothStart | src/main/java/fr/rtone/kura/vpn/impl/OpenVpnServiceImpl.java:52-256 | with every file, process and socket operation succeeding, `start` from a clean driver is the handshake on the script |
| Scenarios.ConnectScenario | src/main/java/fr/rtone/kura/vpn/impl/OpenVpnServiceImpl.java:52-256 | a server that connects with `CONNECTED,SUCCESS,<address>...`, where no later field holds the marker, makes `start` succeed and report that address; the driver sent the four commands and `exit` |
| Scenarios.RejectScenario | src/main/java/fr/rtone/kura/vpn/impl/OpenVpnServiceImpl.java:229-255 | a server that answers with the verification failure makes `start` fail with "Connect failed" on that line, leaving the driver clean with no address |
| Driver.OpenVpnService.constructor | src/main/java/fr/rtone/kura/vpn/impl/OpenVpnServiceImpl.java:33-42 | a new driver has every field null and satisfies the invariant |
| Driver.OpenVpnService.IsRunning | src/main/java/fr/rtone/kura/vpn/impl/OpenVpnServiceImpl.java:292-302 | running exactly when a process is tracked and `exitValue()` throws |
| Driver.OpenVpnService.GetNetInterfaceIpAddress | src/main/java/fr/rtone/kura/vpn/impl/OpenVpnServiceImpl.java:304-310 | the stored address while running, null otherwise |
| Driver.OpenVpnService.SendCommand | src/main/java/fr/rtone/kura/vpn/impl/OpenVpnServiceImpl.java:328-333 | appends the command and a line feed to what the writer sent |
| Driver.OpenVpnService.ExpectLine | src/main/java/fr/rtone/kura/vpn/impl/OpenVpnServiceImpl.java:335-389 | `expect` on the management reader: the outcome of `ExpectSpec`, and the reader keeps what follows the returned line |
| Driver.OpenVpnService.CloseManageSession | src/main/java/fr/rtone/kura/vpn/impl/OpenVpnServiceImpl.java:451-470 | the new state is `AfterCloseManageSession` of the old one |
| Driver.OpenVpnService.Cleanup | src/main/java/fr/rtone/kura/vpn/impl/OpenVpnServiceImpl.java:424-449 | the new state is `AfterCleanup` of the old one, and the invariant holds |
| Driver.OpenVpnService.Stop | src/main/java/fr/rtone/kura/vpn/impl/OpenVpnServiceImpl.java:258-260 | the driver ends clean, and for any liveness it is not running and reports no address |
| Driver.OpenVpnService.RunHandshake | src/main/java/fr/rtone/kura/vpn/impl/OpenVpnServiceImpl.java:210-239 | the outcome, the commands sent and the input left are those of `Handshake` |
| Driver.OpenVpnService.Converse | src/main/java/fr/rtone/kura/vpn/impl/OpenVpnServiceImpl.java:210-251 | the new state and the result are those of `ConverseSpec` |
| Driver.OpenVpnService.Launch | src/main/java/fr/rtone/kura/vpn/impl/OpenVpnServiceImpl.java:96-251 | the new state and the result are those of `LaunchSpec` |
| Driver.OpenVpnService.TryLaunch | src/main/java/fr/rtone/kura/vpn/impl/OpenVpnServiceImpl.java:96-255 | the new state and the result are those of `GuardedLaunchSpec` |
| Driver.OpenVpnService.Start | src/main/java/fr/rtone/kura/vpn/impl/OpenVpnServiceImpl.java:52-256 | called between operations, when the invariant holds, the new state and the result are those of `StartSpec`, and the invariant holds again |

## Left out

- `setConfiguration` and `getConfiguration` (lines 262-290) only write and read a file. They are not modelled.
- The two gobbler threads (lines 106-152) copy the process's output into the log file. Their bodies, their log writes and their concurrency with `start` are not modelled; only the handles are tracked.
- `Thread.sleep` and `InterruptedException` are not modelled: the sleeps at lines 155, 177 and 380, and the failures at lines 156-162, 178-184 and 244-247. Time is modelled only as the 100 ms rounds of `expect`.
- The commands of `Runtime.exec`, file creation, `getCanonicalPath` and the socket operations are not modelled. Whether each succeeds is a field of `Env`.
- A process's liveness (`exitValue()` throwing) is the parameter `alive`.
- `Driver.OpenVpnService.SendCommand`: an `IOException` from `write` or `flush` is not modelled; every write succeeds. In `start` such an exception becomes "Exception using OpenVPN manage socket", and in `closeManageSession` it is only logged.
- `Driver.OpenVpnService.Cleanup`: `process.destroy()`, `interrupt()` on the gobblers, and closing the log writer and the socket are not modelled. Each handle only becomes null. An `IOException` while closing is only logged.
- The exception messages and `KuraErrorCode` values are represented by the `StartError` constructors, not by their texts. Logging is not modelled.
- The `openVpnConfigFile == null` check (lines 62-64) is not modelled, because the static initialiser always sets the file.
- The "Cannot connect to manage socket" branch (lines 186-191) is not modelled. Once `new Socket(...)` succeeds the socket is connected, and when it fails the `NullPointerException` at line 186 comes first (`Crashed`).
- The command line given to `openvpn` (lines 91-94) and the management address and port are not modelled. Only whether the launch and the connection succeed is modelled.
- `Expect.Expect`: an `IOException` from `ready()` is not modelled separately from one from `read()`; both are `ReadError`. The `char` cast of the value `read()` returns is a `char` directly.
- `VpnService.java` and `VpnClient.java` declare the interface and a client of it; they are not part of this model.
