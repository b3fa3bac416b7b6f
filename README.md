# WifiConnect, modelled in Dafny

WifiConnect is a small Windows program that runs at session start and joins
one known wireless network:

1. It opens a client handle to the Native Wifi (WLAN) service and lists the
   wireless interfaces.
2. It takes interface 0. If that interface is already connected, it stops.
3. Otherwise it asks for the networks visible on interface 0 and searches them,
   in order, for the first one whose SSID is exactly `NETGEAR41-5G`.
4. If the first match has a signal quality of at least 75, it asks the
   service to connect with that network's stored profile.

Each step is written to a log file, and the exit status gives the result.

The model has four modules:

- `WlanApi` (`wlan_api.dfy`) holds the records the service exchanges with
  the program:
  - interface records and their states;
  - `DOT11_SSID` and available-network records;
  - the connection parameters;
  - the calls the program makes.

  It also has the SSID decoder (`getNetworkSsidString`) and the
  `(int)` cast of a `DWORD` count that bounds every loop over a list.
- `Trace` (`trace.dfy`) holds the log as a sequence of abstract events:
  - the interface-state labels (`stateToString`);
  - the named flag bits;
  - `printInterfaces` and `printNetworkList`, as loops that append one
    event per record.
- `Evaluator` (`evaluator.dfy`) holds the program's target and threshold,
  the first-match search and the inclusive quality gate.
- `Director` (`director.dfy`) holds the decision block of `main`, as a loop
  with the source's `found` flag, `break` and early return. It also holds the
  whole of `main`, with its start-up steps, its clean-up and its exit status.

The service is not modelled. Each call's result is an input (`WlanAnswers`).
Each call the program makes is recorded, with its arguments, in a sequence
of `WlanCall`s. This lets the model state facts about the calls:

- which interface is used;
- how many connects are attempted;
- what is released.

Each imperative routine is a method proved equal to a specification
function:

- `Decide` is proved equal to `Decision`;
- `Run` to `Program`;
- `PrintNetworkList` to `NetworkListLines`;
- `PrintInterfaces` to `InterfaceListLines`.

The lemmas state the program's properties about those functions.

The model follows the code at two points where a reader might expect
otherwise:

- **Clean-up.** The handle is closed and the interface list released only
  when `main` reaches its end. Every early return skips both. The network
  list is never released (WifiConnect/WifiConnect.cpp:219-223).
- **Empty interface list.** There is no separate outcome for an empty
  interface list. `main` reads interface 0 without checking the count, so a
  non-empty list is a precondition.

## Model

| member | source | states |
|---|---|---|
| WlanApi.SsidOf | WifiConnect/WifiConnect.cpp:85-87 | the decoded SSID is exactly `uSSIDLength` bytes, taken from the front of the buffer, whatever their values |
| WlanApi.AsInt32 | WifiConnect/WifiConnect.cpp:182 | the `(int)` conversion of a DWORD: in 32-bit signed range; equal to the value below 2^31, negative from 2^31 upwards |
| WlanApi.ScanBound | WifiConnect/WifiConnect.cpp:182 | a loop `j < (int)count` visits exactly `count` entries when count is below 2^31, and none from 2^31 upwards |
| Evaluator.LengthNotTerminator | WifiConnect/WifiConnect.cpp:85-87 | a zero byte within the length survives decoding, so the decoded SSID differs from a terminator scan of the buffer |
| Evaluator.TerminatedPrefix | WifiConnect/WifiConnect.cpp:85-87 | reference decoding by terminator: a zero-free prefix of the buffer, stopped by a zero byte or the buffer's end |
| Trace.StateToString | WifiConnect/WifiConnect.cpp:40-61 | total: every state, named or not, gets a non-empty label, the source's own text |
| Trace.UnknownLabelOnlyForUnrecognised | WifiConnect/WifiConnect.cpp:40-61 | the label is "Unknown state" if and only if the value is not one of the eight named states |
| Trace.StateLabelsIdentifyState | WifiConnect/WifiConnect.cpp:40-61 | equal labels mean equal named states: the label identifies the state |
| Trace.FlagNames | WifiConnect/WifiConnect.cpp:108-116 | "Currently connected" is named iff the 0x1 bit (WLAN_AVAILABLE_NETWORK_CONNECTED) is set and "Has profile" iff the 0x2 bit (WLAN_AVAILABLE_NETWORK_HAS_PROFILE) is set, in that order |
| Trace.Summary | WifiConnect/WifiConnect.cpp:98-118 | the intended network entry: the profile name as text, decoded SSID, connectable or the not-connectable reason, raw flags with their names, and quality (the source writes the profile name's address; see Findings) |
| Trace.NetworkEntryAt | WifiConnect/WifiConnect.cpp:93-120 | entry j of the printed network list describes network j |
| Trace.NetworkListLines | WifiConnect/WifiConnect.cpp:89-121 | the printed network list is the count header followed by one entry per visited network |
| Trace.PrintNetworkList | WifiConnect/WifiConnect.cpp:89-121 | the loop writes exactly the count header and then the entries for the networks below `(int)count` |
| Trace.InterfaceEntryAt | WifiConnect/WifiConnect.cpp:69-82 | entry i of the intended interface list describes interface i: its GUID, its description as text and its state's label (the source writes the GUID text's and description's addresses; see Findings) |
| Trace.SummaryAsWritten | WifiConnect/WifiConnect.cpp:96-118 | the network entry as written: the profile name's address, then the same SSID, connectability, flags and quality as the intended entry |
| Trace.ProfileNameNotLogged | WifiConnect/WifiConnect.cpp:96 | as written, renaming a network's profile leaves its log entry unchanged, while the intended entry changes |
| Trace.SummaryNamesProfile | WifiConnect/WifiConnect.cpp:96 | the intended entry names the profile: equal entries mean equal profile names |
| Trace.InterfaceEntryWritten | WifiConnect/WifiConnect.cpp:74-81 | the interface entry as written: its index, the addresses of the GUID text buffer and of the description, and the state's label |
| Trace.InterfaceTextNotLogged | WifiConnect/WifiConnect.cpp:74-81 | as written, two interfaces in the same state give the same entry whatever their GUIDs and descriptions, while intended entries with different descriptions differ |
| Trace.InterfaceEntryNamesInterface | WifiConnect/WifiConnect.cpp:74-81 | the intended entry identifies the interface: equal entries mean equal GUID and description |
| Trace.InterfaceListLines | WifiConnect/WifiConnect.cpp:63-83 | the printed interface list is the count and current-index header followed by one entry per visited interface |
| Trace.PrintInterfaces | WifiConnect/WifiConnect.cpp:63-83 | the loop writes exactly the header and then the entries for the interfaces below `(int)count` |
| Evaluator.AsciiBytes | WifiConnect/WifiConnect.cpp:177 | the bytes of a C string literal: one per character, equal to its code, none zero |
| Evaluator.ProgramConfigValid | WifiConnect/WifiConnect.cpp:177-180 | the program's target is 12 bytes long and has no zero byte; the threshold is 75 |
| Evaluator.FirstMatch | WifiConnect/WifiConnect.cpp:181-209 | None iff no entry in the range carries the target; otherwise the least index in the range whose SSID equals the target |
| Evaluator.Evaluate | WifiConnect/WifiConnect.cpp:181-209 | not found iff no visited entry matches; otherwise the first match, judged weak iff its quality is below the threshold and strong iff at least the threshold |
| Evaluator.FirstMatchIgnoresLater | WifiConnect/WifiConnect.cpp:182-209 | two lists that agree up to the first match give the same first match, whatever follows it |
| Evaluator.EvaluationIgnoresLater | WifiConnect/WifiConnect.cpp:182-209 | the evaluation is unchanged by replacing or adding records after the first match |
| Evaluator.GateIsInclusive | WifiConnect/WifiConnect.cpp:188-191 | a first match whose quality equals the threshold is strong |
| Evaluator.EmbeddedZeroNeverMatches | WifiConnect/WifiConnect.cpp:184 | a network whose decoded SSID holds a zero byte never equals the C-string target |
| Evaluator.MatchIsCaseExact | WifiConnect/WifiConnect.cpp:177-184 | matching is byte-exact: an SSID "netgear41-5g" does not match "NETGEAR41-5G" |
| Director.ExitStatus | WifiConnect/WifiConnect.cpp:128-224 | exit 1 exactly for the failure outcomes; exit 0 for already connected and for falling off the end of `main` |
| Director.ProfileConnectionParameters | WifiConnect/WifiConnect.cpp:193-200 | the connect request: profile mode, the record's profile name and BSS type, no SSID, no BSSID list, no flags |
| Director.Decide | WifiConnect/WifiConnect.cpp:157-215 | for a NUL-free target, the loop with `found`, `break` and the early return on a failed connect produces exactly the outcome, calls and log of `Decision` |
| Director.CallsUseInterfaceZero | WifiConnect/WifiConnect.cpp:158-209 | every call of the decision is a list request or a connect on the program's handle and interface 0's GUID; at most two calls, the connect only second |
| Director.AlreadyConnectedEndsRun | WifiConnect/WifiConnect.cpp:162-165 | the outcome is "already connected" iff interface 0 is connected; then no call is made, exit is 0, and only the note is logged; otherwise a list request for interface 0 comes first |
| Director.ListFailureEndsRun | WifiConnect/WifiConnect.cpp:168-173 | a rejected list request ends the decision with that status, no further call, and exit 1 |
| Director.ConnectIffStrongFirstMatch | WifiConnect/WifiConnect.cpp:188-201 | a connect is attempted iff the list request succeeds and the first match is strong; its request uses the matched record's profile name and BSS type, with no SSID or BSSID list |
| Director.OutcomeFollowsEvaluation | WifiConnect/WifiConnect.cpp:181-215 | after a successful list request the printed list opens the log, and the outcome is not found, too weak with the matched quality, connected, or the connect's error |
| Director.FailsOnlyOnServiceError | WifiConnect/WifiConnect.cpp:170-215 | the decision gives exit 1 iff the list request fails or a strong match's connect fails; not found and too weak are successes |
| Director.DecisionIgnoresLaterDuplicates | WifiConnect/WifiConnect.cpp:182-209 | records after the first match, a stronger duplicate among them, change neither the outcome nor the calls |
| Director.DecisionOnlyReadsFirstInterface | WifiConnect/WifiConnect.cpp:158-159 | the interfaces after interface 0 never change the decision |
| Director.Program | WifiConnect/WifiConnect.cpp:124-224 | the exit status is that of the outcome, and 0 exactly for already connected and the fall-through outcomes |
| Director.StartUpSteps | WifiConnect/WifiConnect.cpp:126-155 | no log path: nothing is called or logged. Otherwise WlanOpenHandle(2) comes first and the log starts with the time. A failed open or enumeration ends the run with its status. Past enumeration, the outcome is the decision's and the printed interface list follows the start-up lines |
| Director.CleanUpCalls | WifiConnect/WifiConnect.cpp:219-223 | a call list holding no release call gains the interface-list release and the handle close, and still no network-list release, when the fall-through clean-up is appended |
| Director.CleanUpOnFallThroughOnly | WifiConnect/WifiConnect.cpp:217-223 | the handle is closed and the interface list released iff the run reaches the end of `main`; the network list is never released |
| Director.Run | WifiConnect/WifiConnect.cpp:124-224 | for a NUL-free target, the entry point, early returns included, produces exactly the exit status, outcome, calls and log of `Program` |

## Left out

- `getProgramUserPath` uses Windows Shell calls, so its result is the boolean input `logPathFound`. The console messages around it are not modelled.
- `currentDateTime` reads the clock and formats text, so its line in the log is the abstract event `Timestamp`.
- Failure to open the log file is not modelled: an `std::ofstream` that fails to open drops writes silently, and the model's log always records them.
- The log is abstract events, not formatted text. Left out for the same reason:
  - the `StringFromGUID2` conversion of an interface GUID, and the "StringFromGUID2 failed" line;
  - the literal prefixes of each line;
  - the separators.
- The WLAN functions (`WlanOpenHandle`, `WlanEnumInterfaces`, `WlanGetAvailableNetworkList`, `WlanConnect`, `WlanFreeMemory`, `WlanCloseHandle`) are foreign calls. Their status results and returned records are inputs. The model records which calls are made, not what they do.
- The numeric values of the interface-state enumeration are not modelled. A state outside the eight named ones is `Unrecognised`.
- Director.Decide, Director.Run: an empty interface list is excluded by precondition (`DecisionInputsValid`, `RunInputsValid`). The source reads interface 0 without checking the count, so the source defines no result for that input.
- Director.CleanUpOnFallThroughOnly: states the clean-up the code performs. Releasing resources on every exit path is not claimed, because the code does not do it.
- Trace.Summary, Trace.InterfaceEntryAt: the log these entries build holds the profile name, the interface GUID and the description as text, the intended behaviour. As written, the source writes these WCHAR arrays to a narrow stream, and before C++20 the only inserter that applies is the `const void*` one. So the real log holds their addresses, modelled by Trace.SummaryAsWritten and Trace.InterfaceEntryWritten (see Findings). From C++20 that inserter is deleted and the code does not compile.
- Director.Decide, Director.Run: require a target without a zero byte (`Config.Valid`), as the program's C string literal is (Evaluator.ProgramConfigValid). Only then is the byte-sequence comparison the source's `const char*` to `std::string` comparison.
- No `connectable` or profile-name check is made before connecting, because the code makes none.

## Findings

| source | as written | input that shows it | evidently intended | confidence | as-written member | corrected member |
|---|---|---|---|---|---|---|
| WifiConnect/WifiConnect.cpp:96 | `log << network->strProfileName` writes a WCHAR array to a narrow `std::ofstream`, which picks the `const void*` inserter and logs the array's address | any network whose profile name is not empty, e.g. "HomeProfile": the entry shows a hexadecimal address | the log shows the profile name | not executed; high | Trace.ProfileNameNotLogged | Trace.SummaryNamesProfile |
| WifiConnect/WifiConnect.cpp:79-80 | `guidString` and `info->strInterfaceDescription` are WCHAR arrays written to the same narrow stream, so the log holds their addresses | any interface record: the GUID and description lines show addresses, the GUID line the same one for every interface | the log shows the GUID text and the description | not executed; high | Trace.InterfaceTextNotLogged | Trace.InterfaceEntryNamesInterface |
