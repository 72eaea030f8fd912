# NamedPipeTools core, modelled in Dafny

NamedPipeTools is a pair of command-line programs, a client and a server. They move a byte stream through a Windows named pipe, in one direction per run. This project models the three parts of it that are decision logic rather than I/O:

- **The server's access-control descriptor builder** (`security.dfy`, `logon_id.dfy`). `Security.Get` maps a security mode (Default, CurrentUser, CurrentSession, LocalUsers, Everyone) and a pipe direction to one of three results: no descriptor (null), an ordered list of Allow rules, or a `NotSupportedException`. CurrentSession needs the caller's logon-session SID. `LogonId.Get` finds it by scanning a token's group list for the first group whose attributes carry both `SE_GROUP_LOGON_ID` bits. The scan allocates an unmanaged buffer and frees it on every path.
- **The client's direct-handle path** (`native.dfy`):
  - the `EFileAccess` masks, and the access mask requested for each direction;
  - `CreateFile`, which never returns an invalid handle;
  - `Open`, which refuses every direction except In and Out;
  - `WaitNamedPipeAsync`, which retries `WaitNamedPipe`. After "file not found" (2) it backs off 500 ms, and after "semaphore timeout" (121) 250 ms. Any other error is fatal. Cancellation can arrive at the loop check or during a delay.
- **The shared front end** (`app.dfy`):
  - the canonical pipe path `\\.\pipe\<name>`;
  - the direction of each verb;
  - the choice between a standard stream and a file for `--file`;
  - the subscribe/always-unsubscribe discipline of `VerbHandler` for the Ctrl+C handler;
  - the exit codes of `Main`.

`platform.dfy` holds the .NET and Win32 types these modules share. The OS is never called. Its replies are inputs:

- a `TokenView` per token, for what `GetTokenInformation` reports;
- a `FileSystem` function, for `CreateFile`;
- a script of `Round`s, for what `WaitNamedPipe` and the cancellation token do in each iteration of the poll loop.

The poll loop is an imperative method proved equal to the recursive specification `Poll`. The lemmas about `Poll` give the poller's guarantees:

- the total delay is 500 ms per "not found" failure plus 250 ms per "timed out" failure;
- attempts and delays alternate, so the poller never busy-spins;
- only the last attempt can end the run;
- a cancelled run makes no OS call after the cancellation is seen.

## Model

| member | source | states |
|---|---|---|
| LogonId.LogonGroupIffTopBits | NamedPipeServer/Security.cs:103 | the attribute test `(attr & 0xC0000000) == 0xC0000000` holds exactly when the top two bits are set, i.e. for unsigned values from 0xC0000000 up |
| LogonId.FirstLogonSidIsFirstMatch | NamedPipeServer/Security.cs:100-109 | the scan's result is the SID of the lowest-index group carrying SE_GROUP_LOGON_ID; it is null exactly when no group carries it |
| LogonId.FindLogonSid | NamedPipeServer/Security.cs:100-109 | the `for` loop with its early return computes that first-match SID |
| LogonId.NativeHeap.AllocHGlobal | NamedPipeServer/Security.cs:87 | allocation adds one fresh block of the requested size and leaves the others alone; the allocation counter goes up by one |
| LogonId.NativeHeap.FreeHGlobal | NamedPipeServer/Security.cs:113 | freeing removes exactly that block |
| LogonId.Get | NamedPipeServer/Security.cs:82-115 | returns null when the second GetTokenInformation call fails, else the first logon-group SID; exactly one buffer is allocated, and the set of live unmanaged blocks afterwards equals the set before, so the buffer is freed on every exit path |
| Security.GetPipeRights | NamedPipeServer/Security.cs:122-135 | In grants Write but not Read, Out grants Read but not Write; both grant ReadAttributes, ReadExtendedAttributes and AccessSystemSecurity and never FullControl; InOut, and only InOut, throws NotSupportedException |
| Security.PipeRightsByDirection | NamedPipeServer/Security.cs:126-130 | the exact flag sets: In = Write, ReadPermissions, ReadAttributes, ReadExtendedAttributes, AccessSystemSecurity; Out = Read, ReadAttributes, ReadExtendedAttributes, AccessSystemSecurity |
| Security.Descriptor | NamedPipeServer/Security.cs:137-181 | null descriptor exactly for Default; otherwise 2 or 3 rules, starting with CreatorOwner then BuiltinAdministrators with FullControl; every rule is Allow; a third rule belongs to the mode's principal and never has FullControl; the only error is NotSupported and only for InOut; any one-way direction succeeds |
| Security.Get | NamedPipeServer/Security.cs:137-181 | the rules added one by one equal `Descriptor` for the logon SID that CurrentSession resolves (the thread-effective token's, else the current identity's); CurrentSession looks up the thread-effective token and, only when that yields no SID, the current identity's token (one allocation per lookup); no other mode allocates, so no other mode looks up a token; no unmanaged block is leaked |
| Security.CurrentUserIsFixedRulesOnly | NamedPipeServer/Security.cs:153-179 | CurrentUser yields exactly the two fixed rules for every direction, InOut included, because the switch has no case for it |
| Security.WellKnownPolicyAddsOneRule | NamedPipeServer/Security.cs:166-177 | LocalUsers and Everyone append exactly one Allow rule, for LocalSid and WorldSid respectively, carrying the direction's rights; with InOut they throw NotSupported |
| Security.CurrentSessionGrantsLogonSid | NamedPipeServer/Security.cs:155-163 | CurrentSession with a resolved logon SID grants it the direction's rights after the fixed two rules; for a bidirectional pipe it throws NotSupportedException |
| Security.CurrentSessionUnresolvedIsCurrentUser | NamedPipeServer/Security.cs:155-163 | with no logon SID, CurrentSession gives the same result as CurrentUser and never fails, even for InOut |
| Security.SessionLookupFailureDegrades | NamedPipeServer/Security.cs:155-163 | when both token lookups return null, the descriptor is the two fixed rules alone |
| Security.SessionLogonSidPrefersThreadToken | NamedPipeServer/Security.cs:157-158 | the thread-effective token's SID wins; the current identity's SID is used exactly when that lookup is null; a SID is found iff either lookup finds one |
| Security.EveryoneOutboundPrincipals | NamedPipeServer/Security.cs:144-178 | Everyone on an Out pipe names exactly CreatorOwner, BuiltinAdministrators and World, and World may read but not write |
| Native.GenericMaskValues | NamedPipeClient/Native.cs:58-69 | FILE_GENERIC_READ is 0x20089, FILE_GENERIC_WRITE is 0x20116, and they share only ReadControl |
| Native.DesiredAccess | NamedPipeClient/Native.cs:120-132 | In requests exactly FILE_GENERIC_READ (0x20089) and Out exactly FILE_GENERIC_WRITE (0x20116); so In has FILE_READ_DATA and no write bit, Out FILE_WRITE_DATA and no read bit, both ReadControl; any other direction leaves the mask 0 |
| Native.CreateFile | NamedPipeClient/Native.cs:120-140 | the handle returned is the OS's and is never invalid (0 or -1); an invalid one becomes Win32Exception with the last-error code |
| Native.Open | NamedPipeClient/Native.cs:142-161 | In gives a read stream and Out a write stream, asynchronous, with the given buffer size, wrapping the handle CreateFile returned; success exactly when that handle is valid and the buffer size is not negative; an invalid handle gives Win32Exception with CreateFile's last-error code, and a negative buffer size on a valid handle gives ArgumentOutOfRangeException from the FileStream constructor; any other direction throws ArgumentException |
| Native.OpenAccessMatchesMask | NamedPipeClient/Native.cs:123-156 | a read stream's handle was opened with read bits and no write bits, and a write stream's handle the reverse |
| Native.OpenConsultsOnlyItsRequest | NamedPipeClient/Native.cs:142-160 | Open depends on the OS only through the one CreateFile request it issues; for InOut it depends on nothing, so no handle is created |
| Native.WaitNamedPipeAsync | NamedPipeClient/Native.cs:169-194 | the while loop's run (outcome and trace of attempts and delays) equals `Poll` of the same script |
| Native.PollCancelledAtEntry | NamedPipeClient/Native.cs:171 | cancellation requested at loop entry ends the poll as Cancelled with no OS wait |
| Native.PollImmediateSuccess | NamedPipeClient/Native.cs:173 | a first successful WaitNamedPipe returns at once, with no delay |
| Native.PollFatalFirstAttempt | NamedPipeClient/Native.cs:185-186 | any error other than 2 and 121 on the first attempt fails with that code, with no delay and no retry |
| Native.PollCancelledInDelay | NamedPipeClient/Native.cs:175-183 | cancellation during a back-off delay ends the poll as Cancelled with no further attempt |
| Native.PollTotalDelay | NamedPipeClient/Native.cs:163-183 | total requested delay = 500 ms x (attempts failing with 2) + 250 ms x (attempts failing with 121) |
| Native.PollNeverBusySpins | NamedPipeClient/Native.cs:171-188 | attempts and delays alternate starting with an attempt; every attempt waits 125 ms; each delay is the tier of the error just before it |
| Native.PollOnlyLastAttemptIsFinal | NamedPipeClient/Native.cs:171-188 | every attempt but the last failed with 2 or 121: nothing is attempted after a success or a fatal error |
| Native.PollOutcomeMatchesLastStep | NamedPipeClient/Native.cs:169-194 | Ready follows a successful attempt, Fatal(code) an attempt failing with that non-transient code; Cancelled and StillWaiting come before any attempt or after a delay; at most two steps per round |
| Native.PollRetriesThenReady | NamedPipeClient/Native.cs:171-188 | n failures with one transient code, then a success, give Ready after n + 1 attempts and n back-off periods of that code's tier |
| App.PipeFullName | NamedPipeApp/Program.cs:55-61 | the path is the prefix `\\.\pipe\` followed by the pipe name unchanged |
| App.PipeFullNameInjective | NamedPipeApp/Program.cs:55-61 | different pipe names give different paths |
| App.PipeDirectionOf | NamedPipeApp/Program.cs:72-81 | receive is In, send is Out, and neither is InOut |
| App.VerbDirectionsAreSupported | NamedPipeApp/Program.cs:72-81 | for either verb's direction, GetPipeRights succeeds, every security mode yields a descriptor, and Open fails only with a Win32 error or, for a negative `--buffer-size`, ArgumentOutOfRangeException |
| App.GetStream | NamedPipeApp/Program.cs:84-110 | send gives standard input or opens the file for reading; receive gives standard output or creates the file for writing; a file is chosen exactly when `--file` is non-null, not blank, not "-" and not the verb's keyword in any letter case, and its name is passed unchanged; a standard stream gets the buffer size, and a negative buffer size throws ArgumentOutOfRangeException there, exactly then |
| App.DefaultsSelectStandardStreams | NamedPipeApp/Program.cs:69-109 | the defaults "stdin" and "stdout" select the standard streams, and so do "STDIN" and "-", for every buffer size |
| App.OtherVerbsKeywordIsAFile | NamedPipeApp/Program.cs:84-109 | `send --file stdout` opens a file named "stdout", and `receive --file stdin` creates one named "stdin", whatever the buffer size |
| App.RemoveLastUndoesAdd | NamedPipeApp/Program.cs:129-151 | unsubscribing a handler right after subscribing it restores the invocation list |
| App.RemoveLastRemovesOne | NamedPipeApp/Program.cs:151 | `-=` removes exactly one occurrence of the handler if it is subscribed, and otherwise changes nothing |
| App.CancelKeyPress.Subscribe | NamedPipeApp/Program.cs:129 | `+=` appends the handler to the invocation list |
| App.CancelKeyPress.Unsubscribe | NamedPipeApp/Program.cs:151 | `-=` removes the handler's last occurrence |
| App.VerbHandler | NamedPipeApp/Program.cs:112-154 | the verb handler runs under the invocation list with the cancel handler appended; afterwards the list equals the list before on both paths; completion returns normally; an exception is rethrown wrapped as HandledException |
| App.ExitCodeOf | NamedPipeApp/Program.cs:167-182 | 0 exactly when nothing escaped the verb handlers, 1 exactly for a HandledException or any other exception |
| App.HandlerCancellationExitsWithError | NamedPipeApp/Program.cs:134-182 | a verb handler that throws OperationCanceledException is rethrown as HandledException and maps to EXCEPTION_OCCURED (1) |
| App.RunMain | NamedPipeApp/Program.cs:156-183 | only the parsed verb's handler runs, with the cancel handler subscribed; the exit code is 1 exactly when that handler threw and 0 otherwise, also when parsing failed; the Ctrl+C subscription is back as before |

## Left out

- The P/Invoke marshalling of `LogonId.Get` (NamedPipeServer/Security.cs:98-102) is not modelled: `PtrToStructure` and the pointer arithmetic over `TOKEN_GROUPS`. The group list is a sequence, and `GroupCount` is its length.
- The first, sizing `GetTokenInformation` call is modelled only by the length it reports. Its boolean result is ignored by the code as well.
- Access tokens are not modelled. `WindowsIdentity.GetCurrent().Token` and the thread-effective pseudo token are `TokenView` inputs. The `WindowsIdentity` object is never disposed, and the model does not track that either.
- `new SecurityIdentifier(WellKnownSidType, null)` is not modelled: the well-known SIDs are constructors of `Sid`.
- `PipeSecurity.AddAccessRule` is modelled as appending to an ordered list. .NET's merging of rules for one identity, and its canonical DACL ordering, are not modelled.
- `PipeAccessRights` are named flags. Their numeric values, and the composite flags they stand for, belong to the .NET library and are not modelled.
- `Native.WaitNamedPipeAsync`: the real loop can run forever. The model runs it over a finite script of rounds, and when the script ends before an outcome the result is `StillWaiting`.
- Real time is not modelled. `Task.Delay` is recorded as the requested milliseconds, and a delay cut short by cancellation is recorded at its full length. The 125 ms timeout of `WaitNamedPipe` is recorded on each attempt.
- The concurrent firing of `Console.CancelKeyPress` and `CancellationTokenSource.Cancel` is not modelled. Cancellation is an input flag seen at the loop check and during a delay.
- The I/O of `Console.OpenStandardInput`/`Output` and `File.Open` is not modelled, nor the exceptions `File.Open` throws for a missing or inaccessible file. `GetStream` returns which stream would be opened; of the standard streams' argument checks it models only the negative buffer size.
- Culture-specific comparison is not modelled. `string.Compare(..., true)` is ASCII case folding, and `string.Compare(f, "-")` is exact equality.
- NLog configuration, verbose logging, CommandLine parsing and the `CopyToAsync` copy loops are not modelled. The parse outcome is the `ParseResult` input.
- The `CancellationTokenSource` of `VerbHandler` is not modelled: not its disposal by `using`, and not the handler's `Cancel()` call. The verb handler's outcome is an input.
- NamedPipeServer/Program.cs and NamedPipeClient/Program.cs are not part of this model. They wire .NET pipe streams to members (`App.Program<,>`, `GetPipeDirection`, a timeout handler) that the modelled `NamedPipeApp/Program.cs` does not define. No connect-timeout race is modelled.
- The Ctrl+C handler (NamedPipeApp/Program.cs:122-126) cancels the token but leaves `ConsoleCancelEventArgs.Cancel` false, so the runtime terminates the process once the handler returns. That termination is not modelled, nor its race with the cancellation unwinding `Main`: the model only says what `Main` returns when the handler's exception reaches it.
- Native.Open: the FileStream constructor's check is modelled for a negative buffer size only. Runtimes before .NET 6 also refuse a buffer size of 0, and the target runtime is not part of this model. The handle that stays open when the constructor throws is not tracked.
- `EFileShare`, `ECreationDisposition` and `EFileAttributes` are not modelled beyond the three values `CreateFile` passes.

## Notes on the code

- `ExitCodes` has only NO_ERROR (0) and EXCEPTION_OCCURED (1) (NamedPipeApp/Program.cs:13-17). A verb handler that throws OperationCanceledException therefore maps to EXCEPTION_OCCURED like any other exception (`App.HandlerCancellationExitsWithError`).
- When argument parsing fails, neither `WithParsedAsync` branch runs and `Main` returns NO_ERROR (`App.RunMain`).
- The help texts of the verbs describe the data flow the other way round. "receive" reads from the pipe (direction In) into standard output or a file.
