# gossh, sequential core

gossh is a Go client library built on the SSH library `golang.org/x/crypto/ssh`. This project models the parts of it that are logic rather than delegation, and proves properties about them. Goroutines, timers and library calls are replaced by their results, given as inputs:

- **Stream copy** (`stream_copy.dfy`). `CopyBufferWithContext` is a buffered copy loop. It checks cancellation before every read, counts the bytes the writer accepted, rejects impossible write counts, and reports short writes and read errors. Both direct.go and client.go hold a copy of it. Apart from direct.go's debug print, the two copies differ only in what a cancelled copy returns, so the model has one loop with a `Variant`. The reader and the writer are scripts: the i-th Read returns `source[i]`, and the j-th Write returns `replies[j]`. Cancellation is the index of the first loop check that sees the context done. `CopyBuffer` is the imperative loop over a real `array` buffer, proved equal to the recursive specification `Copy`.
- **Director** (`director.dfy`, direct.go):
  - buffer allocation for a binding;
  - one direction of a binding (copy, then close both connections), with connections as a `Conn` class whose `Close` updates its state;
  - the dial-failure path of `BindConnToWithBuffer`;
  - the termination rules of the two accept loops.
- **Client** (`client.dfy`, client.go):
  - `Connect`'s translation of the package's `Config` into the library's `ClientConfig`, including the default written back into the caller's config;
  - client.go's copy of the loop;
  - the dial-failure path of `BindConnToRemoteBuffer`.
- **Session** (`session.dfy`, session.go):
  - the keep-alive loop and its failure budget, over a sequence of tick and cancel events;
  - the resize decision `SendWinChange`;
  - `SetEnvs`, which reports the last failure.
- **Known hosts** (`auth.dfy`, auth.go):
  - the decision table of `KnownHostsCheck` over the file list, the library's load and lookup results, the interactive flag and the two typed answers;
  - the line it appends to the first known_hosts file;
  - the checker that `NewKnownHostCallback` builds.

In these places the code behaves differently from what its comments or a reader might expect; the model follows the code:

- A failing connection-transform hook ends `DirectTcpToWithBuffer`'s whole accept loop (direct.go:152-154). It does not skip just that connection.
- The keep-alive budget counts all failed sends, not consecutive ones: successes never restore it.
- The keep-alive loop stops at the (N+1)-th failure (see Findings).
- No guard against running a second command on a session exists in the code, so none is modelled.
- The doc comment at direct.go:184 says a cancelled copy returns a nil error. direct.go's copy returns `interruptedErr` instead (direct.go:209). Only client.go's copy returns nil; see `StreamCopy.DirectInterruptedIffCancelled`.
- The doc comment at session.go:76 says that with maxErrRetries <= 0 the keep-alive loop runs until cancelled or until an I/O error. The loop ignores `SendRequest`'s error (session.go:95), so only a cancellation ends it; see `Session.UnlimitedLoopRunsUntilCancel`.
- The doc comments at direct.go:28 and direct.go:58 say both connections are closed on an I/O error, as opposed to a cancellation. The code closes both whatever the copy returned (direct.go:72-73, 80-81); see `Director.CopyThenClose`.

## Model

| member | source | states |
|---|---|---|
| StreamCopy.AllocSize | direct.go:195-205 | A nil buffer gets 32 KiB. For a LimitedReader with fewer bytes left, it is shrunk to the remaining N, with a floor of 1. The size is always between 1 and 32 KiB. |
| StreamCopy.CancelErr | direct.go:207-209 | A cancelled copy returns interruptedErr in direct.go's variant, and nil in client.go's (client.go:161-163). |
| StreamCopy.WriteStep | direct.go:214-220 | A write count below 0 or above the chunk is counted as 0, with the writer's error, or errInvalidWrite if it reported none; a valid count and the writer's error are kept as returned. A step records no error exactly when the count is valid and the writer reported none. |
| StreamCopy.Run | direct.go:206-240 | The loop from any iteration on. The count it returns always equals the number of bytes the writer accepted. |
| StreamCopy.CopyBuffer | direct.go:195-240 | The imperative loop over the caller's buffer, or one it allocates. It returns exactly the count and error of `Copy`, and hands Write exactly the specification's payloads. |
| StreamCopy.AckedIsPrefixOfStream | direct.go:211-224 | The accepted bytes are a prefix of what was passed to Write, which is a prefix of the source's bytes. The count is never negative. |
| StreamCopy.RoundTripFrom | direct.go:206-240 | From any read on: a source of chunks ending in EOF, copied uncancelled to a writer that takes everything, ends with a nil error. The sink then holds the remaining bytes in order, and the count is their number. |
| StreamCopy.RoundTrip | direct.go:206-240 | The round trip for a whole copy. |
| StreamCopy.CancellationStopsReading | direct.go:206-211 | No Read happens once the context is done. A cancelled copy made exactly the Reads before the check that saw it, and returns the variant's cancellation error. |
| StreamCopy.CancelBeforeFirstRead | direct.go:207-209 | A copy cancelled before its first check reads nothing, writes nothing and returns the cancellation error. |
| StreamCopy.VariantsDifferOnlyOnCancel | client.go:160-193 | client.go's loop agrees with direct.go's in count, payloads, reads and error classification. The only difference is nil instead of interruptedErr on cancellation. |
| StreamCopy.DirectInterruptedIffCancelled | direct.go:207-209 | When the reader and writer never return interruptedErr themselves, direct.go's copy returns it if and only if the copy was cancelled. |
| StreamCopy.InvalidWriteCountsZero | direct.go:214-221 | An impossible write count adds 0 bytes and ends the copy with the writer's error or errInvalidWrite. |
| StreamCopy.WriterErrorEndsCopy | direct.go:221-225 | A writer error ends the copy with that error, after the bytes it accepted are counted. |
| StreamCopy.ShortWriteEndsCopy | direct.go:226-229 | A partial write without an error ends the copy with io.ErrShortWrite. |
| StreamCopy.ReadErrorAfterData | direct.go:210-236 | Data returned with a read error is written first. EOF then ends the copy with nil; any other error is returned. |
| Director.CopyBufferWithContext | direct.go:185-241 | direct.go's copy returns the specification's count and error, and interruptedErr when cancelled. |
| Director.AllocateBuffers | direct.go:60-65 | A positive bufSize gives two distinct fresh buffers of that size. Otherwise there are none. |
| Director.CopyThenClose | direct.go:70-83 | One direction of a binding: the copy's result, and both connections closed afterwards. |
| Director.BindConnsWithBuffer | direct.go:59-85 | After a binding both connections are closed. |
| Director.BindConnToWithBuffer | direct.go:30-37 | A failed dial returns its error and binds nothing; the local connection is left as it was. A successful dial returns nil with both connections closed. |
| Director.RedirectStopIsFirstFailure | direct.go:90-100 | RedirectToWithBuffer's loop stops at the first iteration that is cancelled or whose Accept fails, and at no earlier one. |
| Director.RedirectToWithBuffer | direct.go:90-131 | The loop forwards exactly the connections accepted before it stops, in order. It makes one Accept per iteration and none once cancelled. |
| Director.TcpStopIsFirstFailure | direct.go:141-158 | DirectTcpToWithBuffer's loop stops at the first iteration that is cancelled, fails to Accept or has its connection rejected by the hook. A rejected connection ends the loop. |
| Director.DirectTcpToWithBuffer | direct.go:141-175 | The loop forwards exactly the hook's connections for the iterations before it stops. |
| Director.ThreeConnectionsServed | direct.go:90-100 | A listener that accepts three connections and then fails has all three forwarded. |
| Client.WithDefaultVersion | client.go:26-28 | An empty ClientVersion becomes "SSH-2.0-GoSSH", a set one is kept, and no other field of the caller's config changes. |
| Client.ToClientConfig | client.go:30-45 | Every field is copied through unchanged except the timeout, which is always 15 seconds. |
| Client.Connect | client.go:21-56 | A nil config fails with "invalid config" before dialling. Otherwise the caller's config gets the default version, and the dial of its translation is the result. |
| Client.DialedConfigIsComplete | client.go:26-45 | The library always receives a non-empty client version and the 15 second timeout. |
| Client.TimeoutIgnored | client.go:44 | The caller's Timeout has no effect on the connection. |
| Client.ReconnectIsStable | client.go:26-46 | Connecting again with the updated config changes it no further and dials with the same configuration. |
| Client.CopyBufferWithContext | client.go:139-194 | client.go's copy returns the specification's count and error, and nil when cancelled. |
| Client.BindConnToRemoteBuffer | client.go:90-99 | A failed dial returns a nil cancel function and the error. A successful one returns a cancel function and nil. |
| Session.UnlimitedLoop | session.go:83-98 | The loop for maxErrRetries <= 0 consumes no more events than it is given. |
| Session.LimitedLoop | session.go:101-123 | The loop for maxErrRetries > 0, as written, consumes no more events than it is given. |
| Session.KeepAlive | session.go:77-126 | The imperative loop: nothing starts for a non-positive interval; otherwise its result is the loop's for the given maxErrRetries. |
| Session.LimitedLoopBudget | session.go:101-123 | The budget never goes negative, and equals N minus the failures so far. The loop ends on cancellation, or on the (N+1)-th failure, and on nothing else. Every tick consumed sent a request. |
| Session.UnlimitedLoopRunsUntilCancel | session.go:83-98 | With maxErrRetries <= 0, failures are ignored. The loop ends exactly when a cancellation arrives, and every tick before it sent a request. |
| Session.LimitedLoopIntended | session.go:75 | The loop as its doc comment describes it consumes no more events than it is given. |
| Session.IntendedLoopStopsAtNthFailure | session.go:75 | The loop as its doc comment describes it always leaves with a definite exit. It stops on a failed tick that is the N-th failure, with the budget at 0 and no cancellation before it. It stops on the first cancellation if fewer than N failures came first. It keeps running, with N less the failures left, only when no cancellation arrived and fewer than N sends failed. Every tick it consumed sent one request. |
| Session.OneFailureWithBudgetOne | session.go:113-119 | With maxErrRetries = 1, one failed send leaves the written loop running but stops the documented one. |
| Session.SendWinChange | session.go:166-179 | A failed measurement returns the old size and its error, and sends nothing. An unchanged size is returned with nil and no request. A request is sent exactly when the measured size differs from the old one. The result is the old size with the request's error, or the new size with nil. |
| Session.WinChangeTracksRemote | session.go:204-219 | When each result is fed into the next call, the size the caller holds stays the size the remote side last received. |
| Session.LastFailureIsLast | session.go:293-305 | The aggregated error is nil exactly when every request succeeded. Otherwise it is a failed request's error, and every later request succeeded. |
| Session.SetEnvs | session.go:293-305 | A nil map sets nothing and returns nil. Otherwise every entry is requested once, in iteration order, whatever earlier requests returned, and the last failure is returned. |
| Auth.NewKnownHostCallback | auth.go:105-110 | The checker's files and interactive flag are exactly the arguments. |
| Auth.KnownHostsCheck | auth.go:114-167 | The decision table, spelled out below this table. |
| Auth.AppendFailureStillAccepts | auth.go:156-163 | The outcome of writing the line never changes the decision. |
| Auth.FirstFileAfter | auth.go:155-162 | The first file gains the written line when the write succeeds, and is unchanged otherwise. |
| Auth.TrustStoreGrowsOnConfirm | auth.go:139-163 | The first file grows by exactly the line for the remote address and key if and only if all of these hold: the host matched, the checker is interactive, the answers were "yes" in any case and then exactly "yes", and the write succeeded. A grown file implies acceptance. |
| Auth.KnownHostsCheckIntended | auth.go:114-139 | The check as its prompt describes it: no known_hosts file and a load error refuse as in the written check; an unlisted host is put to the user through the same two questions when the checker is interactive and refused with the lookup error otherwise; only an unlisted host is ever asked, a matched host is accepted silently, and a rejected key is refused. |
| Auth.IntendedAgreesWhenNotInteractive | auth.go:135-137 | The written and the intended check agree for a non-interactive checker. |
| Auth.InteractiveCheckAsksAboutKnownHostsOnly | auth.go:130-139 | An interactive checker refuses an unlisted host without a question, yet questions a listed one. |

`Auth.KnownHostsCheck` states this decision table:

- No files fails with "no known_hosts file given".
- Load and lookup errors are returned unchanged, with no question and nothing appended.
- A non-interactive checker accepts a matched host.
- An error is returned in these cases:
  - the first answer is not "yes" in any case: "unknown host";
  - the first answer cannot be read: the scan error;
  - the first answer is "yes" and the second cannot be read: the scan error.
- The host is accepted exactly when it matched and either the checker is not interactive, or the first answer was "yes" in any case and a second answer was read.
- A line is appended exactly when, in addition, the checker is interactive and the second answer is exactly "yes". That line is the remote address with the key, and goes to the first file.

## Left out

- Goroutines and scheduling:
  - the two concurrent directions of a binding;
  - the per-connection goroutines of the accept loops;
  - the background copies of `BindConnToRemoteBuffer`;
  - the session's input and output copies.
- Director.BindConnsWithBuffer: runs the two directions one after the other and states only that both connections end closed. The Go code runs them concurrently and discards the copy results.
- Client.BindConnToRemoteBuffer: states only the returned values. The two background copies that share the caller's buffer and context are not modelled.
- The `io.WriterTo` / `io.ReaderFrom` fast paths of the copy (direct.go:188-194, client.go:142-148) hand the copy to foreign code and ignore cancellation; only the buffered path is modelled.
- The copy's debug write of every chunk to standard output (direct.go:213), and every `fmt.Print`, are output only.
- `written` is an unbounded integer, so int64 overflow of the count is not modelled.
- StreamCopy.CopyBuffer: the reader is assumed to honour the io.Reader contract, so every chunk fits the buffer it reads into. The payloads handed to Write are a ghost result.
- `BindTcpConnToWithBuffer` (direct.go:43-50) has the same shape as `BindConnToWithBuffer`, with a TCP dial. `RedirectTo`, `RedirectTcpTo`, `BindConnTo`, `BindTcpConnTo` and `BindConnToRemote` only pass a zero buffer size or a nil buffer to the functions modelled.
- The remote dial inside `RedirectToWithBuffer`'s per-connection goroutine (direct.go:103-106) is not modelled, nor the address resolution in `DirectTcpToWithBuffer`'s (direct.go:165-169).
- Dialing, the SSH handshake and every library call are inputs:
  - `ssh.Dial`, `Client.Dial`, `Setenv`, `SendRequest`, `WindowChange`, `term.GetSize`;
  - `knownhosts.New` and its lookup, `knownhosts.Line`, opening and writing the file.
  The wrappers of auth methods and callbacks are carried through as opaque handles.
- The keep-alive ticker and its interval's duration are not modelled; only the discrete sequence of ticks and cancellations is. The cancel function returned is not modelled either.
- `AutoUpdateTerminalSize` and its Windows variant (session.go:185-259): only the step they repeat, `SendWinChange`, is modelled. The signal and ticker plumbing is left out.
- Auth.KnownHostsCheck: lower-cases ASCII letters only, while `strings.ToLower` handles all of Unicode. Printing "revoked key found" and the prompts is output only.
- Session.SetEnvs: Go's map iteration order is unspecified, so it is an input (`order`, any enumeration of the keys). The requests go to the `session` argument, not to the receiver's own session; the model does not distinguish the two.
- The remaining session operations (`PreparePty`, `Shell`, `Exec`, `RedirectOutput`, `MakeRow`, `SendSignal` and others) and the private-key, password and agent authentication helpers only delegate to the SSH library or the terminal.

## Findings

| source | as written | input that shows it | evidently intended | confidence | as-written member | corrected member |
|---|---|---|---|---|---|---|
| session.go:113-119 | A failed send ends the loop only when the budget is already 0, so the loop stops at the (N+1)-th failure. | maxErrRetries = 1 and one failed send: the loop keeps running. | Stop when the number of failed sends reaches maxErrRetries, as the doc comment at session.go:75 says. | medium, not executed | Session.OneFailureWithBudgetOne | Session.IntendedLoopStopsAtNthFailure |
| auth.go:130-139 | The "No host key found ... continue?" question is asked only after the known_hosts lookup succeeded. An unlisted host gets the lookup's error even in interactive mode. | An interactive checker, a host not in the files, and answers "yes" and "yes": it is refused with no question. A listed host is asked both questions. | Ask about an unlisted host in interactive mode, and accept a matched host without asking. | medium, not executed | Auth.InteractiveCheckAsksAboutKnownHostsOnly | Auth.KnownHostsCheckIntended |
