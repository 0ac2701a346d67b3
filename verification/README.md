# Pterodactyl power client: a Dafny model

This project models the decision and sequencing logic of the Pterodactyl
power client of BungeePteroPower (`PterodactylController`). The client asks a
Pterodactyl panel to start or stop a game server, polls the server's power
state until it reads `offline`, restores a backup once the server has
stopped, and sums the memory limits of the panel's servers.

The network and the clock are inputs. A reply is either a status code with
an already-parsed JSON body, or a transport failure. Time is a stream of
events: a status reply arrives, the scheduler runs a deferred poll (`Tick`),
or the restore timeout fires (`Timeout`). Every operation is a pure function
of such inputs. It returns a `Result` (a future that completed normally or
exceptionally) or a next state together with the calls it issued.

Modules, one per concern:

- `Outcomes`: `Option`, `Result` and the kinds of failure (transport,
  unexpected status code, malformed body, timeout).
- `Json`: parsed bodies and the Gson accessors the client uses
  (`getAsJsonObject`, `getAsJsonArray`, `get`, `getAsString`, `getAsInt`).
  A call that would throw in Gson returns `None`.
- `Requests`: the power signal, the three calls (power, status, restore),
  and `Render`, which builds each call's method, path and body. `Parse`
  inverts `Render`.
- `Replies`: which code counts as success for each call (204 for power and
  restore, 200 for status), and how `attributes.current_state` is read.
- `Poll`: `waitUntilOffline` as a state machine. The state is the future
  (`Pending`, `Completed`, `Expired`) and the one outstanding status query
  (`Idle`, `Scheduled`, `InFlight`).
- `Restore`: `sendRestoreSignal` as a state machine with a trace of issued
  calls. The stop signal is fire-and-forget. The wait comes next, and the
  restore request is sent from the wait's normal completion.
- `Memory`: the summation in `getTotalMemory`. `TotalMemory` sums with
  unbounded integers. `AccumulateInt32` follows the Java `int` loop, with its
  narrowing and wrap-around written out.

Behaviour of the code that is easy to misread, and that the model keeps:

- The wait loop has no "failed" outcome. A failed status query never reaches
  the callback (`thenAccept` is skipped on an exceptional future), so the
  loop stops polling and only the timeout can resolve it.
- A poll that the scheduler already holds when the loop finishes is still
  sent. The scheduled task calls `getPowerStatus` without checking the
  future. Its reply is then ignored.
- A failed wait fails the restore with the wait's own exception (the
  timeout). It is not wrapped in a restore-specific error.
- `getTotalMemory` takes a set of servers but never reads it. The sum runs
  over every record of the list reply, with no filtering.

## Model

| member | source | states |
|---|---|---|
| Requests.Verb | src/main/java/com/kamesuta/bungeepteropower/power/PterodactylController.java:38-40 | The log verb is "Starting" exactly when the signal is START, and "Stopping" for every other signal |
| Requests.Render | src/main/java/com/kamesuta/bungeepteropower/power/PterodactylController.java:42-48 | Only the status query is a GET without a body. Every path starts with `/api/client/servers/` followed by the server id |
| Requests.ParseRender | src/main/java/com/kamesuta/bungeepteropower/power/PterodactylController.java:172-178 | The call is recovered from the request built for it: `/power` with `{"signal": "<token>"}`, `/resources`, and `/backups/<uuid>/restore` with `{"truncate":true}`. For restore the server id must be a single path segment |
| Requests.RenderParse | src/main/java/com/kamesuta/bungeepteropower/power/PterodactylController.java:249-250 | Every request that `Parse` accepts is exactly the request built for the call it returns |
| Requests.RenderInjective | src/main/java/com/kamesuta/bungeepteropower/power/PterodactylController.java:43-48 | Two different well-formed calls never produce the same wire request |
| Replies.ExpectNoContent | src/main/java/com/kamesuta/bungeepteropower/power/PterodactylController.java:59-75 | A power signal, and likewise a restore request (lines 189-205), succeeds exactly when the code is 204. Any other code fails with that code, and a transport failure propagates |
| Replies.StateField | src/main/java/com/kamesuta/bungeepteropower/power/PterodactylController.java:268 | The state is read only when the root and `attributes` are objects and `current_state` is present, and it is that member read by `getAsString`. Otherwise there is no state |
| Replies.CurrentState | src/main/java/com/kamesuta/bungeepteropower/power/PterodactylController.java:262-279 | A status query yields `attributes.current_state` exactly on code 200 with a readable field. Any other code fails with that code, and a 200 without the field fails as malformed |
| Replies.CurrentStateOfStatusBody | src/main/java/com/kamesuta/bungeepteropower/power/PterodactylController.java:265-268 | A 200 reply whose body carries a state is read back as exactly that state |
| Poll.Next | src/main/java/com/kamesuta/bungeepteropower/power/PterodactylController.java:216-233 | Once done, the future never changes. Only a tick releasing a scheduled poll issues a call, and that call is one status query. Only an "offline" reading of a pending loop completes it. The timer expires a pending loop whatever its query is doing, leaves that query as it is, and only the timer expires it. A tick sends a scheduled poll even after the loop is done. A further poll is scheduled only for a non-offline reading of a pending loop |
| Poll.Run | src/main/java/com/kamesuta/bungeepteropower/power/PterodactylController.java:215-239 | Over any event sequence the loop issues only status queries of its own server, keeps a resolved outcome, and completes only if some status reply arrived |
| Poll.AtMostOneResolution | src/main/java/com/kamesuta/bungeepteropower/power/PterodactylController.java:216-228 | Over any event sequence the future goes from pending to done at most once, and exactly once if it ends done |
| Poll.DoneLoopIssuesAtMostScheduled | src/main/java/com/kamesuta/bungeepteropower/power/PterodactylController.java:221-224 | After the loop is done (completed or timed out), events never change its outcome or schedule a poll. At most the one poll already scheduled is still sent |
| Poll.FailedQueryStalls | src/main/java/com/kamesuta/bungeepteropower/power/PterodactylController.java:232-236 | After a failed status query the loop issues no further call and never completes. It expires exactly when the timer fires, and otherwise stays pending |
| Poll.HeldPollSentAfterTimeout | src/main/java/com/kamesuta/bungeepteropower/power/PterodactylController.java:216-232 | When the timer fires while a poll is scheduled, the loop expires and the next tick still sends that status query: `orTimeout` does not cancel the scheduled task |
| Poll.OfflineCompletes | src/main/java/com/kamesuta/bungeepteropower/power/PterodactylController.java:225-228 | An "offline" reading of a pending loop completes it and leaves nothing outstanding |
| Poll.OtherStateSchedulesOnePoll | src/main/java/com/kamesuta/bungeepteropower/power/PterodactylController.java:230-232 | Any other reading leaves the loop pending with exactly one poll scheduled, and the next tick sends exactly one status query |
| Poll.FailedQueryLeavesIdle | src/main/java/com/kamesuta/bungeepteropower/power/PterodactylController.java:276-279 | A failed status query leaves the loop pending with no query scheduled or in flight |
| Poll.TwoReadingsThenOffline | src/main/java/com/kamesuta/bungeepteropower/power/PterodactylController.java:215-239 | Two non-offline readings followed by "offline" take two further status queries after the one sent on entry, then the loop completes |
| Restore.Begin | src/main/java/com/kamesuta/bungeepteropower/power/PterodactylController.java:88-94 | The operation starts consistent: the stop signal comes first, then the first status query, and no restore request |
| Restore.Next | src/main/java/com/kamesuta/bungeepteropower/power/PterodactylController.java:94-99 | Each step keeps the operation consistent and only extends the trace. The restore request is sent exactly in the step where the wait completes normally, and that step leaves the operation awaiting the restore reply. The wait alone can end the operation only with the timeout. After the restore request its reply, and only its reply, decides the result through the 204 check. The timer firing during the wait fails the operation with the timeout. A finished operation keeps its result |
| Restore.Run | src/main/java/com/kamesuta/bungeepteropower/power/PterodactylController.java:88-100 | Over any event sequence the operation stays consistent, keeps its server and backup, only extends the trace, and never changes a final result |
| Restore.WaitFollowsPoll | src/main/java/com/kamesuta/bungeepteropower/power/PterodactylController.java:94-99 | After any events, the operation's wait state is exactly what `waitUntilOffline` reaches when run on the operation's wait inputs in order. The wait keeps running after the operation has a result |
| Restore.TraceFollowsPoll | src/main/java/com/kamesuta/bungeepteropower/power/PterodactylController.java:88-99 | After any events, the calls sent are the calls so far, then every status query the wait loop sends on the operation's wait inputs, then one restore request if the wait completes during them. This includes a poll still sent after the timeout (lines 216 and 232) |
| Restore.RestoreOnlyAfterOffline | src/main/java/com/kamesuta/bungeepteropower/power/PterodactylController.java:92-99 | At every point, a restore request has been sent exactly when the wait has completed normally, and never more than one. Until then the trace holds only the stop signal and status queries |
| Restore.TimeoutMeansNoRestore | src/main/java/com/kamesuta/bungeepteropower/power/PterodactylController.java:94-98 | If the wait times out, the operation fails with the timeout and the restore endpoint receives no request |
| Restore.SuccessMeansRestored | src/main/java/com/kamesuta/bungeepteropower/power/PterodactylController.java:94-98 | A successful operation went through a normal completion of the wait and exactly one restore request, and received a restore reply that passed the 204 check (lines 190-194) |
| Restore.SuccessNeedsAcceptedReply | src/main/java/com/kamesuta/bungeepteropower/power/PterodactylController.java:94-98 | From any state without a result, a run that ends in success contains a restore reply that passed the 204 check |
| Restore.OfflineThenAcceptedRestoreSucceeds | src/main/java/com/kamesuta/bungeepteropower/power/PterodactylController.java:92-99 | Success is reachable: an "offline" first reading followed by a 204 restore reply ends the operation successfully, with the stop signal, one status query and one restore request sent |
| Restore.StopReplyIrrelevant | src/main/java/com/kamesuta/bungeepteropower/power/PterodactylController.java:89-90 | The stop signal's reply, whatever it is and whenever it arrives, changes neither the issued calls nor the result |
| Memory.Wrap32 | src/main/java/com/kamesuta/bungeepteropower/power/PterodactylController.java:151-152 | Narrowing to a Java `int` gives a 32-bit value congruent to the input modulo 2^32, and leaves 32-bit values unchanged |
| Memory.RecordMemory | src/main/java/com/kamesuta/bungeepteropower/power/PterodactylController.java:146-151 | A record's limit is read only when the record, `attributes` and `limits` are objects and `memory` is present, and it is that member read by `getAsInt`. Otherwise the record has no limit |
| Memory.MemoryLimits | src/main/java/com/kamesuta/bungeepteropower/power/PterodactylController.java:145-153 | The limits of all records, in record order, exactly when every record has one. Otherwise none |
| Memory.TotalMemory | src/main/java/com/kamesuta/bungeepteropower/power/PterodactylController.java:136-159 | On code 200 the result is the sum of `limits.memory` over all records of `data`, exactly when every record has a readable limit. Otherwise it fails as malformed with no partial sum. Any other code fails with that code |
| Memory.AccumulateInt32 | src/main/java/com/kamesuta/bungeepteropower/power/PterodactylController.java:142-154 | The Java `int` loop succeeds exactly when every record has a readable limit. Its result is the true sum narrowed to 32 bits |
| Memory.TotalMemoryOfListBody | src/main/java/com/kamesuta/bungeepteropower/power/PterodactylController.java:138-153 | A 200 list reply carrying some limits is read back as their sum |
| Memory.EmptyListTotalsZero | src/main/java/com/kamesuta/bungeepteropower/power/PterodactylController.java:142-145 | An empty `data` array totals 0 |
| Memory.ThreeServersTotal | src/main/java/com/kamesuta/bungeepteropower/power/PterodactylController.java:142-153 | Limits of 512, 1024 and 2048 total 3584 |

## Left out

- HTTP client construction, headers, the bearer token and resolving the path against the configured panel URL (lines 45, 51-56, 252-259): transport and configuration. A request is its method, path and body.
- JSON parsing itself (lines 138, 267): bodies arrive already parsed, and a body Gson cannot parse is `Unparsable`.
- Gson's coercions outside the shapes the panel sends: `getAsString` on a number, and `getAsInt` on a numeric string. The model reads these as malformed. Non-integral numbers cannot be expressed at all, since `JNum` holds an integer, whereas `getAsInt` would truncate them.
- Logging: a side effect only. The START/STOP verb choice is modelled as `Requests.Verb`.
- Real time: the restore timeout and ping interval (lines 216, 232) become `Timeout` and `Tick` events. No claim is made about elapsed seconds.
- Thread-safety of the `future.isDone()` check, and concurrent restores of the same server: the code has no locking, and each operation is modelled alone.
- `getTotalMemory` as written does not compile. `signalType`, `serverName` and `serverId` are undeclared (lines 112-114, 163), and it returns an `int` where the method type is `CompletableFuture<Void>` (lines 111, 154). Its request setup (lines 112-130, which POSTs a signal body to the server list) is not modelled. Only the code check and the summation are.
- `PowerSignal` is not part of this model. Its tokens are taken as `start` and `stop`, the values the panel's power endpoint accepts.
- Requests.ParseRender: a restore path splits back into server id and backup only when the server id contains no `/`. The client itself concatenates any string.
- Memory.TotalMemory: sums with unbounded integers, whereas the Java `int` accumulator wraps. `Memory.AccumulateInt32` models the wrap, and its result equals this sum narrowed to 32 bits.
