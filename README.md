# Window-synchronisation manager (boruto), modelled in Dafny

boruto lets a remote controller move a set of desktop windows together. A
single manager loop owns the list of managed windows. Each window has a
handle (`hwnd`) and the position it had when it was added. The manager receives
one `Action` at a time: Start, Stop, Capture, Add, Remove, RemoveAll, Update
and Refresh. An Update asks every managed window to move to its recorded
position plus the offset. After each action it publishes at most one
`Reply` on a watch channel.

This project models that manager (`src/manager.rs`):

- `protocol.dfy`: `Action` and `Reply`, with the variants that
  `src/manager.rs` matches on and sends. The hwnd payloads are inlined as
  constructor fields. `UpdatePayload` keeps its name. Coordinates are 32-bit integers (`I32`).
- `windows_api.dfy`: the Win32 calls as an oracle value `Host`.
  `GetCursorPos` gives a point or fails. `WindowFromPoint` and
  `GetAncestor(GA_ROOT)` give handles. `GetWindowRect` gives a rectangle or
  fails. `SetWindowPos` succeeds or fails. A `Move` records one
  `SetWindowPos` request.
- `registry.dfy`: the registry as values. `WindowState` is the per-window
  record and `Snapshot` is the whole state. It also holds the hwnd list that
  replies carry (`Hwnds`), `retain` (`Discard`), and the moves and failures
  of one Update pass (`Targets`, `FailedHwnds`).
- `manager.dfy`: `Step` says what `process_action` does with one result of
  `recv()`. The class `ManagerState` holds the `started` flag and the
  `managedWindows` sequence. Its methods make those changes in place, and
  each is proved equal to `Step`. The Update `for` loop is the method
  `MoveAll`. The `start_manager` loop is the method `StartManager`,
  specified by `Run`, which is the generic `Loop` applied to `Step`.
- `properties.dfy`: the promised behaviour, stated as lemmas about `Step`
  and `Run` for all states, hosts and channel conditions.

The watch sender becomes a returned `Option<Reply>` plus a flag
`hasReceivers`. A send fails exactly when no receiver is left, and then
processing returns `Err` with the source's message prefix. An `Err` makes
the loop stop. The Win32 results arrive as a `Host` value, one per
processed action, so each step is a deterministic function of the state,
the action, the host and the flag.

Behaviour the model pins down:

- Add and Capture publish the hwnd list only when a window was really
  added. A failed cursor or rectangle lookup, or a handle that is already
  managed, changes nothing, publishes nothing and returns `Ok`.
- `GetWindowRect` is called before the duplicate check. Nothing observable
  depends on that order.
- When the action channel is closed (`recv()` returns `None`), the loop
  goes on with no effect; it does not exit.
- Only handle-based addressing exists in this code. Owner/process-id
  addressing is not part of it.

## Model

| member | source | states |
|---|---|---|
| `Registry.Hwnds` | src/manager.rs:183-192 | the published hwnd list has one entry per managed window, in list order, and entry i is window i's handle |
| `Registry.IsManaged` | src/manager.rs:163-170 | the duplicate check holds exactly when the handle occurs in the managed hwnd list |
| `Registry.Discard` | src/manager.rs:77-80 | `retain` keeps exactly the records whose handle is not among those given, and never grows the list |
| `Registry.DiscardAppend` | src/manager.rs:135-137 | `retain` distributes over concatenation, so the survivors keep their relative order |
| `Registry.DiscardNothing` | src/manager.rs:77-80 | retaining when no record matches leaves the list as it was |
| `Registry.DiscardEverything` | src/manager.rs:77-80 | retaining when every record matches leaves the list empty |
| `Registry.DiscardKeepsNoDuplicates` | src/manager.rs:135-137 | removing records keeps handles unique |
| `Registry.AppendKeepsNoDuplicates` | src/manager.rs:163-179 | pushing a record whose handle is not yet managed keeps handles unique |
| `Registry.Targets` | src/manager.rs:98-108 | an update requests one move per window, in list order, to offset plus that window's recorded position |
| `Registry.FailedHwnds` | src/manager.rs:97-128 | a handle is marked for removal exactly when some managed window with that handle failed its move |
| `Registry.TargetsOfSurvivors` | src/manager.rs:98-108 | the moves requested for windows kept from a list are among the moves requested for that list |
| `Registry.PassExtends` | src/manager.rs:98-128 | one more loop iteration adds that window's move, and its handle if the move failed |
| `Manager.StepKeepsNoDuplicates` | src/manager.rs:37-148 | processing any action keeps handles unique |
| `Manager.MoveAll` | src/manager.rs:97-128 | the Update loop issues exactly the absolute moves and collects exactly the failed handles, in order |
| `Manager.ManagerState.constructor` | src/manager.rs:24-27 | the manager starts stopped with no managed windows |
| `Manager.ManagerState.ProcessAction` | src/manager.rs:37-148 | processing one `recv()` result in place gives the new state, moves, reply and result of `Step`, and keeps handles unique |
| `Manager.ManagerState.AddHwndReplyCurrent` | src/manager.rs:150-181 | add in place: no change on a failed rectangle lookup or a managed handle, otherwise push the handle with the rectangle's left and top, then reply |
| `Manager.ManagerState.ReplyCurrentManagedHwnds` | src/manager.rs:183-192 | replies with the current hwnds in list order; the send fails exactly when no receiver is left |
| `Manager.RunFirst` | src/manager.rs:29-34 | a run handles the first received item, then stops on `Err` or goes on with the rest |
| `Manager.StartManager` | src/manager.rs:23-35 | the loop from the initial state processes the items in arrival order and breaks at the first `Err`, as `Run` says |
| `ManagerProperties.StartAndStop` | src/manager.rs:45-58 | Start sets the flag, Stop clears it; neither touches the windows or moves anything; each replies Started/Stopped, and the result is an error exactly when no receiver is left |
| `ManagerProperties.OnlyStartAndStopToggle` | src/manager.rs:59-145 | no other action changes the started flag |
| `ManagerProperties.OnlyUpdateMoves` | src/manager.rs:44-145 | no action except Update issues a `SetWindowPos` |
| `ManagerProperties.NothingReceived` | src/manager.rs:42-43 | an empty `recv()` changes nothing, publishes nothing and is not an error |
| `ManagerProperties.AddManagedIsNoOp` | src/manager.rs:163-170 | adding a managed handle changes nothing, publishes nothing and returns Ok |
| `ManagerProperties.AddWithoutRectIsNoOp` | src/manager.rs:155-161 | adding a window whose rectangle cannot be read changes nothing, publishes nothing and returns Ok |
| `ManagerProperties.CaptureAddsRootUnderCursor` | src/manager.rs:59-75 | Capture does nothing when the cursor position fails, and otherwise is Add of the root ancestor of the window under the cursor |
| `ManagerProperties.SuccessfulAdd` | src/manager.rs:172-180 | a successful add appends exactly one record holding the rectangle's left and top, and replies with the old hwnds followed by the new one |
| `ManagerProperties.AddTwiceKeepsOneEntry` | src/manager.rs:163-180 | after an add that read the rectangle, the handle is managed exactly once and a second add of it is a no-op |
| `ManagerProperties.RemoveDeletesHandle` | src/manager.rs:77-83 | Remove keeps the flag and deletes exactly the records with that handle, keeping every other record, and replies with the remaining hwnds; removing an unmanaged handle changes nothing |
| `ManagerProperties.RemoveKeepsOrder` | src/manager.rs:77-80 | Remove works piecewise on any split of the list, so survivors keep their order |
| `ManagerProperties.RemoveAllEmpties` | src/manager.rs:84-88 | RemoveAll empties the list, keeps the flag and replies with the empty list |
| `ManagerProperties.UpdateWhileStopped` | src/manager.rs:89-93 | while stopped, Update issues no moves, changes nothing and publishes nothing |
| `ManagerProperties.UpdateOnlyRemoves` | src/manager.rs:97-138 | while started, Update requests every window's absolute move and can only remove records; with no reply nothing changed |
| `ManagerProperties.UpdateWhileStarted` | src/manager.rs:97-138 | while started, Update moves every window to offset plus reference; after the pass it removes exactly the windows whose move failed, keeping order; it replies with the survivors exactly when some move failed |
| `ManagerProperties.UpdateIsAbsolute` | src/manager.rs:97-138 | after an update, the next update requests exactly one move per surviving window, to its recorded position plus the new offset; every survivor is an unchanged record of the earlier list, so each move is an original reference plus the new offset, whatever the earlier offset was |
| `ManagerProperties.RepeatedUpdateRepeatsMoves` | src/manager.rs:102-108 | repeating an update in which nothing failed requests exactly the same moves again |
| `ManagerProperties.SameHandleSameRecord` | src/manager.rs:163-170 | with unique handles, a handle identifies its record |
| `ManagerProperties.RefreshIsPure` | src/manager.rs:140-145 | Refresh changes nothing and replies with the flag and the hwnds in order; two refreshes in a row reply the same |
| `ManagerProperties.ErrorMeansSendFailed` | src/manager.rs:44-146 | processing returns `Err` exactly when a reply was due and no receiver is left |
| `ManagerProperties.LoopConcatenates` | src/manager.rs:29-34 | the loop over two batches is the loop over the first, then the loop over the second from where the first ended |
| `ManagerProperties.LoopStopsAtError` | src/manager.rs:29-34 | once the loop has broken on `Err`, later items are never processed |
| `ManagerProperties.RunConcatenates` | src/manager.rs:29-34 | the manager processes items strictly in arrival order and stops at the first `Err` |
| `ManagerProperties.LoopKeepsHandlesUnique` | src/manager.rs:29-34 | a loop whose step keeps handles unique keeps them unique over any run |
| `ManagerProperties.RunKeepsHandlesUnique` | src/manager.rs:23-35 | the list never holds two records with the same handle, over any run |
| `ManagerProperties.StartAddUpdateRemove` | src/manager.rs:45-138 | Start, Add(h), Update(5,5), Remove(h) end started with nothing managed, whatever the desktop answers |
| `ManagerProperties.AddUpdateRefresh` | src/manager.rs:45-145 | Start, Add(100) at (50,50), Update(10,-5), Refresh move the window to (60,45) and publish Started, [100], then state (true, [100]) |
| `ManagerProperties.PartialFailure` | src/manager.rs:97-138 | with one healthy and one failing window, Update moves both, removes only the failing one and publishes the survivor alone |

## Left out

- The Win32 calls are not modelled as window geometry. Each one is an answer supplied by the `Host` oracle. The `SetWindowPos` flags (no activate, no z-order change, no redraw, no resize) are not modelled. The Win32 error values are reduced to "failed".
- Within one action, `Host.setWindowPos` answers the same way for the same request. Handles in the list are unique, so one pass never sends the same request twice.
- The error strings keep the source's prefixes. The debug text of the send error that the source appends is left out.
- Registry.Targets: the target position `offset + init` is computed on unbounded integers. In the source it is 32-bit addition, which panics in a debug build and wraps in a release build when it leaves the i32 range; neither is modelled.
- The tokio channels are not modelled. There is no bounded queue with backpressure, no async scheduling, and no latest-value broadcast to several receivers. Each step takes one received item, and the replies published are returned in order.
- Manager.StartManager: it runs over a finite sequence of received items. The source loops forever. When the channel is closed, `recv()` keeps returning `None` and the loop spins; liveness and termination are not modelled.
- `println!`/`eprintln!` logging is left out.
- JSON encoding and decoding of actions and replies is left out, along with the websocket server, argument parsing, task spawning and the Android client. They are transport and UI around the manager.
