# browser-window core, modelled in Dafny

This project models the part of the browser-window library that sits
between the Rust API and a browser engine:

- the C window and application records and their state: `closed`,
  `dropped`, the parent, `windows_alive`, `is_running` and `is_done`;
- the Win32 message loop, its dispatch queue and its linked list of
  pending timers;
- the tables the CEF engine bridge keeps: the evaluation-callback store
  and the browser handle map, with the creation callback that is still
  pending;
- the client handler's routing of engine events;
- the text formats on the way between the engine and Rust:
  - `JsValue::from_string`, `Display` and `escape_string`;
  - V8 value stringification;
  - the Edge `\x03`-separated arguments and the `ok:`/`err:` result;
  - the script wrappers and the source URLs;
  - error records.

Each core source file is one module. Code that changes state step by step
is a `class` with `modifies` clauses, and its loops are `while` loops with
invariants. Pure code is functions and lemmas. Modules shared by several
files:

- `Wrappers`: `Option` and `Result`.
- `Handles`: pointers as numbers, C string slices, and 32-bit
  wrap-around.
- `Strings`: decimal and hexadecimal rendering, and Rust's `split`,
  `split_once` and `join`.
- `Dispatch`: dispatch records and thread messages, shared by the two
  Win32 loops.

Where the code has a defect, the model has two members:

- a member named `…AsWritten` that does what the code does, with a lemma
  that exhibits the defect;
- the corrected member, which the rest of the model uses.

The section "Findings" lists both members of each pair.

Callbacks are opaque identifiers. What a callback asks of the application
while it runs (dispatch, exit, mark as done) is given by a `behaviour`
function parameter. Memory effects are ghost histories: records freed,
cleanup handlers run, records read after being freed, and mutex misuse
(`faults`).

The code differs from the written design in one place, and the model
follows the code. The design says the ready handler of
`bw_Application_run` is queued as the first message. The code calls it
directly before the loop (c/src/application/win32.c:206), so both `Run`
methods record `ready` as the first call, before any message.

## Model

| member | source | states |
|---|---|---|
| Errors.Strlen | c/src/err.c:27 | `strlen` gives the index of the first NUL: the character there is NUL and none before it is |
| Errors.Text | c/src/err.c:27-30 | the characters copied before the terminator hold no NUL, and followed by a NUL they are the start of the buffer |
| Errors.TextOfTerminated | c/src/err.c:27-30 | text followed by a NUL, and anything after it, reads back as that text |
| Errors.StrlenAt | c/src/err.c:27 | a NUL with none before it is where `strlen` stops |
| Errors.NewWithMsg | c/src/err.c:25-38 | the record keeps the code, renders with `bw_Err_msg_string`, and holds a buffer of `strlen(msg)+1` characters: the text and its NUL |
| Errors.AllocMessage | c/src/err.c:13-17 | `bw_Err_msg_string` returns the data unchanged; `bw_Err_msg_success` gives "success"; another renderer gives its own text |
| Errors.Message | c/src/err.c:9-11 | a record made from a string hands out its stored buffer; the success record a fresh "success"; any other renderer a fresh NUL-terminated copy of its text |
| Errors.Free | c/src/err.c:21-23 | for a record made from a string, the buffer released is the very buffer its message handed out; a record without data releases nothing |
| Errors.NewWithMsgMessage | c/src/err.c:9-17 | the message of a record from `new_with_msg` is its own data buffer, and that buffer is what `free` releases |
| Errors.NewWithMsgRoundTrip | c/src/err.c:25-38 | the message of a record from `new_with_msg` reads back as the text of the message it was built from |
| Errors.NewWithText | c/src/err.c:25-38 | a record built from a text without NUL keeps the code and has exactly that text as its message |
| Errors.MessageText | c/src/err.c:9-11 | the text of a message, when there is one, holds no NUL |
| Errors.SuccessMessageText | c/src/err.c:7 | the success record is OK and its message reads "success" |
| CEvent.Fire | c/src/event.c:6-11 | without a callback, FALSE and no call; with one, exactly one call with `(arg, data)`, whose result is returned |
| CEvent.FireCallsAtMostOnce | c/src/event.c:6-11 | `fire` calls at most once, exactly when a callback is set, and returns true only then |
| RustEvent.Effects | src/event.rs:27-32 | invoking gives one effect per registered handler |
| RustEvent.EffectsInOrder | src/event.rs:27-32 | the i-th effect comes from the i-th handler, in registration order |
| RustEvent.AsyncBodiesDoNotRun | src/event.rs:27-32 | a handler's body runs during `invoke` exactly when it was registered with `register`; the future of an `register_async` handler is dropped unpolled |
| RustEvent.Event.constructor | src/event.rs:89-95 | `default` has no handlers |
| RustEvent.Event.Register | src/event.rs:36-43 | `register` appends exactly one synchronous handler |
| RustEvent.Event.RegisterAsync | src/event.rs:65-70 | `register_async` appends exactly one handler that returns a future |
| RustEvent.Event.Invoke | src/event.rs:27-32 | `invoke` yields the effects of every handler, once each, in order |
| CWindow.Window.constructor | c/src/window/common.c:46-69 | a new window is hidden and not dropped, with no user data and no browser, and `windows_alive` goes up by one (mod 2^32); it keeps counting the live windows |
| CWindow.Window.GetApp | c/src/window/common.c:32-34 | `getApp` returns the window's application |
| CWindow.Window.Show | c/src/window/common.c:71-75 | `show` clears `closed` and changes nothing else |
| CWindow.Window.Hide | c/src/window/common.c:36-40 | `hide` sets `closed` and changes nothing else |
| CWindow.Window.IsVisible | c/src/window/common.c:42-44 | visible exactly when not closed |
| CWindow.Window.FreeUserData | src/core/browser_window/c.rs:423-431 | user data is released only when non-NULL, and is NULL afterwards |
| CWindow.Window.Close | c/src/window/common.c:11-16 | `close` releases the user data only when it is non-NULL; the flags do not change |
| CWindow.Window.Free | c/src/window/common.c:18-28 | `windows_alive` goes down by one (mod 2^32); `exit(0)` is posted exactly when it reaches 0 and `is_done` holds; with the count kept, 0 means no live window |
| CApplication.Application.constructor | c/src/application/common.c:60-63 | a new record: counters zero, both flags false, empty queue and timer map |
| CApplication.Application.Initialize | c/src/application/common.c:58-70 | counters zero and flags false; an engine error comes back at once, before the platform part is set up; success otherwise |
| CApplication.Application.IsRunning | c/src/application/common.c:14-16 | returns the `is_running` flag |
| CApplication.Application.Post | c/src/application/win32.c:58 | `PostThreadMessageW` appends to the queue, which stays first in, first out |
| CApplication.Application.Exit | c/src/application/win32.c:274-280 | `exit` appends `WM_QUIT` with the code and changes nothing else |
| CApplication.Application.MarkAsDone | c/src/application/common.c:18-22 | sets `is_done`, and posts `exit(0)` exactly when no window is alive |
| CApplication.Application.Dispatch | c/src/application/win32.c:49-61 | returns `is_running`; the record is posted as `WM_APP` exactly when it is set, at the tail of the queue and of what was posted |
| CApplication.Application.SetTimer | c/src/application/win32.c:176-180 | a new timer id is taken and the timer goes at the tail of the timer map |
| CApplication.Application.DispatchDelayed | c/src/application/win32.c:63-93 | the delay must be below 2^31; returns `is_running`; when running, on the GUI thread a timer is added, and from another thread a wrapper that sets it is posted; when not running nothing changes |
| CApplication.Application.Invoke | c/src/application/win32.c:238-241 | the record's callback is called exactly once, and what it asks for is posted after the messages already waiting, in the order asked |
| CApplication.Application.PerformOne | c/src/application/win32.c:49-93 | one request of a callback: the message it posts, if any, joins the tail of the queue |
| CApplication.Application.Perform | c/src/application/win32.c:49-93 | a callback's requests, in order: the messages they post join the tail of the queue in that order |
| CApplication.RequestPosts | c/src/application/win32.c:49-93 | at most one message per request; a `WM_APP` call only for a dispatch while running, with the dispatched record |
| CApplication.PostedCalls | c/src/application/win32.c:49-61 | while running, the `WM_APP` calls a callback posts are exactly the records it dispatched, in order; otherwise none |
| CApplication.Application.Take | c/src/application/win32.c:213 | the first message waiting is taken out of the queue; nothing posted changes |
| CApplication.Application.RunWork | c/src/application/win32.c:119-125 | a dispatched call runs its callback once and appends what it posts; a posted timer wrapper calls nothing, posts nothing and keeps every timer already set; the messages taken and the flags do not change |
| CApplication.Application.TimerHandler | c/src/application/win32.c:182-196 | for a pending timer id, the first entry with that id runs its callback once and leaves the map; what the callback posts joins the queue and nothing posted is lost |
| CApplication.Application.Fire | c/src/application/win32.c:189-194 | the entry's callback runs once, what it posts joins the queue, then the entry is removed |
| CApplication.Application.Release | c/src/application/win32.c:194 | the entry leaves the timer map, which stays well formed |
| CApplication.Application.StepMessage | c/src/application/win32.c:230-242 | the first message is taken, the others stay first in the queue, and when it is a `WM_APP` call its callback runs and its posts follow; nothing posted is lost |
| CApplication.Application.StepTimer | c/src/application/win32.c:182-196 | the timer at the head of the map fires: its callback runs once and its posts join the tail of the queue |
| CApplication.Application.Turn | c/src/application/win32.c:209-244 | one turn keeps the progress invariant: the calls and the messages taken follow the event log, and exiting mode holds exactly when a `WM_QUIT` has been taken, with its code; nothing posted is lost |
| CApplication.Application.Run | c/src/application/win32.c:200-248 | `run` calls the ready handler first, then the callbacks of the events it handled, in order; when it exits or waits, the messages waiting at the start and those the ready handler posted were handled first, in order, and each `WM_APP` call among them ran; it returns the code of the first `WM_QUIT`, with the queue drained, and `is_running` is cleared on return |
| CApplication.QueuedCallIsRun | c/src/application/win32.c:200-248 | a call waiting when `run` starts is run before the loop exits or waits |
| CApplication.Messages | c/src/application/win32.c:209-244 | an event log has at most one message per event |
| CApplication.Calls | c/src/application/win32.c:238-241 | an event log has at most one callback per event |
| CApplication.CallsWithoutTimers | c/src/application/win32.c:238-241 | without timers, the callbacks run are exactly those of the `WM_APP` calls taken |
| CApplication.EventsSnoc | c/src/application/win32.c:209-244 | one more event adds its message and its callback at the end |
| CApplication.CallsSplit | c/src/application/win32.c:209-244 | the callbacks run are, as a multiset, the `WM_APP` calls taken and the timers fired |
| CApplication.DrainedCalls | c/src/application/win32.c:209-244 | once the queue is drained, what waited was taken first and in order, and its `WM_APP` calls all ran |
| Dispatch.MsgCalls | c/src/application/win32.c:238-241 | a message runs a callback exactly when it is a `WM_APP` call, and at most one |
| Dispatch.FirstQuit | c/src/application/win32.c:215-219 | the code of the first `WM_QUIT` in a message sequence, and none exactly when there is no `WM_QUIT` |
| Dispatch.FirstQuitKept | c/src/application/win32.c:221-228 | once a `WM_QUIT` has been taken, later messages do not change the exit code |
| Dispatch.FirstQuitNext | c/src/application/win32.c:215-219 | before the first `WM_QUIT`, a `WM_QUIT` sets the exit code to its own |
| Dispatch.CallRecordsSnoc | c/src/application/win32.c:238-241 | one more message adds its call, if any, at the end |
| Dispatch.CallRecordsAppend | c/src/application/win32.c:238-241 | the calls of two runs of messages are those of the first, then those of the second |
| Dispatch.CallRecordsPrefix | c/src/application/win32.c:238-241 | the calls of messages handled first come first |
| Dispatch.Drained | c/src/application/win32.c:213 | first in, first out: once all that was posted has been taken, what waited was taken first, in order |
| TimerMap.TimerEntry.constructor | c/src/application/win32.c:97-102 | a new entry holds the id and the record and has `next = 0` |
| TimerMap.Contents | c/src/application/win32.c:95-117 | the map's contents, one timer per entry, in list order |
| TimerMap.Ids | c/src/application/win32.c:132 | the timer ids, in list order |
| TimerMap.IndexOf | c/src/application/win32.c:127-138 | the position of the first entry with an id, and none exactly when the id is absent |
| TimerMap.IndexOfFirst | c/src/application/win32.c:127-138 | an entry with the id and none before it is the one found |
| TimerMap.NodeSet | c/src/application/win32.c:140-151 | the set of the entries in the list |
| TimerMap.FindAsWritten | c/src/application/win32.c:127-138 | as written: an empty map gives 0 |
| TimerMap.FindAsWrittenHangsIff | c/src/application/win32.c:132-135 | as written, the lookup loops forever exactly when the head does not match and has a successor; otherwise it returns the right answer |
| TimerMap.FindAsWrittenMissesSecond | c/src/application/win32.c:132-135 | a map of ids 1 and 2: looking up 2 loops forever, though 2 is in second place |
| TimerMap.Without | c/src/application/win32.c:153-174 | the list with one entry taken out: same order, one shorter |
| TimerMap.WithoutKeepsDistinct | c/src/application/win32.c:153-174 | taking an entry out keeps the entries distinct |
| TimerMap.WithoutFreed | c/src/application/win32.c:157 | the entry taken out is freed, and no entry still listed is |
| TimerMap.WithoutListed | c/src/application/win32.c:153-174 | taking an entry out adds nothing to the list |
| TimerMap.FreedNotListed | c/src/application/win32.c:153-174 | a freed entry is not in the list |
| TimerMap.AppendKeepsDistinct | c/src/application/win32.c:95-117 | appending a new entry keeps the entries distinct |
| TimerMap.AppendFreed | c/src/application/win32.c:95-117 | appending an entry that was never freed keeps the list free of freed entries |
| TimerMap.TimerMap.constructor | c/src/application/win32.c:95-117 | the timer map starts empty |
| TimerMap.TimerMap.Add | c/src/application/win32.c:95-117 | `addToTimerMap` puts a fresh entry at the tail, keeping the earlier entries in order; an empty map becomes that one entry |
| TimerMap.TimerMap.Find | c/src/application/win32.c:127-138 | corrected lookup: the first entry with the id, or 0 when there is none |
| TimerMap.TimerMap.Remove | c/src/application/win32.c:153-174 | corrected removal: true exactly when the entry is listed; it is then unlinked and freed and the rest keeps its order; otherwise nothing changes |
| TimerMap.TimerMap.FindPrevious | c/src/application/win32.c:161-171 | the walk from the head stops at the entry, with its predecessor, or at the end when the entry is absent |
| TimerMap.TimerMap.UnlinkHead | c/src/application/win32.c:155-159 | removing the head makes its successor the head and frees it |
| TimerMap.TimerMap.Unlink | c/src/application/win32.c:165-167 | corrected relink: the predecessor's `next` skips the entry, which is freed |
| TimerMap.TimerMap.RemoveAsWritten | c/src/application/win32.c:153-174 | as written: the head is removed correctly, an absent entry gives false, but a later entry is freed while still linked, so the list is broken |
| TimerMap.TimerMap.Free | c/src/application/win32.c:140-151 | every timer is killed, in list order, and every entry is freed |
| FfiApplication.Application.constructor | ffi/src/application/win32.c:120-127 | `initialize`: `is_running` false, no windows, empty queue |
| FfiApplication.Application.IsRunning | ffi/src/application/win32.c:47-54 | returns the current flag |
| FfiApplication.Application.Post | ffi/src/application/win32.c:41 | appends to the queue, which stays first in, first out |
| FfiApplication.Application.Dispatch | ffi/src/application/win32.c:32-44 | returns `is_running`; the record is posted exactly when it is set |
| FfiApplication.Application.Exit | ffi/src/application/win32.c:143-149 | appends `WM_QUIT` with the code |
| FfiApplication.Application.Invoke | ffi/src/application/win32.c:104-109 | the record's callback is called exactly once, and what it asks for is posted after the messages already waiting, in the order asked |
| FfiApplication.Application.Perform | ffi/src/application/win32.c:32-44 | a callback's requests, in order: the messages they post join the tail of the queue in that order |
| FfiApplication.RequestPosts | ffi/src/application/win32.c:32-44 | at most one message per request; a `WM_APP` call only for a dispatch while the loop runs, a `WM_QUIT` for every exit |
| FfiApplication.Posts | ffi/src/application/win32.c:32-44 | every `WM_APP` a callback posts carries a dispatch record |
| FfiApplication.PostedCalls | ffi/src/application/win32.c:32-44 | while the loop runs, the `WM_APP` calls a callback posts are exactly the records it dispatched, in order; otherwise none |
| FfiApplication.Application.Take | ffi/src/application/win32.c:74-95 | the first message waiting is taken out of the queue; nothing posted changes |
| FfiApplication.Application.Turn | ffi/src/application/win32.c:71-111 | one turn keeps the progress invariant: calls and messages taken follow the log, and exiting holds exactly when a `WM_QUIT` was taken; nothing posted is lost |
| FfiApplication.Application.Run | ffi/src/application/win32.c:57-117 | the ready handler runs first, then the `WM_APP` callbacks in order; when it exits or waits, the messages waiting at the start and those the ready handler posted were handled first, in order, and their calls ran first; `is_running` is false exactly when a `WM_QUIT` has been taken; the result is the first `WM_QUIT`'s code with the queue drained |
| FfiWindow.NoRepeatsAppend | ffi/src/window/common.c:10-31 | joining two repeat-free sequences with nothing in common gives a repeat-free sequence |
| FfiWindow.Window.Chain | ffi/src/window/common.c:13-14 | the parent chain includes the window itself |
| FfiWindow.Window.Ancestors | ffi/src/window/common.c:13-14 | the ancestors lie strictly above the window and include the parent's ancestors |
| FfiWindow.Window.Cascade | ffi/src/window/common.c:10-31 | the records one `destroy` frees end with the window itself |
| FfiWindow.Window.CascadeBelow | ffi/src/window/common.c:13-14 | along the cascade the ancestors come first, each above the next |
| FfiWindow.Window.CascadeSplit | ffi/src/window/common.c:13-18 | when the parent is closed and dropped, the cascade is the parent's cascade followed by the window, and the cleanups are the parent's followed by this window's when it has a handler |
| FfiWindow.Window.CascadeAlone | ffi/src/window/common.c:13-18 | otherwise only the window goes, and its cleanup runs only when set |
| FfiWindow.Window.NotAncestor | ffi/src/window/common.c:13-14 | a window is never its own ancestor |
| FfiWindow.Window.CascadeNoRepeats | ffi/src/window/common.c:10-31 | no record appears twice in a cascade |
| FfiWindow.Window.constructor | ffi/src/window/common.c:69-91 | a new window is open and not dropped, has the user data given and no callbacks, and is counted as alive |
| FfiWindow.Window.GetApp | ffi/src/window/common.c:35-37 | `getApp` returns the window's application |
| FfiWindow.Window.IsClosed | ffi/src/window/common.c:39-41 | returns the `closed` flag |
| FfiWindow.Window.Open | ffi/src/window/common.c:93-97 | `open` clears `closed` and changes nothing else |
| FfiWindow.Window.CountOut | ffi/src/window/common.c:25-30 | `windows_alive` goes down by one and `exit(0)` is posted exactly when no window remains |
| FfiWindow.Window.Finish | ffi/src/window/common.c:16-30 | corrected tail of `destroy`: the cleanup runs only when set, the record is freed once, the count goes down, and nothing is read after the free |
| FfiWindow.Window.FinishAsWritten | ffi/src/window/common.c:21-26 | as written: `window->app` is read after `free(window)` |
| FfiWindow.Window.Destroy | ffi/src/window/common.c:10-31 | corrected `destroy`: the parent's cascade goes first when it is closed and dropped; every record of the cascade is freed once, in order, with its cleanup when set; the exit is posted when the last window goes |
| FfiWindow.Window.DestroyAsWritten | ffi/src/window/common.c:10-31 | as written: every record of the cascade is read after it has been freed |
| FfiWindow.Window.Close | ffi/src/window/common.c:46-56 | sets `closed`; a dropped window is destroyed, with its cascade; otherwise nothing is freed |
| FfiWindow.Window.Drop | ffi/src/window/common.c:60-67 | corrected `drop`: sets `dropped`; a closed window is destroyed once, with its cascade; otherwise nothing is freed |
| FfiWindow.Window.DropAsWritten | ffi/src/window/common.c:60-67 | as written: a closed window is freed by `destroy` and then again by `drop` |
| FfiWindow.Window.ParentCheck | ffi/src/window/common.c:13 | the test whether the parent goes too reads the parent's flags, which is a read after free exactly when the parent was already freed; nothing else changes |
| FfiWindow.DestroyFreesOnce | ffi/src/window/common.c:10-31 | `destroy` on records not yet freed frees none of them twice |
| FfiWindow.DropAsWrittenFreesTwice | ffi/src/window/common.c:63-65 | dropping a closed window as written always frees some record twice |
| FfiWindow.NewParentAndChild | ffi/src/window/common.c:69-91 | two calls of `bw_Window_new`, the second with the first as parent, give two fresh windows that are open, held, counted and not freed |
| FfiWindow.ParentFreedFirstAsWritten | ffi/src/window/common.c:10-67 | closing and dropping a parent and then a child: the parent is freed first, and the child's `destroy` reads its flags and would destroy it again |
| EvalCallbacks.CallForExclusive | ffi/src/cef/eval_callback_store.cpp:51-57 | the callback gets the result and a null error on success, a null result and the error otherwise, never both; the window and the user data are the stored ones |
| EvalCallbacks.CallFor | ffi/src/cef/eval_callback_store.cpp:51-57 | exactly one of result and error is set, with the stored window, callback and data |
| EvalCallbacks.EvalCallbackStore.constructor | ffi/src/cef/eval_callback_store.cpp:8 | a new store is empty with `next_key` 0 |
| EvalCallbacks.EvalCallbackStore.Store | ffi/src/cef/eval_callback_store.cpp:21-31 | returns the current `next_key`, raises it by one (mod 2^32) and maps the key to the data; until the counter wraps the key is fresh |
| EvalCallbacks.EvalCallbackStore.Invoke | ffi/src/cef/eval_callback_store.cpp:33-60 | corrected `invoke`: true exactly when the id is stored; the entry is erased and its callback called once with the outcome; an unknown id calls nothing |
| EvalCallbacks.EvalCallbackStore.InvokeAsWritten | ffi/src/cef/eval_callback_store.cpp:45-48 | as written: the entry is read through its iterator after `erase` |
| EvalCallbacks.InvokeTwice | ffi/src/cef/eval_callback_store.cpp:36-45 | a second `invoke` of the same id returns false and calls nothing |
| HandleMaps.Lookup | c/src/cef/bw_handle_map.hpp:56-69 | the entry for an id, and none exactly when the id is absent |
| HandleMaps.HandleMap.constructor | c/src/cef/bw_handle_map.hpp:34 | no links and the mutex free |
| HandleMaps.HandleMap.Lock | c/src/cef/bw_handle_map.hpp:38 | locking a held mutex is a fault |
| HandleMaps.HandleMap.Unlock | c/src/cef/bw_handle_map.hpp:40 | unlocking a free mutex is a fault |
| HandleMaps.HandleMap.Drop | c/src/cef/bw_handle_map.hpp:37-41 | the id is erased and every other entry is unchanged |
| HandleMaps.HandleMap.Store | c/src/cef/bw_handle_map.hpp:44-52 | corrected `store`: the id maps to the handle with the creation callback pending, overwriting any entry, and the lock is paired |
| HandleMaps.HandleMap.StoreAsWritten | c/src/cef/bw_handle_map.hpp:44-52 | as written: the same entry, but the mutex is unlocked without being locked |
| HandleMaps.HandleMap.Fetch | c/src/cef/bw_handle_map.hpp:56-69 | corrected `fetch`: the stored info or none, with the mutex released on both paths |
| HandleMaps.HandleMap.FetchAsWritten | c/src/cef/bw_handle_map.hpp:56-69 | as written: a miss returns with the mutex still held |
| HandleMaps.HandleMap.ClearCallback | c/src/cef/client_handler.hpp:110-113 | the pending creation callback of the entry is reset in place; everything else is unchanged |
| HandleMaps.FetchMissTwiceAsWritten | c/src/cef/bw_handle_map.hpp:61-62 | two misses in a row as written lock a held mutex |
| ClientHandler.CreatedCount | c/src/cef/client_handler.hpp:114 | the number of creation callbacks among the effects |
| ClientHandler.CreatedCountAppend | c/src/cef/client_handler.hpp:114 | counts of creation callbacks add up over a sequence of events |
| ClientHandler.EntryEffects | c/src/cef/client_handler.hpp:108-118 | for a found entry, the creation callback runs first when pending, then `on_navigation_end` fires with the error |
| ClientHandler.AfterCreation | c/src/cef/client_handler.hpp:110-113 | after the event, the entry has no pending callback and keeps its handle; other entries are unchanged |
| ClientHandler.CreationAtMostOnce | c/src/cef/client_handler.hpp:110-115 | with the reset kept, over two load events the creation callback runs at most once; a found entry always fires; a missing entry fires nothing |
| ClientHandler.CreationTwiceAsWritten | c/src/cef/client_handler.hpp:106-114 | caller and `fetch` disagree on the type (pointer against copy); under the copy reading the reset is lost, and two load events run the creation callback twice |
| ClientHandler.CreationEffects | c/src/cef/client_handler.hpp:106-114 | a browser without an entry causes nothing; one with an entry always gets `on_navigation_end` with the error |
| ClientHandler.InvokeCreationCallback | c/src/cef/client_handler.hpp:105-124 | corrected: the effects of the entry, the pending callback reset in the map, and the lock released |
| ClientHandler.InvokeCreationCallbackAsWritten | c/src/cef/client_handler.hpp:105-124 | under the copy reading of `fetch` (caller and `fetch` disagree on pointer against copy): the same effects, but the map keeps the callback pending |
| ClientHandler.ConvertLoadResult | c/src/cef/client_handler.hpp:95-103 | code 0 gives success; another code gives an error with that code (as unsigned) and the error text |
| ClientHandler.ConvertLoadResultError | c/src/cef/client_handler.hpp:95-103 | the result is OK exactly when the code is 0; otherwise its message reads as the text; a negative code wraps to 2^32 plus the code |
| ClientHandler.OnLoadEnd | c/src/cef/client_handler.hpp:90-93 | a load end routes to the creation callback with success |
| ClientHandler.OnLoadError | c/src/cef/client_handler.hpp:126-129 | a load error routes to the creation callback with the converted error |
| ClientHandler.GetBool | c/src/cef/client_handler.hpp:221-238 | a list's boolean is true exactly when that position holds true |
| ClientHandler.GetString | c/src/cef/client_handler.hpp:221-238 | a list's string is the string at that position, and empty when there is none |
| ClientHandler.ProcessMessageHandled | c/src/cef/client_handler.hpp:180-201 | true exactly for "eval-js-result" and "invoke-handler" |
| ClientHandler.EvalJsResult | c/src/cef/client_handler.hpp:207-252 | with the three binaries present, the callback gets the window, callback and data from them; on success the result text and a null error; on failure a null result and an error with code 1 built from the text |
| ClientHandler.EvalJsResultError | c/src/cef/client_handler.hpp:243-251 | a failed evaluation gives an error with code 1 whose message reads as the result text |
| ClientHandler.ReadParams | c/src/cef/client_handler.hpp:275-280 | the parameters are positions 1 to n-1, in order |
| ClientHandler.OnInvokeHandlerReceived | c/src/cef/client_handler.hpp:254-293 | for a known browser with a command, the window, the command at position 0 and the parameters in order; the map is unchanged and the lock released |
| EdgeBridge.ParseArgs | ffi/src/browser_window/edge.cpp:36-44 | `parse_args` on a `const char*` gives the fields `getline` reads, with `\x03` as delimiter, from the text before the first NUL |
| EdgeBridge.InvokeExternMessage | ffi/src/browser_window/edge.cpp:196-203 | the joined message splits back into parts free of the delimiter, and holds no NUL when no part does |
| EdgeBridge.CStr | ffi/src/browser_window/edge.cpp:189 | `c_str()` gives a NUL-terminated string |
| EdgeBridge.CText | ffi/src/browser_window/edge.cpp:189 | the text a `c_str()` pointer stands for is the string up to its first NUL |
| EdgeBridge.GetlineFields | ffi/src/browser_window/edge.cpp:40-42 | no field holds the delimiter; the fields glued back are the text, but for a final delimiter; a field is dropped exactly when the last piece is empty |
| EdgeBridge.NulCutsArguments | ffi/src/browser_window/edge.cpp:189 | `invoke_extern("a\0b", "c")` reaches the handler as the command "a" alone |
| EdgeBridge.ArgsSlices | ffi/src/browser_window/edge.cpp:49-61 | one slice per argument, with its length, in order |
| EdgeBridge.ScriptNotifyAsWritten | ffi/src/browser_window/edge.cpp:187-193 | as written, on the text before the first NUL: with no field `slices[0]` is out of range; otherwise the command is the first field and the rest are arguments |
| EdgeBridge.ScriptNotify | ffi/src/browser_window/edge.cpp:187-193 | corrected: the text before the first NUL is split like `join` builds it, so there is always a command and every field of it is kept |
| EdgeBridge.LastPieceEmpty | ffi/src/browser_window/edge.cpp:36-44 | the last field is empty exactly when the message is empty or ends with the delimiter |
| EdgeBridge.FieldsRestored | ffi/src/browser_window/edge.cpp:36-44 | the fields `getline` reads, with the dropped empty last piece put back, are every piece of the split |
| EdgeBridge.NoFieldsAsWritten | ffi/src/browser_window/edge.cpp:40 | `getline` gives no field exactly for a message that is empty or starts with NUL; `invoke_extern()` sends the empty one |
| EdgeBridge.InvokeExternAsWritten | ffi/src/browser_window/edge.cpp:196-203 | as written, `invoke_extern` arguments free of the delimiter and of NUL come back whole exactly when the last is not empty; an empty last one is lost |
| EdgeBridge.InvokeExternDelivered | ffi/src/browser_window/edge.cpp:196-203 | corrected: arguments free of the delimiter and of NUL split back into exactly the arguments |
| EdgeBridge.WrapScript | ffi/src/browser_window/edge.cpp:66-69 | the code sits whole between the two fixed parts of the try/catch wrapper; a code without NUL gives a script without NUL |
| EdgeBridge.UnwrapWrap | ffi/src/browser_window/edge.cpp:66-70 | the script is kept whole inside the try/catch wrapper, and `to_hstring(js.c_str())` passes all of it when it holds no NUL |
| EdgeBridge.CompletedReply | ffi/src/browser_window/edge.cpp:94-114 | a result exactly for an answer starting with "ok:", its text up to the first NUL; an error with code 1 only for one starting with "err:"; the failed assertion exactly for an answer with neither prefix |
| EdgeBridge.EvalReplyOf | ffi/src/browser_window/edge.cpp:78-116 | a result comes only from a completed operation, an error only from a completed or failed one, and no call only from a started or canceled one |
| EdgeBridge.ReplyToScriptResult | ffi/src/browser_window/edge.cpp:94-112 | a returned value comes back as its text after "ok:", cut at the first NUL by `c_str()` and whole when it holds none; a thrown error as an error with code 1 and message "JavaScript error: " and the error text |
| EdgeBridge.ReplyCases | ffi/src/browser_window/edge.cpp:78-116 | the callback is skipped exactly for `Started` and `Canceled`; the assertion fails exactly for a completed result without either prefix; HRESULT 0x80020101 gives "JavaScript syntax error" and any other error code the unhandled-HRESULT error |
| CefBrowserWindow.UnwrapEvalJsCode | c/src/browser_window/cef.cpp:64-66 | the script is kept whole inside the function wrapper |
| CefBrowserWindow.EvalJsCode | c/src/browser_window/cef.cpp:64-66 | the script sits whole between the fixed prefix and suffix of the function wrapper |
| CefBrowserWindow.ReadEvalJsMessage | c/src/browser_window/cef.cpp:232-243 | the code is at position 0 and the window, callback and data at 1 to 3, and each is read back from its place |
| CefBrowserWindow.BrowserWindow.constructor | c/src/browser_window/cef.cpp:183-185 | before creation the CEF pointer and the resource path are 0 |
| CefBrowserWindow.BrowserWindow.EvalJs | c/src/browser_window/cef.cpp:61-76 | sends an "eval-js" message with the wrapped script, the window, the callback and its data |
| CefBrowserWindow.BrowserWindow.EvalJsThreaded | c/src/browser_window/cef.cpp:80-82 | sends the same message as `evalJs` |
| CefBrowserWindow.SourceString | c/src/browser_window/cef.cpp:168-177 | a URL is used as it is; HTML follows the "data:text/html," prefix and is recovered after it |
| CefBrowserWindow.ResourcePathText | c/src/browser_window/cef.cpp:187-192 | the resource path is 0 exactly for an empty slice; otherwise a NUL-terminated copy that reads back as the path |
| CefBrowserWindow.ResourcePath | c/src/browser_window/cef.cpp:187-192 | NULL exactly for an empty slice; otherwise the slice's characters followed by one NUL |
| CefBrowserWindow.ImplNew | c/src/browser_window/cef.cpp:156-223 | the browser is created with the source URL and the dictionary of window, callback, data and dev-tools flag; the handle map gets the link with the creation callback pending; the window gets the CEF pointer and the resource path |
| CefBrowserWindow.ResizeBeforeAndAfterCreation | c/src/browser_window/cef.cpp:250-265 | a resize before the CEF browser exists does nothing, and one after it reaches the browser; without a browser window nothing happens |
| CefBrowserWindow.OnResize | c/src/browser_window/cef.cpp:250-265 | a resize reaches the browser exactly when the window has a CEF browser, with the size given |
| V8ToString.BoolToString | c/src/cef/v8_to_string.hpp:90-95 | "true" exactly for true and "false" exactly for false |
| V8ToString.IntegerText | c/src/cef/v8_to_string.hpp:37-42 | an `int` or `unsigned int` gives its decimal digits with `-` only when negative and no `.`; a larger or smaller integer gives the `double` form ending in ".000000" |
| V8ToString.Render | c/src/cef/v8_to_string.hpp:13-86 | the reference rendering writes arrays in `[…]`, objects in `{…}` and strings in quotes, and integers as `IntegerText` |
| V8ToString.FindKey | c/src/cef/v8_to_string.hpp:71 | the position of the first property with a key, and none exactly when no property has it |
| V8ToString.KeySource | c/src/cef/v8_to_string.hpp:71 | fetched by key, the i-th key's value is the i-th property's |
| V8ToString.Convert | c/src/cef/v8_to_string.hpp:13-86 | `convert` renders the value as the reference rendering for the given fetch |
| V8ToString.ConvertItems | c/src/cef/v8_to_string.hpp:49-59 | the array loop renders the items in order with `,` between them |
| V8ToString.ConvertProps | c/src/cef/v8_to_string.hpp:62-75 | the object loop renders `key:value` for each key in order, with `,` between them |
| V8ToString.ConvertValue | c/src/cef/v8_to_string.hpp:71 | the value rendered for a key is the one fetched for it, or "undefined" |
| V8ToString.ItemsTextJoin | c/src/cef/v8_to_string.hpp:49-59 | an array renders as its items' renderings joined with `,` |
| V8ToString.JoinSnoc | c/src/cef/v8_to_string.hpp:55-57 | joining one more piece puts a `,` before it |
| V8ToString.FetchesAgreeOnIndexKeys | c/src/cef/v8_to_string.hpp:71 | on an object whose keys are 0, 1, 2 … (with scalar values) fetching by index and by key agree |
| V8ToString.ValueTextAgrees | c/src/cef/v8_to_string.hpp:71 | on such an object each key's value renders the same under both fetches |
| V8ToString.IndexKeyFound | c/src/cef/v8_to_string.hpp:71 | on such an object the i-th key is found at position i |
| V8ToString.ObjectByIndexAsWritten | c/src/cef/v8_to_string.hpp:71 | as written, `{a:1}` renders as `{a:undefined}` |
| V8ToString.ObjectByKey | c/src/cef/v8_to_string.hpp:62-75 | fetched by key, each property renders with its own value, so `{a:1}` renders as `{a:1}` |
| V8ToString.DatesAndFunctionsRenderAsObjects | c/src/cef/v8_to_string.hpp:62-85 | a date or a function takes the object branch, so "date" and "function" are never produced |
| V8ToString.DecodedByFromString | src/javascript.rs:33-78 | the renderings decode on the Rust side: a string (unescaped) as that string; null, undefined and booleans as themselves; a non-negative integer as a number; a negative one as `Other` |
| V8ToString.StringDecoded | c/src/cef/v8_to_string.hpp:24-30 | a rendered string, whatever it holds, decodes as that string |
| V8ToString.ScalarsDecoded | c/src/cef/v8_to_string.hpp:16-34 | rendered null, undefined and booleans decode as themselves |
| V8ToString.NaturalDecoded | c/src/cef/v8_to_string.hpp:37-42 | a rendered non-negative `int` or `unsigned int` decodes as a number with that literal |
| V8ToString.NegativeDecoded | c/src/cef/v8_to_string.hpp:37-42 | a rendered negative `int` decodes as `Other`, since it does not start with a digit |
| V8ToString.DigitsAreNumber | src/javascript.rs:39-44 | a string of decimal digits is a number literal |
| JavaScript.Lookup | src/javascript.rs:67-75 | the value stored for a key, and none exactly when the key is absent |
| JavaScript.KeysCons | src/javascript.rs:67-75 | the keys of a map are its first key and the keys of the rest |
| JavaScript.Insert | src/javascript.rs:72 | `HashMap::insert` adds at most one entry |
| JavaScript.InsertSpec | src/javascript.rs:72 | after an insert the key maps to the new value, other keys keep theirs, and keys stay distinct |
| JavaScript.InsertAll | src/javascript.rs:67-75 | inserting all pairs keeps the keys distinct |
| JavaScript.PairKeysCons | src/javascript.rs:67-75 | the keys of the pairs are the first pair's key, if any, and the rest's keys |
| JavaScript.InsertAllKeys | src/javascript.rs:67-75 | the object's keys are exactly the keys of the parts that hold `:` |
| JavaScript.LastValueSnoc | src/javascript.rs:67-75 | a later pair with a key overrides earlier ones |
| JavaScript.LastValueCons | src/javascript.rs:67-75 | an earlier pair with a key counts only when no later one has it |
| JavaScript.InsertAllLookup | src/javascript.rs:67-75 | each key of a decoded object maps to the value of the last part with that key |
| JavaScript.FromString | src/javascript.rs:33-78 | empty gives `Other("")`; the four words give their values, and only they; a leading digit gives `Number` (literal kept) or a "unable to parse number" `Other`; `"…"` gives the inner string; `[…]` an array; `{…}` an object with distinct keys |
| JavaScript.ParsePair | src/javascript.rs:69-73 | a part gives a pair exactly when it holds `:`; the key is the text before the first `:` |
| JavaScript.ArrayParts | src/javascript.rs:60-66 | an array is the inner text split on every `,`, each part decoded |
| JavaScript.ObjectParts | src/javascript.rs:67-75 | an object's keys are those of the parts with `:`, and each maps to the value of its last part |
| JavaScript.OtherText | src/javascript.rs:77 | any other text decodes as `Other` of itself |
| JavaScript.QuotedSliceAsWritten | src/javascript.rs:57-59 | as written, `s[1..len-1]` exists exactly when the text has two characters or more |
| JavaScript.LoneQuotePanicsAsWritten | src/javascript.rs:57-59 | as written, the text `"` of one quote has no such slice: the slice 1..0 panics |
| JavaScript.LoneQuoteIsOther | src/javascript.rs:57-59 | corrected: the text `"` decodes as `Other` |
| JavaScript.EmptyBracketsDecode | src/javascript.rs:60-66 | `[]` decodes as an array of one `Other("")` |
| JavaScript.UnescapedCharactersExactly | src/javascript.rs:153-154 | a character is in `UNESCAPED_CHARACTERS` exactly when it is printable ASCII other than `"`, `'` and `\` |
| JavaScript.DigitsPart | src/javascript.rs:153 | the first part of the constant is space, `-`, `_` and the digits |
| JavaScript.LowerPart | src/javascript.rs:153 | the lower-case letters |
| JavaScript.UpperPart | src/javascript.rs:153 | the upper-case letters |
| JavaScript.PunctuationPart | src/javascript.rs:154 | the punctuation part |
| JavaScript.EscapeChar | src/javascript.rs:167-205 | an escape starts with `\` and has at least two characters |
| JavaScript.EscapePiece | src/javascript.rs:163-209 | an unescaped character is kept, any other is escaped |
| JavaScript.EscapeCountZero | src/javascript.rs:213-217 | the escape counter stays 0 exactly when every character is unescaped |
| JavaScript.EscapedLength | src/javascript.rs:156-218 | each escape adds at least one character |
| JavaScript.EscapedIdentity | src/javascript.rs:213-217 | a string of unescaped characters comes out unchanged |
| JavaScript.EscapedUnchangedIff | src/javascript.rs:156-218 | escaping leaves a string unchanged exactly when every character is unescaped |
| JavaScript.EscapeString | src/javascript.rs:156-218 | the loop produces the escaped string; empty input and input of unescaped characters come back as they are |
| JavaScript.ControlEscapes | src/javascript.rs:167-195 | `\r \n \t \b \v \f \0` get their two-character escapes |
| JavaScript.HexEscapes | src/javascript.rs:197-202 | 0x7f and 0xa9 get `\x` with two hexadecimal digits |
| JavaScript.UnicodeEscapes | src/javascript.rs:204 | U+1234 and U+2764 get `\u{…}` |
| JavaScript.Escape1234 | src/javascript.rs:204 | U+1234 gives `\u{1234}` |
| JavaScript.Escape2764 | src/javascript.rs:204 | U+2764 gives `\u{2764}` |
| JavaScript.Hex1234 | src/javascript.rs:204 | 0x1234 in hexadecimal is "1234" |
| JavaScript.Hex2764 | src/javascript.rs:204 | 0x2764 in hexadecimal is "2764" |
| JavaScript.EscapedSnoc | src/javascript.rs:163-209 | escaping one more character appends its piece |
| JavaScript.EscapedStep | src/javascript.rs:163-209 | escaping a string and then a character appends the piece |
| JavaScript.EscapeTestVector | src/javascript.rs:224-229 | the test's input escapes to the test's expected output |
| JavaScript.ToStringUnenclosed | src/javascript.rs:115-120 | a string gives its characters unquoted; anything else its display |
| JavaScript.Display | src/javascript.rs:123-150 | arrays, objects and strings are written between their own delimiters (the empty array as `[]`, the empty object as `{}`), which is what decoding dispatches on |
| JavaScript.DisplayEntries | src/javascript.rs:138-144 | each entry is its quoted key, `:` and its value, back to back with no separator; none gives the empty text |
| JavaScript.ScalarsRoundTrip | src/javascript.rs:123-150 | null, undefined and both booleans decode back from their display |
| JavaScript.StringRoundTrip | src/javascript.rs:146 | a displayed string decodes as its escaped form, so it round-trips exactly when nothing needed escaping |
| JavaScript.NumberRoundTrip | src/javascript.rs:39-44 | a number literal decodes back from its display |
| JavaScript.ArrayRoundTrip | src/javascript.rs:126-135 | a non-empty array of round-tripping items without `,` in their displays decodes back |
| JavaScript.EmptyArrayDoesNotRoundTrip | src/javascript.rs:60-66 | the empty array displays as `[]`, which does not decode back to it |
| RustBrowserWindow.SizeArgValues | src/core/browser_window/c.rs:158-165 | an unspecified size is -1; a size below 2^31 is passed as it is; a larger one turns negative, and `u32::MAX` becomes -1 |
| RustBrowserWindow.SizeArg | src/core/browser_window/c.rs:158-165 | an unspecified size is -1; a given size keeps its 32 bits |
| RustBrowserWindow.CefUrlOfSource | src/core/browser_window/c.rs:174-194 | a file becomes its "file:///" URL, HTML the data URL and a URL itself; `is_html` is set only for HTML |
| RustBrowserWindow.CSource | src/core/browser_window/c.rs:174-194 | `is_html` is set exactly for HTML, and the slice covers the whole text |
| RustBrowserWindow.ErrorConverterAgrees | src/core/browser_window/c.rs:381-388 | `Ok` exactly when the code is 0; otherwise the error itself |
| RustBrowserWindow.ErrorConverter | src/core/browser_window/c.rs:381-388 | `Ok` exactly when the code is 0; the error itself otherwise |
| RustBrowserWindow.BoolConverterValues | src/core/browser_window/c.rs:390 | 0 and 1 convert to false and true; a negative value converts to false |
| RustBrowserWindow.BoolConverter | src/core/browser_window/c.rs:390 | true only for a nonzero value, and true for 1 |
| RustBrowserWindow.MessageArgsConverter | src/core/browser_window/c.rs:402-419 | the command's text, and `arg_count` arguments, each decoded by `from_string`, in order |
| RustBrowserWindow.MessageArgsOfValues | src/core/browser_window/c.rs:402-419 | arguments sent as the displays of round-tripping values come out as those values |
| RustBrowserWindow.CStrText | src/core/browser_window/c.rs:336 | a C string is read up to its first NUL and no further; a result without NUL is read whole |
| RustBrowserWindow.EvalJsResultInRust | src/core/browser_window/c.rs:330-348 | a successful evaluation reaches Rust as the decoded result; a failed one as an error with code 1 whose message is the result text |
| RustBrowserWindow.EvalJsCallbackResult | src/core/browser_window/c.rs:330-348 | the window comes back with `Ok` exactly when the error is NULL, holding the decoded result text, and `Err` with the error otherwise |
| RustBrowserWindow.SucceededMessage | c/src/cef/client_handler.hpp:221-243 | a success message with the three binaries always reaches a callback |
| RustBrowserWindow.V8StringReachesRust | src/core/browser_window/c.rs:335-339 | a script whose value is a string without NUL reaches Rust as that string, and `null` as `Null` |
| Strings.DecimalRoundTrip | c/src/cef/v8_to_string.hpp:37-42 | the decimal digits printed for a number read back as it |
| Strings.DecimalInjective | c/src/cef/v8_to_string.hpp:71 | different numbers print different decimal digits |
| Strings.Split | src/javascript.rs:61 | Rust's `split` gives at least one piece, none holding the separator |
| Strings.JoinSplit | src/javascript.rs:61 | joining the pieces of a split gives the text back |
| Strings.SplitJoin | ffi/src/browser_window/edge.cpp:199-200 | splitting pieces without the separator after joining gives the pieces back |
| Strings.SplitOnce | src/javascript.rs:70 | `split_once` finds none exactly when the separator is absent; otherwise the text is the part before, the separator and the rest |

## Left out

- Native GUI and engine calls are left out: window creation, showing and hiding, `CefBrowserHost`, WebView2 and the WinRT async operations. They are effects with no logic here. `CreateBrowserSync`'s browser identifier and pointer are parameters of `CefBrowserWindow.ImplNew`.
- The `bw_WindowImpl_*` and `bw_ApplicationImpl_finish` platform parts are left out, apart from freeing the timer map.
- Locks are not modelled as concurrency. The SRW locks and the `std::mutex` of the handle map and of the callback store have no blocking. The handle map's mutex is a ghost flag that counts misuse as faults.
- There is one GUI thread and one application. `DispatchDelayed` takes "on the GUI thread" as a parameter.
- CApplication.Application.Run: a timer fires only when no posted message is waiting, the earliest set first. No clock is modelled. This approximates the low priority of `WM_TIMER`.
- CApplication.Application.Run and FfiApplication.Application.Run take a `fuel` bound, because a callback can re-dispatch forever. A run that uses up its fuel ends with `OutOfFuel` and promises nothing about the queue.
- CApplication.Application.Run and FfiApplication.Application.Run: `Waiting` stands for `GetMessageW` blocking on an empty queue. The model stops there, because no other thread is modelled.
- The `res == -1` error path of `GetMessageW` (`BW_WIN32_PANIC_LAST_ERROR`) is left out, as is the `TranslateMessage`/`DispatchMessageW` handling of non-`WM_APP` messages.
- `free` of dispatch records after a callback runs is left out. Timer entries are tracked as freed; dispatch records are not.
- V8ToString: numbers that are not integers carry the text `std::to_string(double)` prints. Floating point is not modelled. Integers outside `int` and `unsigned int` are printed with six zero decimals.
- V8 values of an unknown type render as "unknown type". The "date" and "function" branches cannot be reached, because `IsObject` holds for them first. `DatesAndFunctionsRenderAsObjects` states this.
- JavaScript.FromString: `BigFloat::from_str` is not modelled. A number keeps its literal, and `NumberSyntax` (digits, an optional fraction, an optional exponent) stands in for the grammar `BigFloat` accepts.
- JavaScript.Display and JavaScript.NumberRoundTrip: `Display` of a number writes the `BigFloat` with its own formatting (src/javascript.rs:137), which may differ from the literal it was parsed from. The model writes the literal back, so `NumberRoundTrip` holds for the literal and not for `BigFloat`'s own output.
- `JsValue::Object`'s `HashMap` is a list of distinct keys in insertion order, so that `Display` has an order. Rust's iteration order is unspecified.
- `f64_converter`, `str_converter` and `str_mut_converter` are left out: they are identity over the bytes. Wide-string and UTF-8 conversions are identity over `char`.
- `bw_win32_unhandledHresult` is a parameter of `EdgeBridge.EvalReplyOf`.
- The dev-tools `printf` in `bw_BrowserWindowImpl_new` is left out, as is `bw_BrowserWindowImpl_clean`.
- The Edge threaded eval path and `bw_BrowserWindowEdge_evalJsHandler` are left out. So are the cookie code and the geometry, title and opacity accessors.
- The older copies of these files (deps/ffi, core/src, the ffi copies of the CEF headers) are not part of this model.
- FfiWindow.Window.Destroy requires that every window of the cascade is alive and not yet freed (`CanDestroy`). This is an obligation on the host: closing and dropping a parent while a child is alive frees the parent, and the child's later `destroy` reads the freed parent (see Findings). The model does not give `destroy` a meaning in that state.
- In `FfiWindow`, the `windows_alive` increment happens in the platform part for the ffi layer (ffi/src/window/win32.c). That file is not part of this model. The constructor raises the counter itself.
- Async Rust handlers: the future `invoke` gets from an `register_async` handler is dropped without being polled. The model records it as `FutureDropped` and does not model executors.

## Findings

| source | as written | input that shows it | evidently intended | confidence | as-written member | corrected member |
|---|---|---|---|---|---|---|
| c/src/application/win32.c:132-135 | the loop of `findInTimerMap` never advances `entry` | a map of timers 1 then 2, looking up 2: it loops forever | walk to `entry->next` until the id matches | high, not executed | TimerMap.FindAsWrittenMissesSecond | TimerMap.TimerMap.Find |
| c/src/application/win32.c:161-171 | removing a non-head entry assigns `prev` instead of relinking, then frees the entry | a map of two entries, removing the second: it is freed and still linked from the head | `prev->next = i->next` | high, not executed | TimerMap.TimerMap.RemoveAsWritten | TimerMap.TimerMap.Remove |
| src/javascript.rs:57-59 | `"…"` is detected by first and last character, and then `s[1..len-1]` is sliced | the one-character text `"`: the slice 1..0 panics | require at least two characters | high, not executed | JavaScript.LoneQuotePanicsAsWritten | JavaScript.LoneQuoteIsOther |
| c/src/cef/bw_handle_map.hpp:56-69 | caller and `fetch` disagree on the type: `invokeCreationCallback` (c/src/cef/client_handler.hpp:106) takes an `optional<BrowserInfo*>`, `fetch` returns `optional<BrowserInfo>`; under the copy reading the reset of the pending creation callback is lost | two load events for one browser: under the copy reading the creation callback runs twice | fetch a pointer to the stored entry, so that the reset is made in place | medium, not executed | ClientHandler.CreationTwiceAsWritten | ClientHandler.CreationAtMostOnce |
| c/src/cef/bw_handle_map.hpp:51 | `store` unlocks a mutex it never locked | any `store` on a free mutex | lock before the insert | high, not executed | HandleMaps.HandleMap.StoreAsWritten | HandleMaps.HandleMap.Store |
| c/src/cef/bw_handle_map.hpp:61-62 | a miss in `fetch` returns with the mutex held | two `fetch` calls for an unknown id: the second locks a held mutex | unlock before returning | high, not executed | HandleMaps.FetchMissTwiceAsWritten | HandleMaps.HandleMap.Fetch |
| c/src/cef/v8_to_string.hpp:71 | an object's value is fetched with the index i, not the i-th key | the object `{a:1}` renders as `{a:undefined}` | fetch the value by its key | high, not executed | V8ToString.ObjectByIndexAsWritten | V8ToString.ObjectByKey |
| ffi/src/cef/eval_callback_store.cpp:45-48 | the entry is read through its iterator after `erase` | any `invoke` of a stored id | copy the entry before erasing it | high, not executed | EvalCallbacks.EvalCallbackStore.InvokeAsWritten | EvalCallbacks.EvalCallbackStore.Invoke |
| ffi/src/window/common.c:63-65 | `drop` frees the window again after `destroy` has freed it | dropping a closed window | leave the free to `destroy` | high, not executed | FfiWindow.DropAsWrittenFreesTwice | FfiWindow.DestroyFreesOnce |
| ffi/src/window/common.c:22-25 | `destroy` reads `window->app` after `free(window)` | destroying any window | read the application before the free | high, not executed | FfiWindow.Window.DestroyAsWritten | FfiWindow.Window.Destroy |
| ffi/src/browser_window/edge.cpp:36-44 | `getline` drops a trailing empty field | `invoke_extern("a", "")`: arrives as `["a"]` | split on every delimiter | medium, not executed | EdgeBridge.InvokeExternAsWritten | EdgeBridge.InvokeExternDelivered |
| ffi/src/browser_window/edge.cpp:192 | `slices[0]` is read with no fields | `invoke_extern()` sends the empty message: no field, so `slices[0]` is out of range | always yield a command field | medium, not executed | EdgeBridge.ScriptNotifyAsWritten | EdgeBridge.ScriptNotify |
| ffi/src/window/common.c:13 | `destroy` reads the parent's `dropped` and `closed` flags without knowing whether the parent was already freed | `close(P); drop(P); close(C); drop(C)` for a parent P of a child C: P is freed, then C's `destroy` reads P and destroys it again | forbid destroying a parent that has live children, or clear the children's parent pointer when it goes | medium, not executed | FfiWindow.ParentFreedFirstAsWritten | FfiWindow.Window.Destroy |
