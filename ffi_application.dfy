/** The application record of the older FFI layer on Win32
    (ffi/src/application/win32.c, with `bw_Application_start` of
    ffi/src/application/common.c): the `windows_alive` counter, the
    `is_running` flag and the thread message queue that `dispatch` posts
    to and `run` pumps. There are no timers in this layer, and `is_running`
    is cleared as soon as the first `WM_QUIT` is taken, so that nothing can
    be dispatched while the loop drains the queue.

    As in the C layer, `queue` is the thread message queue, `posted` and
    `received` are ghost histories of it, a callback's requests are given
    by a `behaviour` function and `calls` records every callback run. */
module FfiApplication {
  import opened Wrappers
  import opened Handles
  import opened Dispatch

  /** What a callback asks for while it runs. */
  datatype Request = AskDispatch(record: DispatchData) | AskExit(code: int)

  /** The messages one request posts, given whether the loop runs: a
      `WM_APP` call for a dispatch while it runs, a `WM_QUIT` for an exit
      always. */
  function RequestPosts(r: Request, running: bool): (ms: seq<Msg>)
    ensures |ms| <= 1
    ensures CallRecords(ms) == (if running && r.AskDispatch? then [r.record] else [])
  {
    match r
    case AskDispatch(record) =>
      if running then
        CallRecordsSnoc([], App(Call(record)));
        assert [] + [App(Call(record))] == [App(Call(record))];
        [App(Call(record))]
      else []
    case AskExit(code) =>
      CallRecordsSnoc([], Quit(code));
      assert [] + [Quit(code)] == [Quit(code)];
      [Quit(code)]
  }

  /** The messages a callback's requests post, in order. */
  function Posts(rs: seq<Request>, running: bool): (ms: seq<Msg>)
    ensures forall i :: 0 <= i < |ms| ==> ms[i].App? ==> ms[i].work.Call?
  {
    if |rs| == 0 then []
    else Posts(rs[..|rs| - 1], running) + RequestPosts(rs[|rs| - 1], running)
  }

  /** The records a callback asks to dispatch, in order. */
  function Dispatched(rs: seq<Request>): seq<DispatchData> {
    if |rs| == 0 then []
    else Dispatched(rs[..|rs| - 1]) + (if rs[|rs| - 1].AskDispatch? then [rs[|rs| - 1].record] else [])
  }

  /** While the loop runs, the `WM_APP` calls a callback posts are exactly
      the records it dispatched, in order; otherwise it posts none. */
  lemma {:induction false} PostedCalls(rs: seq<Request>, running: bool)
    ensures CallRecords(Posts(rs, running)) == if running then Dispatched(rs) else []
  {
    if |rs| > 0 {
      PostedCalls(rs[..|rs| - 1], running);
      CallRecordsAppend(Posts(rs[..|rs| - 1], running), RequestPosts(rs[|rs| - 1], running));
    }
  }

  class Application {
    var windowsAlive: uint32
    var isRunning: bool
    var queue: seq<Msg>
    var calls: seq<DispatchData>
    ghost var posted: seq<Msg>
    ghost var received: seq<Msg>
    /** The windows made by `bw_Window_new` and not yet destroyed. */
    ghost var windows: set<object>
    /** What the windows' records went through, in order: each record given
        to `free`, each record whose cleanup handler ran, and each record
        read after its `free`. */
    ghost var freed: seq<object>
    ghost var cleanedUp: seq<object>
    ghost var readAfterFree: seq<object>

    /** The queue is first in, first out, and every `WM_APP` in it carries
        a dispatch record. */
    ghost predicate Valid()
      reads this
    {
      && received + queue == posted
      && forall i :: 0 <= i < |queue| ==> queue[i].App? ==> queue[i].work.Call?
    }

    /** `windows_alive` is the number of live windows, as an `unsigned int`. */
    ghost predicate CountsWindows()
      reads this
    {
      windowsAlive == ToUint32(|windows|)
    }

    /** `bw_Application_start` with `bw_ApplicationImpl_initialize`: no
        window is alive and the loop is not running. */
    constructor ()
      ensures Valid() && CountsWindows() && windows == {}
      ensures windowsAlive == 0 && !isRunning
      ensures queue == [] && calls == [] && posted == [] && received == []
      ensures freed == [] && cleanedUp == [] && readAfterFree == []
    {
      windowsAlive := 0;
      isRunning := false;
      queue := [];
      calls := [];
      posted := [];
      received := [];
      windows := {};
      freed, cleanedUp, readAfterFree := [], [], [];
    }

    /** `bw_Application_isRunning`. */
    method IsRunning() returns (r: bool)
      ensures r == isRunning
    {
      return isRunning;
    }

    /** `PostThreadMessageW` to the GUI thread. */
    method Post(m: Msg)
      requires Valid() && (m.App? ==> m.work.Call?)
      modifies this
      ensures Valid()
      ensures queue == old(queue) + [m] && posted == old(posted) + [m]
      ensures received == old(received) && calls == old(calls)
      ensures isRunning == old(isRunning) && windowsAlive == old(windowsAlive) && windows == old(windows)
      ensures freed == old(freed) && cleanedUp == old(cleanedUp) && readAfterFree == old(readAfterFree)
    {
      queue := queue + [m];
      posted := posted + [m];
    }

    /** `bw_ApplicationImpl_dispatch`: while the loop runs the record is
        posted as a `WM_APP` and the result is true; otherwise nothing is
        posted and the result is false. */
    method Dispatch(record: DispatchData) returns (ok: bool)
      requires Valid()
      modifies this
      ensures Valid()
      ensures ok == old(isRunning)
      ensures queue == old(queue) + (if ok then [App(Call(record))] else [])
      ensures posted == old(posted) + (if ok then [App(Call(record))] else [])
      ensures received == old(received) && calls == old(calls)
      ensures isRunning == old(isRunning) && windowsAlive == old(windowsAlive) && windows == old(windows)
    {
      if !isRunning {
        return false;
      }
      Post(App(Call(record)));
      return true;
    }

    /** `bw_Application_exit`: a `WM_QUIT` carrying the code is posted,
        whether or not the loop runs. */
    method Exit(code: int)
      requires Valid()
      modifies this
      ensures Valid()
      ensures queue == old(queue) + [Quit(code)] && posted == old(posted) + [Quit(code)]
      ensures received == old(received) && calls == old(calls)
      ensures isRunning == old(isRunning) && windowsAlive == old(windowsAlive) && windows == old(windows)
      ensures freed == old(freed) && cleanedUp == old(cleanedUp) && readAfterFree == old(readAfterFree)
    {
      Post(Quit(code));
    }

    /** Carries out what a callback asked for, in order. */
    method Perform(requests: seq<Request>)
      requires Valid()
      modifies this
      ensures Valid()
      ensures queue == old(queue) + Posts(requests, old(isRunning))
      ensures posted == old(posted) + Posts(requests, old(isRunning))
      ensures received == old(received) && calls == old(calls)
      ensures isRunning == old(isRunning) && windowsAlive == old(windowsAlive)
    {
      for n := 0 to |requests|
        invariant Valid()
        invariant queue == old(queue) + Posts(requests[..n], isRunning)
        invariant posted == old(posted) + Posts(requests[..n], isRunning)
        invariant received == old(received) && calls == old(calls)
        invariant isRunning == old(isRunning) && windowsAlive == old(windowsAlive)
      {
        assert requests[..n + 1][..n] == requests[..n];
        AppendAssoc(old(queue), Posts(requests[..n], isRunning), RequestPosts(requests[n], isRunning));
        AppendAssoc(old(posted), Posts(requests[..n], isRunning), RequestPosts(requests[n], isRunning));
        match requests[n]
        case AskDispatch(record) =>
          var _ := Dispatch(record);
        case AskExit(code) =>
          Exit(code);
      }
      assert requests[..|requests|] == requests;
    }

    /** Runs a callback: it is recorded and what it asks for is done. */
    method Invoke(record: DispatchData, behaviour: DispatchData -> seq<Request>)
      requires Valid()
      modifies this
      ensures Valid()
      ensures calls == old(calls) + [record] && received == old(received)
      ensures queue == old(queue) + Posts(behaviour(record), old(isRunning))
      ensures posted == old(posted) + Posts(behaviour(record), old(isRunning))
      ensures isRunning == old(isRunning) && windowsAlive == old(windowsAlive)
    {
      calls := calls + [record];
      Perform(behaviour(record));
    }

    /** Takes the oldest message off the queue. */
    method Take() returns (m: Msg)
      requires Valid() && |queue| > 0
      modifies this
      ensures Valid() && (m.App? ==> m.work.Call?)
      ensures m == old(queue)[0] && queue == old(queue)[1..] && received == old(received) + [m]
      ensures posted == old(posted)
      ensures calls == old(calls) && isRunning == old(isRunning) && windowsAlive == old(windowsAlive)
    {
      m := queue[0];
      assert queue == [m] + queue[1..];
      AppendAssoc(received, [m], queue[1..]);
      queue := queue[1..];
      received := received + [m];
    }

    /** What a run has done so far, given what it started from. */
    ghost predicate Progress(calls0: seq<DispatchData>, received0: seq<Msg>, log: seq<Msg>, exiting: bool, exitCode: int)
      reads this
    {
      && calls == calls0 + CallRecords(log)
      && received == received0 + log
      && (exiting <==> FirstQuit(log).Some?)
      && (exiting ==> exitCode == FirstQuit(log).value)
      && (isRunning <==> !exiting)
    }

    /** One message taken by `GetMessageW` or, in exiting mode, by
        `PeekMessage`. The first `WM_QUIT` records its `wParam` as the exit
        code, switches to exiting mode and clears `is_running`; a `WM_APP`
        runs its record, in either mode. */
    method Turn(behaviour: DispatchData -> seq<Request>, exiting: bool, exitCode: int, ghost calls0: seq<DispatchData>, ghost received0: seq<Msg>, ghost log: seq<Msg>)
      returns (exiting': bool, exitCode': int, ghost log': seq<Msg>)
      requires Valid() && Progress(calls0, received0, log, exiting, exitCode) && |queue| > 0
      modifies this
      ensures Valid() && Progress(calls0, received0, log', exiting', exitCode')
      ensures |log'| == |log| + 1 && log'[..|log|] == log
      ensures old(posted) <= posted
      ensures windowsAlive == old(windowsAlive)
    {
      var m := Take();
      if exiting {
        FirstQuitKept(log, m);
      } else {
        FirstQuitNext(log, m);
      }
      log' := log + [m];
      assert log'[..|log|] == log;
      AppendAssoc(received0, log, [m]);
      CallRecordsSnoc(log, m);
      AppendAssoc(calls0, CallRecords(log), MsgCalls(m));
      exiting', exitCode' := exiting, exitCode;
      if !exiting && m.Quit? {
        exitCode', exiting' := m.code, true;
        isRunning := false;
      }
      if m.App? {
        Invoke(m.work.record, behaviour);
      }
    }

    /** `bw_ApplicationImpl_run`. `is_running` is set before the ready
        handler is called; then messages are taken until the first
        `WM_QUIT`, after which the messages left are handled and the loop
        ends with that `WM_QUIT`'s code once the queue is empty. */
    method Run(ready: DispatchData, behaviour: DispatchData -> seq<Request>, fuel: nat) returns (outcome: Outcome, ghost log: seq<Msg>)
      requires Valid()
      modifies this
      ensures Valid()
      ensures calls == old(calls) + [ready] + CallRecords(log)
      ensures received == old(received) + log
      ensures isRunning <==> FirstQuit(log).None?
      ensures outcome.Exited? ==> queue == [] && FirstQuit(log) == Some(outcome.code)
      ensures outcome.Waiting? ==> queue == [] && FirstQuit(log) == None
      ensures old(posted) <= posted
      ensures outcome.Exited? || outcome.Waiting? ==> old(queue) + Posts(behaviour(ready), true) <= log
      ensures outcome.Exited? || outcome.Waiting? ==>
        CallRecords(old(queue)) + Dispatched(behaviour(ready)) <= CallRecords(log)
      ensures windowsAlive == old(windowsAlive)
    {
      isRunning := true;
      Invoke(ready, behaviour);
      ghost var calls0, received0, queue0, posted0 := calls, received, queue, posted;
      var exiting := false;
      var exitCode := 0;
      var budget := fuel;
      log := [];
      outcome := OutOfFuel;
      while budget > 0
        invariant Valid() && Progress(calls0, received0, log, exiting, exitCode)
        invariant windowsAlive == old(windowsAlive) && outcome == OutOfFuel
        invariant old(posted) <= posted0 <= posted
        decreases budget
      {
        budget := budget - 1;
        if |queue| == 0 {
          outcome := if exiting then Exited(exitCode) else Waiting;
          break;
        }
        ghost var postedBefore := posted;
        exiting, exitCode, log := Turn(behaviour, exiting, exitCode, calls0, received0, log);
        PrefixTrans(posted0, postedBefore, posted);
      }
      PrefixTrans(old(posted), posted0, posted);
      if outcome.Exited? || outcome.Waiting? {
        Drained(received0, queue0, posted, log);
        CallRecordsPrefix(queue0, log);
        CallRecordsAppend(old(queue), Posts(behaviour(ready), true));
        PostedCalls(behaviour(ready), true);
      }
    }
  }
}
