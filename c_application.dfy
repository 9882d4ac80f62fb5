/** The application record of the C layer on Win32
    (c/src/application/common.c and c/src/application/win32.c): the
    `windows_alive`, `is_running` and `is_done` fields, the thread message
    queue that `dispatch` posts to and `run` pumps, and the timers that
    `dispatchDelayed` sets.

    The model has one application per process and one GUI thread. The
    thread message queue is the field `queue`; `posted` and `received` are
    ghost histories of what went into it and what was taken out. A callback
    is known by its dispatch record; what it asks of the application while
    it runs is given by a `behaviour` function, and `calls` records, in
    order, every callback the application has run. */
module CApplication {
  import opened Wrappers
  import opened Handles
  import opened Errors
  import opened Dispatch
  import opened TimerMap

  /** What a callback asks for while it runs. */
  datatype Request =
    | AskDispatch(record: DispatchData)
    | AskDispatchDelayed(record: DispatchData, delay: Delay, onGuiThread: bool)
    | AskExit(code: int)
    | AskMarkAsDone

  /** What one turn of the message loop handled: a message taken from the
      queue, or a timer whose `WM_TIMER` was delivered. */
  datatype Event = Took(msg: Msg) | Tick(timer: Timer)

  /** The messages taken from the queue, in order. */
  function Messages(log: seq<Event>): (ms: seq<Msg>)
    ensures |ms| <= |log|
  {
    if |log| == 0 then []
    else
      var last := log[|log| - 1];
      Messages(log[..|log| - 1]) + (if last.Took? then [last.msg] else [])
  }

  /** The callback an event runs: the message's, or the timer's record. */
  function EventCalls(e: Event): seq<DispatchData> {
    match e
    case Took(m) => MsgCalls(m)
    case Tick(t) => [t.record]
  }

  /** The callbacks the loop runs for what it handled: the record of each
      `WM_APP` call and of each timer, in order. */
  function Calls(log: seq<Event>): (cs: seq<DispatchData>)
    ensures |cs| <= |log|
  {
    if |log| == 0 then []
    else Calls(log[..|log| - 1]) + EventCalls(log[|log| - 1])
  }

  /** With no timer firing, the loop runs exactly the `WM_APP` calls it
      took, in the order they were taken. */
  lemma {:induction false} CallsWithoutTimers(log: seq<Event>)
    requires forall i :: 0 <= i < |log| ==> log[i].Took?
    ensures Calls(log) == CallRecords(Messages(log))
  {
    if |log| > 0 {
      var init := log[..|log| - 1];
      CallsWithoutTimers(init);
      var ms := Messages(init) + [log[|log| - 1].msg];
      assert Messages(log) == ms;
      assert ms[..|ms| - 1] == Messages(init);
    }
  }

  /** The messages one request posts, given whether the application runs
      and how many windows are alive: a `WM_APP` call for a dispatch, a
      `WM_APP` that sets the timer for a delayed dispatch off the GUI
      thread, a `WM_QUIT` for an exit, and one for marking as done with no
      window alive. */
  function RequestPosts(r: Request, running: bool, alive: uint32): (ms: seq<Msg>)
    ensures |ms| <= 1
    ensures CallRecords(ms) == (if running && r.AskDispatch? then [r.record] else [])
  {
    var ms := match r
      case AskDispatch(record) => if running then [App(Call(record))] else []
      case AskDispatchDelayed(record, delay, onGuiThread) =>
        if running && !onGuiThread then [App(SetTimerLater(record, delay))] else []
      case AskExit(code) => [Quit(code)]
      case AskMarkAsDone => if alive == 0 then [Quit(0)] else [];
    if |ms| == 1 then
      CallRecordsSnoc([], ms[0]);
      assert [] + [ms[0]] == ms;
      ms
    else ms
  }

  /** The messages a callback's requests post, in order. */
  function Posts(rs: seq<Request>, running: bool, alive: uint32): seq<Msg> {
    if |rs| == 0 then []
    else Posts(rs[..|rs| - 1], running, alive) + RequestPosts(rs[|rs| - 1], running, alive)
  }

  /** The records a callback asks to dispatch at once, in order. */
  function Dispatched(rs: seq<Request>): seq<DispatchData> {
    if |rs| == 0 then []
    else Dispatched(rs[..|rs| - 1]) + (if rs[|rs| - 1].AskDispatch? then [rs[|rs| - 1].record] else [])
  }

  /** While the application runs, the `WM_APP` calls a callback posts are
      exactly the records it dispatched, in order; otherwise it posts none. */
  lemma {:induction false} PostedCalls(rs: seq<Request>, running: bool, alive: uint32)
    ensures CallRecords(Posts(rs, running, alive)) == if running then Dispatched(rs) else []
  {
    if |rs| > 0 {
      var last := rs[|rs| - 1];
      PostedCalls(rs[..|rs| - 1], running, alive);
      CallRecordsAppend(Posts(rs[..|rs| - 1], running, alive), RequestPosts(last, running, alive));
    }
  }

  /** The messages a `WM_APP` posts when it is run. */
  function WorkPosts(w: Work, behaviour: DispatchData -> seq<Request>, running: bool, alive: uint32): seq<Msg> {
    if w.Call? then Posts(behaviour(w.record), running, alive) else []
  }

  /** The records of the timers that fired, in order. */
  function TickRecords(log: seq<Event>): seq<DispatchData> {
    if |log| == 0 then []
    else TickRecords(log[..|log| - 1]) + (if log[|log| - 1].Tick? then [log[|log| - 1].timer.record] else [])
  }

  /** The callbacks run are the `WM_APP` calls taken and the timers fired,
      interleaved. */
  lemma {:induction false} CallsSplit(log: seq<Event>)
    ensures multiset(Calls(log)) == multiset(CallRecords(Messages(log))) + multiset(TickRecords(log))
  {
    if |log| > 0 {
      var init := log[..|log| - 1];
      CallsSplit(init);
      assert log == init + [log[|log| - 1]];
      CallsSplitSnoc(init, log[|log| - 1]);
    }
  }

  lemma CallsSplitSnoc(init: seq<Event>, e: Event)
    requires multiset(Calls(init)) == multiset(CallRecords(Messages(init))) + multiset(TickRecords(init))
    ensures var log := init + [e];
      multiset(Calls(log)) == multiset(CallRecords(Messages(log))) + multiset(TickRecords(log))
  {
    EventsSnoc(init, e);
    var c, m, t := Calls(init), CallRecords(Messages(init)), TickRecords(init);
    if e.Took? {
      CallRecordsSnoc(Messages(init), e.msg);
      MultisetSnoc(c, m, t, MsgCalls(e.msg));
    } else {
      assert Messages(init) + [] == Messages(init);
      MultisetSnoc(c, t, m, [e.timer.record]);
    }
  }

  lemma MultisetSnoc<T>(all: seq<T>, these: seq<T>, those: seq<T>, x: seq<T>)
    requires multiset(all) == multiset(these) + multiset(those)
    ensures multiset(all + x) == multiset(these + x) + multiset(those)
    ensures multiset(all + x) == multiset(those) + multiset(these + x)
  {
  }

  /** Once the queue is drained, the messages that waited, and the
      `WM_APP` calls among them, were handled first. */
  lemma DrainedCalls(received: seq<Msg>, waiting: seq<Msg>, posted: seq<Msg>, log: seq<Event>)
    requires received + waiting <= posted
    requires posted == received + Messages(log)
    ensures waiting <= Messages(log)
    ensures multiset(CallRecords(waiting)) <= multiset(Calls(log))
  {
    Drained(received, waiting, posted, Messages(log));
    CallRecordsPrefix(waiting, Messages(log));
    var rest := CallRecords(Messages(log))[|CallRecords(waiting)|..];
    assert CallRecords(Messages(log)) == CallRecords(waiting) + rest;
    CallsSplit(log);
  }

  class Application {
    var windowsAlive: uint32
    var isRunning: bool
    var isDone: bool
    /** Whether `bw_ApplicationImpl_initialize` has filled in `impl`. */
    var implReady: bool
    var queue: seq<Msg>
    var calls: seq<DispatchData>
    /** Where `SetTimer` takes the next timer id from. */
    var nextTimerId: nat
    /** The global `timer_map`. */
    const timers: TimerMap
    ghost var posted: seq<Msg>
    ghost var received: seq<Msg>
    /** The windows made by `bw_Window_new` and not yet freed. */
    ghost var windows: set<object>

    /** The timer map is well formed and the queue is first in, first out:
        what was taken out, followed by what waits, is what was posted. */
    ghost predicate Valid()
      reads this, timers, timers.nodes
    {
      timers.Valid() && received + queue == posted
    }

    /** `windows_alive` is the number of live windows, as an `unsigned int`. */
    ghost predicate CountsWindows()
      reads this
    {
      windowsAlive == ToUint32(|windows|)
    }

    /** The record `malloc` returns, before `bw_Application_initialize`
        fills it in. */
    constructor ()
      ensures Valid() && fresh(timers)
      ensures queue == [] && calls == [] && posted == [] && received == [] && timers.nodes == []
      ensures windowsAlive == 0 && !isRunning && !isDone && !implReady
      ensures windows == {} && CountsWindows()
    {
      windowsAlive := 0;
      isRunning := false;
      isDone := false;
      implReady := false;
      queue := [];
      calls := [];
      nextTimerId := 1;
      timers := new TimerMap();
      posted := [];
      received := [];
      windows := {};
    }

    /** `bw_Application_initialize`: the counters start at zero and both
        flags false; an engine error is returned at once, before the
        platform part is set up, and success otherwise. */
    static method Initialize(engine: Error) returns (app: Application, err: Error)
      ensures fresh(app) && app.Valid() && app.windows == {} && app.CountsWindows()
      ensures app.windowsAlive == 0 && !app.isRunning && !app.isDone
      ensures app.queue == [] && app.calls == []
      ensures !IsOk(engine) ==> err == engine && !app.implReady
      ensures IsOk(engine) ==> err == Success && app.implReady
    {
      app := new Application();
      if !IsOk(engine) {
        return app, engine;
      }
      app.implReady := true;
      return app, Success;
    }

    /** `bw_Application_isRunning`. */
    method IsRunning() returns (r: bool)
      ensures r == isRunning
    {
      return isRunning;
    }

    /** `PostThreadMessageW` to the GUI thread. */
    method Post(m: Msg)
      requires Valid()
      modifies this
      ensures Valid()
      ensures queue == old(queue) + [m] && posted == old(posted) + [m]
      ensures received == old(received) && calls == old(calls)
      ensures isRunning == old(isRunning) && isDone == old(isDone) && windowsAlive == old(windowsAlive)
      ensures implReady == old(implReady) && nextTimerId == old(nextTimerId)
      ensures windows == old(windows)
    {
      queue := queue + [m];
      posted := posted + [m];
    }

    /** `bw_Application_exit`: a `WM_QUIT` carrying the exit code is posted. */
    method Exit(code: int)
      requires Valid()
      modifies this
      ensures Valid()
      ensures queue == old(queue) + [Quit(code)] && posted == old(posted) + [Quit(code)]
      ensures received == old(received) && calls == old(calls)
      ensures isRunning == old(isRunning) && isDone == old(isDone) && windowsAlive == old(windowsAlive)
      ensures implReady == old(implReady) && nextTimerId == old(nextTimerId)
      ensures windows == old(windows)
    {
      Post(Quit(code));
    }

    /** `bw_Application_markAsDone`: `is_done` is set, and the application
        exits with 0 when no window is alive. */
    method MarkAsDone()
      requires Valid()
      modifies this
      ensures Valid() && isDone
      ensures queue == old(queue) + (if old(windowsAlive) == 0 then [Quit(0)] else [])
      ensures posted == old(posted) + (if old(windowsAlive) == 0 then [Quit(0)] else [])
      ensures received == old(received) && calls == old(calls)
      ensures isRunning == old(isRunning) && windowsAlive == old(windowsAlive)
      ensures implReady == old(implReady) && nextTimerId == old(nextTimerId)
      ensures windows == old(windows)
    {
      isDone := true;
      if windowsAlive == 0 {
        Exit(0);
      }
    }

    /** `bw_Application_dispatch` with `bw_ApplicationImpl_dispatch`: when
        the application runs, the record is posted as a `WM_APP` and the
        result is true; otherwise nothing is posted and the result is
        false. */
    method Dispatch(record: DispatchData) returns (ok: bool)
      requires Valid()
      modifies this
      ensures Valid()
      ensures ok == old(isRunning)
      ensures queue == old(queue) + (if ok then [App(Call(record))] else [])
      ensures posted == old(posted) + (if ok then [App(Call(record))] else [])
      ensures received == old(received) && calls == old(calls)
      ensures isRunning == old(isRunning) && isDone == old(isDone) && windowsAlive == old(windowsAlive)
      ensures implReady == old(implReady) && nextTimerId == old(nextTimerId)
    {
      if !isRunning {
        return false;
      }
      Post(App(Call(record)));
      return true;
    }

    /** `bw_ApplicationWin32_setTimer`: a new timer id is taken and linked
        to the record in the timer map. */
    method SetTimer(record: DispatchData)
      requires Valid()
      modifies this, timers, timers.nodes
      ensures Valid()
      ensures Contents(timers.nodes) == Contents(old(timers.nodes)) + [Timer(old(nextTimerId), record)]
      ensures |timers.nodes| == |old(timers.nodes)| + 1 && timers.nodes[..|old(timers.nodes)|] == old(timers.nodes)
      ensures fresh(timers.nodes[|old(timers.nodes)|])
      ensures nextTimerId == old(nextTimerId) + 1
      ensures queue == old(queue) && received == old(received) && calls == old(calls) && posted == old(posted)
      ensures isRunning == old(isRunning) && isDone == old(isDone) && windowsAlive == old(windowsAlive)
      ensures implReady == old(implReady)
    {
      timers.Add(nextTimerId, record);
      nextTimerId := nextTimerId + 1;
    }

    /** `bw_Application_dispatchDelayed` with
        `bw_ApplicationImpl_dispatchDelayed`. The delay must be below 2^31
        (the source asserts it). When the application is not running
        nothing happens and the result is false. Otherwise the result is
        true: on the GUI thread the timer is set at once, from any other
        thread a `WM_APP` is posted whose work sets the timer. */
    method DispatchDelayed(record: DispatchData, ms: nat, onGuiThread: bool) returns (ok: bool)
      requires Valid() && ms < TwoTo31
      modifies this, timers, timers.nodes
      ensures Valid()
      ensures ok == old(isRunning)
      ensures ok && onGuiThread ==>
        Contents(timers.nodes) == Contents(old(timers.nodes)) + [Timer(old(nextTimerId), record)]
        && queue == old(queue)
      ensures ok && !onGuiThread ==>
        queue == old(queue) + [App(SetTimerLater(record, ms))] && timers.nodes == old(timers.nodes)
      ensures !ok ==> queue == old(queue) && timers.nodes == old(timers.nodes)
      ensures posted == old(posted) + (if ok && !onGuiThread then [App(SetTimerLater(record, ms))] else [])
      ensures forall n :: n in old(timers.nodes) ==> n in timers.nodes
      ensures forall i :: 0 <= i < |timers.nodes| ==> timers.nodes[i] in old(timers.nodes) || fresh(timers.nodes[i])
      ensures received == old(received) && calls == old(calls)
      ensures isRunning == old(isRunning) && isDone == old(isDone) && windowsAlive == old(windowsAlive)
      ensures implReady == old(implReady)
    {
      if !isRunning {
        return false;
      }
      if onGuiThread {
        SetTimer(record);
      } else {
        Post(App(SetTimerLater(record, ms)));
      }
      return true;
    }

    /** Carries out one request of a callback: what it posts joins the
        queue. */
    method PerformOne(request: Request)
      requires Valid()
      modifies this, timers, timers.nodes
      ensures Valid()
      ensures queue == old(queue) + RequestPosts(request, old(isRunning), old(windowsAlive))
      ensures posted == old(posted) + RequestPosts(request, old(isRunning), old(windowsAlive))
      ensures forall n :: n in old(timers.nodes) ==> n in timers.nodes
      ensures forall i :: 0 <= i < |timers.nodes| ==> timers.nodes[i] in old(timers.nodes) || fresh(timers.nodes[i])
      ensures received == old(received) && calls == old(calls)
      ensures isRunning == old(isRunning) && windowsAlive == old(windowsAlive)
      ensures implReady == old(implReady)
    {
      match request
      case AskDispatch(record) =>
        assert RequestPosts(request, isRunning, windowsAlive) == if isRunning then [App(Call(record))] else [];
        var _ := Dispatch(record);
      case AskDispatchDelayed(record, delay, onGuiThread) =>
        assert RequestPosts(request, isRunning, windowsAlive) ==
          if isRunning && !onGuiThread then [App(SetTimerLater(record, delay))] else [];
        var _ := DispatchDelayed(record, delay, onGuiThread);
      case AskExit(code) =>
        Exit(code);
      case AskMarkAsDone =>
        MarkAsDone();
    }

    /** Carries out what a callback asked for, in order. */
    method Perform(requests: seq<Request>)
      requires Valid()
      modifies this, timers, timers.nodes
      ensures Valid()
      ensures queue == old(queue) + Posts(requests, old(isRunning), old(windowsAlive))
      ensures posted == old(posted) + Posts(requests, old(isRunning), old(windowsAlive))
      ensures forall n :: n in old(timers.nodes) ==> n in timers.nodes
      ensures forall i :: 0 <= i < |timers.nodes| ==> timers.nodes[i] in old(timers.nodes) || fresh(timers.nodes[i])
      ensures received == old(received) && calls == old(calls)
      ensures isRunning == old(isRunning) && windowsAlive == old(windowsAlive)
      ensures implReady == old(implReady)
    {
      for n := 0 to |requests|
        invariant Valid()
        invariant queue == old(queue) + Posts(requests[..n], isRunning, windowsAlive)
        invariant posted == old(posted) + Posts(requests[..n], isRunning, windowsAlive)
        invariant forall n :: n in old(timers.nodes) ==> n in timers.nodes
        invariant forall i :: 0 <= i < |timers.nodes| ==> timers.nodes[i] in old(timers.nodes) || fresh(timers.nodes[i])
        invariant received == old(received) && calls == old(calls)
        invariant isRunning == old(isRunning) && windowsAlive == old(windowsAlive)
        invariant implReady == old(implReady)
      {
        assert requests[..n + 1][..n] == requests[..n];
        AppendAssoc(old(queue), Posts(requests[..n], isRunning, windowsAlive), RequestPosts(requests[n], isRunning, windowsAlive));
        AppendAssoc(old(posted), Posts(requests[..n], isRunning, windowsAlive), RequestPosts(requests[n], isRunning, windowsAlive));
        PerformOne(requests[n]);
      }
      assert requests[..|requests|] == requests;
    }

    /** Runs a callback: it is recorded and what it asks for is done. */
    method Invoke(record: DispatchData, behaviour: DispatchData -> seq<Request>)
      requires Valid()
      modifies this, timers, timers.nodes
      ensures Valid()
      ensures calls == old(calls) + [record]
      ensures queue == old(queue) + Posts(behaviour(record), old(isRunning), old(windowsAlive))
      ensures posted == old(posted) + Posts(behaviour(record), old(isRunning), old(windowsAlive))
      ensures forall n :: n in old(timers.nodes) ==> n in timers.nodes
      ensures forall i :: 0 <= i < |timers.nodes| ==> timers.nodes[i] in old(timers.nodes) || fresh(timers.nodes[i])
      ensures received == old(received)
      ensures isRunning == old(isRunning) && windowsAlive == old(windowsAlive)
      ensures implReady == old(implReady)
    {
      calls := calls + [record];
      Perform(behaviour(record));
    }

    /** Takes the oldest message off the queue. */
    method Take() returns (m: Msg)
      requires Valid() && |queue| > 0
      modifies this
      ensures Valid()
      ensures m == old(queue)[0] && queue == old(queue)[1..] && received == old(received) + [m]
      ensures posted == old(posted) && calls == old(calls) && timers.nodes == old(timers.nodes)
      ensures isRunning == old(isRunning) && isDone == old(isDone) && windowsAlive == old(windowsAlive)
      ensures implReady == old(implReady) && nextTimerId == old(nextTimerId)
    {
      m := queue[0];
      assert queue == [m] + queue[1..];
      AppendAssoc(received, [m], queue[1..]);
      queue := queue[1..];
      received := received + [m];
    }

    /** What the loop does with a `WM_APP`: it calls the record's function;
        for the record of `bw_ApplicationWin32_dispatchWrapper` that is
        setting the timer for the wrapped record. */
    method RunWork(w: Work, behaviour: DispatchData -> seq<Request>)
      requires Valid()
      modifies this, timers, timers.nodes
      ensures Valid()
      ensures calls == old(calls) + (if w.Call? then [w.record] else [])
      ensures queue == old(queue) + WorkPosts(w, behaviour, old(isRunning), old(windowsAlive))
      ensures posted == old(posted) + WorkPosts(w, behaviour, old(isRunning), old(windowsAlive))
      ensures forall n :: n in old(timers.nodes) ==> n in timers.nodes
      ensures forall i :: 0 <= i < |timers.nodes| ==> timers.nodes[i] in old(timers.nodes) || fresh(timers.nodes[i])
      ensures received == old(received)
      ensures isRunning == old(isRunning) && windowsAlive == old(windowsAlive)
      ensures implReady == old(implReady)
    {
      match w
      case Call(record) =>
        Invoke(record, behaviour);
      case SetTimerLater(record, delay) =>
        SetTimer(record);
    }

    /** `bw_ApplicationWin32_timerHandler`, with the timer map lookup and
        removal as intended: the timer's entry is found, its record is
        called, and the entry is taken out of the map. The source
        dereferences the entry without a test, so the timer must be in the
        map. */
    method TimerHandler(timerId: nat, behaviour: DispatchData -> seq<Request>)
      requires Valid() && timerId in Ids(Contents(timers.nodes))
      modifies this, timers, timers.nodes
      ensures Valid()
      ensures var k := IndexOf(Ids(Contents(old(timers.nodes))), timerId).value;
        calls == old(calls) + [old(timers.nodes)[k].record] && old(timers.nodes)[k] !in timers.nodes
        && queue == old(queue) + Posts(behaviour(old(timers.nodes)[k].record), old(isRunning), old(windowsAlive))
      ensures old(posted) <= posted
      ensures forall i :: 0 <= i < |timers.nodes| ==> timers.nodes[i] in old(timers.nodes) || fresh(timers.nodes[i])
      ensures received == old(received)
      ensures isRunning == old(isRunning) && windowsAlive == old(windowsAlive)
      ensures implReady == old(implReady)
    {
      var entry := timers.Find(timerId);
      Fire(entry, behaviour);
    }

    /** The timer handler once the entry is found: its record is called and
        the entry is released. */
    method Fire(entry: TimerEntry, behaviour: DispatchData -> seq<Request>)
      requires Valid() && entry in timers.nodes
      modifies this, timers, timers.nodes
      ensures Valid()
      ensures calls == old(calls) + [entry.record] && entry !in timers.nodes
      ensures queue == old(queue) + Posts(behaviour(entry.record), old(isRunning), old(windowsAlive))
      ensures posted == old(posted) + Posts(behaviour(entry.record), old(isRunning), old(windowsAlive))
      ensures forall i :: 0 <= i < |timers.nodes| ==> timers.nodes[i] in old(timers.nodes) || fresh(timers.nodes[i])
      ensures received == old(received)
      ensures isRunning == old(isRunning) && windowsAlive == old(windowsAlive)
      ensures implReady == old(implReady)
    {
      Invoke(entry.record, behaviour);
      Release(entry);
    }

    /** `removeFromTimerMap` and `free` of the entry, once its record has
        been called. */
    method Release(entry: TimerEntry)
      requires Valid() && entry in timers.nodes
      modifies timers, timers.nodes
      ensures Valid() && entry !in timers.nodes
      ensures forall i :: 0 <= i < |timers.nodes| ==> timers.nodes[i] in old(timers.nodes)
    {
      ghost var before := timers.nodes;
      var removed, j := timers.Remove(entry);
      FreedNotListed(timers.nodes, timers.freed, entry);
      WithoutListed(before, j);
    }

    /** A turn of the loop that takes a message: a `WM_APP` is run, in
        either mode; a `WM_QUIT` or any other message runs nothing. */
    method StepMessage(behaviour: DispatchData -> seq<Request>) returns (m: Msg)
      requires Valid() && |queue| > 0
      modifies this, timers, timers.nodes
      ensures Valid()
      ensures m == old(queue)[0] && received == old(received) + [m]
      ensures calls == old(calls) + MsgCalls(m)
      ensures queue == old(queue)[1..] + (if m.App? then WorkPosts(m.work, behaviour, old(isRunning), old(windowsAlive)) else [])
      ensures old(posted) <= posted
      ensures forall i :: 0 <= i < |timers.nodes| ==> timers.nodes[i] in old(timers.nodes) || fresh(timers.nodes[i])
      ensures isRunning == old(isRunning) && windowsAlive == old(windowsAlive)
    {
      m := Take();
      if m.App? {
        RunWork(m.work, behaviour);
      }
    }

    /** A turn of the loop that delivers the `WM_TIMER` of the first timer
        in the map. */
    method StepTimer(behaviour: DispatchData -> seq<Request>) returns (ghost t: Timer)
      requires Valid() && timers.head != null
      modifies this, timers, timers.nodes
      ensures Valid()
      ensures t == old(Contents(timers.nodes))[0]
      ensures calls == old(calls) + [t.record] && received == old(received)
      ensures queue == old(queue) + Posts(behaviour(t.record), old(isRunning), old(windowsAlive))
      ensures old(posted) <= posted
      ensures forall i :: 0 <= i < |timers.nodes| ==> timers.nodes[i] in old(timers.nodes) || fresh(timers.nodes[i])
      ensures isRunning == old(isRunning) && windowsAlive == old(windowsAlive)
    {
      t := Contents(timers.nodes)[0];
      IndexOfFirst(Ids(Contents(timers.nodes)), t.id, 0);
      TimerHandler(timers.head.timerId, behaviour);
    }

    /** What a run has done so far, given what it started from: it ran the
        callbacks of the events in `log`, it took their messages, and it is
        in exiting mode, with the exit code of the first `WM_QUIT`, exactly
        when it has taken one. */
    ghost predicate Progress(calls0: seq<DispatchData>, received0: seq<Msg>, log: seq<Event>, exiting: bool, exitCode: int)
      reads this
    {
      && calls == calls0 + Calls(log)
      && received == received0 + Messages(log)
      && (exiting <==> FirstQuit(Messages(log)).Some?)
      && (exiting ==> exitCode == FirstQuit(Messages(log)).value)
    }

    /** A turn of the loop that does not end it: with a message waiting it
        is taken (the first `WM_QUIT` switching to exiting mode), and
        otherwise, before exiting mode, the first timer fires. */
    method Turn(behaviour: DispatchData -> seq<Request>, exiting: bool, exitCode: int, ghost calls0: seq<DispatchData>, ghost received0: seq<Msg>, ghost log: seq<Event>)
      returns (exiting': bool, exitCode': int, ghost log': seq<Event>)
      requires Valid() && Progress(calls0, received0, log, exiting, exitCode)
      requires |queue| > 0 || (!exiting && timers.head != null)
      modifies this, timers, timers.nodes
      ensures Valid() && Progress(calls0, received0, log', exiting', exitCode')
      ensures |log'| == |log| + 1 && log'[..|log|] == log
      ensures old(posted) <= posted
      ensures forall i :: 0 <= i < |timers.nodes| ==> timers.nodes[i] in old(timers.nodes) || fresh(timers.nodes[i])
      ensures isRunning == old(isRunning) && windowsAlive == old(windowsAlive)
    {
      exiting', exitCode' := exiting, exitCode;
      if |queue| == 0 {
        ghost var t := StepTimer(behaviour);
        EventsSnoc(log, Tick(t));
        AppendAssoc(calls0, Calls(log), [t.record]);
        log' := log + [Tick(t)];
      } else {
        var m := StepMessage(behaviour);
        EventsSnoc(log, Took(m));
        if exiting {
          FirstQuitKept(Messages(log), m);
        } else {
          FirstQuitNext(Messages(log), m);
        }
        AppendAssoc(calls0, Calls(log), MsgCalls(m));
        AppendAssoc(received0, Messages(log), [m]);
        log' := log + [Took(m)];
        if m.Quit? && !exiting {
          exitCode' := m.code;
          exiting' := true;
        }
      }
      assert log'[..|log|] == log;
    }

    /** `bw_Application_run` around `bw_ApplicationImpl_run`. `is_running`
        is set and `is_done` cleared, the ready handler is called directly,
        and then the loop turns. Until a `WM_QUIT` is taken it waits for
        messages; a timer is delivered only when no message is waiting.
        The first `WM_QUIT` gives the exit code and switches to exiting
        mode, in which the messages still queued are handled, later
        `WM_QUIT`s included, and the loop ends once the queue is empty.
        `is_running` stays set until the loop has ended. */
    method Run(ready: DispatchData, behaviour: DispatchData -> seq<Request>, fuel: nat) returns (outcome: Outcome, ghost log: seq<Event>)
      requires Valid()
      modifies this, timers, timers.nodes
      ensures Valid() && !isRunning
      ensures calls == old(calls) + [ready] + Calls(log)
      ensures received == old(received) + Messages(log)
      ensures outcome.Exited? ==> queue == [] && FirstQuit(Messages(log)) == Some(outcome.code)
      ensures outcome.Waiting? ==> queue == [] && timers.nodes == [] && FirstQuit(Messages(log)) == None
      ensures old(posted) <= posted
      ensures outcome.Exited? || outcome.Waiting? ==>
        old(queue) + Posts(behaviour(ready), true, old(windowsAlive)) <= Messages(log)
      ensures outcome.Exited? || outcome.Waiting? ==>
        multiset(CallRecords(old(queue)) + Dispatched(behaviour(ready))) <= multiset(Calls(log))
      ensures windowsAlive == old(windowsAlive)
    {
      isRunning := true;
      isDone := false;
      Invoke(ready, behaviour);
      ghost var calls0, received0, queue0, posted0 := calls, received, queue, posted;
      var exiting := false;
      var exitCode := 0;
      var budget := fuel;
      log := [];
      outcome := OutOfFuel;
      while budget > 0
        invariant Valid() && isRunning && Progress(calls0, received0, log, exiting, exitCode)
        invariant windowsAlive == old(windowsAlive)
        invariant forall i :: 0 <= i < |timers.nodes| ==> timers.nodes[i] in old(timers.nodes) || fresh(timers.nodes[i])
        invariant outcome == OutOfFuel
        invariant old(posted) <= posted0 <= posted
        decreases budget
      {
        budget := budget - 1;
        if |queue| == 0 && (exiting || timers.head == null) {
          outcome := if exiting then Exited(exitCode) else Waiting;
          break;
        }
        ghost var nodesBefore := timers.nodes;
        ghost var postedBefore := posted;
        exiting, exitCode, log := Turn(behaviour, exiting, exitCode, calls0, received0, log);
        PrefixTrans(posted0, postedBefore, posted);
        forall i | 0 <= i < |timers.nodes|
          ensures timers.nodes[i] in old(timers.nodes) || fresh(timers.nodes[i])
        {
          if timers.nodes[i] in nodesBefore {
            var j :| 0 <= j < |nodesBefore| && nodesBefore[j] == timers.nodes[i];
          }
        }
      }
      PrefixTrans(old(posted), posted0, posted);
      if outcome.Exited? || outcome.Waiting? {
        DrainedCalls(received0, queue0, posted, log);
        CallRecordsAppend(old(queue), Posts(behaviour(ready), true, old(windowsAlive)));
        PostedCalls(behaviour(ready), true, old(windowsAlive));
      }
      isRunning := false;
    }
  }

  /** A call waiting in the queue when `run` starts is run before the loop
      waits again, after the ready handler. */
  method QueuedCallIsRun(app: Application, record: DispatchData) returns (outcome: Outcome)
    requires app.Valid() && app.queue == [App(Call(record))] && app.calls == []
    modifies app, app.timers, app.timers.nodes
    ensures outcome.Waiting? || outcome.Exited? ==> |app.calls| >= 1 && record in app.calls[1..]
  {
    var idle: DispatchData -> seq<Request> := d => [];
    ghost var log;
    outcome, log := app.Run(record, idle, 100);
    assert idle(record) == [] && Dispatched([]) == [];
    assert CallRecords([App(Call(record))]) == [record] by {
      CallRecordsSnoc([], App(Call(record)));
      assert [] + [App(Call(record))] == [App(Call(record))];
    }
    if outcome.Waiting? || outcome.Exited? {
      assert multiset([record] + []) <= multiset(Calls(log));
      assert record in multiset(Calls(log));
      assert app.calls[1..] == Calls(log);
    }
  }

  /** How the histories grow by one event. */
  lemma EventsSnoc(log: seq<Event>, e: Event)
    ensures Messages(log + [e]) == Messages(log) + (if e.Took? then [e.msg] else [])
    ensures Calls(log + [e]) == Calls(log) + EventCalls(e)
    ensures TickRecords(log + [e]) == TickRecords(log) + (if e.Tick? then [e.timer.record] else [])
  {
    assert (log + [e])[..|log|] == log;
  }
}
