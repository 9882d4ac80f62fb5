/** Records and messages shared by the two Win32 application loops
    (c/src/application/win32.c and ffi/src/application/win32.c). */
module Dispatch {
  import opened Wrappers
  import opened Handles

  /** `bw_ApplicationDispatchData`: a function pointer and the data pointer
      it is called with (the application is passed as well). The ready
      handler record that `run` builds has the same two parts. */
  datatype DispatchData = DispatchData(func: FuncPtr, data: Ptr)

  /** A delay `dispatchDelayed` accepts: below 2^(8·sizeof(UINT)-1). */
  type Delay = ms: nat | ms < 0x8000_0000

  /** The work a `WM_APP` message carries: a dispatch record, or (in the C
      layer only) the record of `bw_ApplicationWin32_dispatchWrapper`,
      which sets a timer for a dispatch record once it runs on the GUI
      thread. */
  datatype Work = Call(record: DispatchData) | SetTimerLater(record: DispatchData, delay: Delay)

  /** A thread message: `WM_APP`, `WM_QUIT` with its `wParam`, or any other
      message, which the loop only translates and dispatches. */
  datatype Msg = App(work: Work) | Quit(code: int) | Other

  /** How `run` ended: with the exit code of the first `WM_QUIT`, waiting in
      `GetMessageW` with nothing left that could wake it, or after the fuel
      bound on the number of turns. */
  datatype Outcome = Exited(code: int) | Waiting | OutOfFuel

  /** The callback a taken message runs: its record, for a `WM_APP` call. */
  function MsgCalls(m: Msg): (cs: seq<DispatchData>)
    ensures |cs| <= 1
    ensures cs != [] <==> m.App? && m.work.Call?
  {
    match m
    case App(Call(d)) => [d]
    case _ => []
  }

  /** The callbacks the `WM_APP` calls among the messages run, in order. */
  function CallRecords(ms: seq<Msg>): seq<DispatchData> {
    if |ms| == 0 then []
    else CallRecords(ms[..|ms| - 1]) + MsgCalls(ms[|ms| - 1])
  }

  /** The exit code of the first `WM_QUIT` among the messages. */
  function FirstQuit(ms: seq<Msg>): (r: Option<int>)
    ensures r.None? <==> forall i :: 0 <= i < |ms| ==> !ms[i].Quit?
    ensures r.Some? ==> exists i :: 0 <= i < |ms| && ms[i] == Quit(r.value) && forall j :: 0 <= j < i ==> !ms[j].Quit?
  {
    if |ms| == 0 then None
    else if ms[0].Quit? then Some(ms[0].code)
    else
      var r := FirstQuit(ms[1..]);
      if r.Some? then
        var i :| 0 <= i < |ms[1..]| && ms[1..][i] == Quit(r.value) && forall j :: 0 <= j < i ==> !ms[1..][j].Quit?;
        assert ms[i + 1] == Quit(r.value);
        r
      else r
  }

  /** Messages after the first `WM_QUIT` do not change the exit code. */
  lemma {:induction false} FirstQuitKept(ms: seq<Msg>, m: Msg)
    requires FirstQuit(ms).Some?
    ensures FirstQuit(ms + [m]) == FirstQuit(ms)
  {
    if !ms[0].Quit? {
      assert (ms + [m])[1..] == ms[1..] + [m];
      FirstQuitKept(ms[1..], m);
    }
  }

  /** Before any `WM_QUIT`, the next message decides the exit code when it
      is one. */
  lemma {:induction false} FirstQuitNext(ms: seq<Msg>, m: Msg)
    requires FirstQuit(ms).None?
    ensures FirstQuit(ms + [m]) == (if m.Quit? then Some(m.code) else None)
  {
    if |ms| == 0 {
      assert ms + [m] == [m];
    } else {
      assert (ms + [m])[1..] == ms[1..] + [m];
      FirstQuitNext(ms[1..], m);
    }
  }

  /** How the callbacks grow by one message. */
  lemma CallRecordsSnoc(ms: seq<Msg>, m: Msg)
    ensures CallRecords(ms + [m]) == CallRecords(ms) + MsgCalls(m)
  {
    assert (ms + [m])[..|ms|] == ms;
  }

  /** The callbacks of two runs of messages, one after the other. */
  lemma {:induction false} CallRecordsAppend(a: seq<Msg>, b: seq<Msg>)
    ensures CallRecords(a + b) == CallRecords(a) + CallRecords(b)
    decreases |b|
  {
    if |b| > 0 {
      var init := b[..|b| - 1];
      assert b == init + [b[|b| - 1]];
      assert a + b == (a + init) + [b[|b| - 1]];
      CallRecordsAppend(a, init);
      CallRecordsSnoc(a + init, b[|b| - 1]);
      CallRecordsSnoc(init, b[|b| - 1]);
    } else {
      assert a + b == a;
    }
  }

  /** The callbacks of the messages handled first come first. */
  lemma CallRecordsPrefix(a: seq<Msg>, b: seq<Msg>)
    requires a <= b
    ensures CallRecords(a) <= CallRecords(b)
  {
    assert b == a + b[|a|..];
    CallRecordsAppend(a, b[|a|..]);
  }

  /** First in, first out: when what was taken out, followed by what
      waited, is a prefix of what was posted, and all that was posted has
      been taken out, then what waited was taken out first, in order. */
  lemma Drained<T>(received: seq<T>, waiting: seq<T>, posted: seq<T>, taken: seq<T>)
    requires received + waiting <= posted
    requires posted == received + taken
    ensures waiting <= taken
  {
    forall i | 0 <= i < |waiting|
      ensures waiting[i] == taken[i]
    {
      assert (received + waiting)[|received| + i] == posted[|received| + i];
    }
  }

  lemma PrefixTrans<T>(a: seq<T>, b: seq<T>, c: seq<T>)
    requires a <= b && b <= c
    ensures a <= c
  {
    assert c[..|b|][..|a|] == c[..|a|];
  }

  lemma AppendAssoc<T>(a: seq<T>, b: seq<T>, c: seq<T>)
    ensures a + b + c == a + (b + c)
  {
  }
}
