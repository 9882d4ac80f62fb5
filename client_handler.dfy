/** The CEF client handler of the C layer (c/src/cef/client_handler.hpp):
    the creation callback and `on_navigation_end` on load end and load
    error, the conversion of a load result into an error record, and the
    two process messages the renderer sends back.

    The browser handle map `bw_handle_map` is given as a parameter. A CEF
    process message is its list of argument values. Firing an event of a
    browser window (`bw_Event_fire`) is recorded as an effect. */
module ClientHandler {
  import opened Wrappers
  import opened Handles
  import opened Errors
  import opened HandleMaps
  import EvalCallbacks

  /** What a load end or a load error makes happen, in order. */
  datatype Effect =
    | Created(callback: FuncPtr, handle: Ptr, data: Ptr)
    | NavigationEnd(handle: Ptr, error: Error)

  /** The number of creation callbacks among the effects. */
  function CreatedCount(effects: seq<Effect>): (n: nat)
    ensures n <= |effects|
  {
    if effects == [] then 0
    else CreatedCount(effects[..|effects| - 1]) + (if effects[|effects| - 1].Created? then 1 else 0)
  }

  lemma {:induction false} CreatedCountAppend(a: seq<Effect>, b: seq<Effect>)
    ensures CreatedCount(a + b) == CreatedCount(a) + CreatedCount(b)
    decreases |b|
  {
    if b == [] {
      assert a + b == a;
    } else {
      var b' := b[..|b| - 1];
      assert (a + b)[..|a + b| - 1] == a + b';
      CreatedCountAppend(a, b');
    }
  }

  /** What `invokeCreationCallback` does for an entry: the pending
      creation callback, when there is one, and then `on_navigation_end`
      with the error. */
  function EntryEffects(info: BrowserInfo, error: Error): (effects: seq<Effect>)
    ensures |effects| == if info.callback.Some? then 2 else 1
    ensures effects[|effects| - 1] == NavigationEnd(info.handle, error)
    ensures info.callback.Some? ==> effects[0] == Created(info.callback.value.callback, info.handle, info.callback.value.data)
  {
    (match info.callback
     case Some(c) => [Created(c.callback, info.handle, c.data)]
     case None => [])
    + [NavigationEnd(info.handle, error)]
  }

  /** `invokeCreationCallback` on the map's entries: nothing happens for a
      browser without an entry. */
  function CreationEffects(entries: map<int, BrowserInfo>, id: int, error: Error): (effects: seq<Effect>)
    ensures id !in entries ==> effects == []
    ensures id in entries ==> NavigationEnd(entries[id].handle, error) in effects
  {
    if id in entries then EntryEffects(entries[id], error) else []
  }

  /** The entries after `invokeCreationCallback` as it is meant to work:
      the pending callback is reset in the map itself. */
  function AfterCreation(entries: map<int, BrowserInfo>, id: int): (r: map<int, BrowserInfo>)
    ensures r.Keys == entries.Keys
    ensures id in r ==> r[id].callback == None && r[id].handle == entries[id].handle
    ensures forall k :: k in r && k != id ==> r[k] == entries[k]
  {
    if id in entries then entries[id := entries[id].(callback := None)] else entries
  }

  /** The creation callback of an entry fires at most once, however often
      the browser ends a load; `on_navigation_end` fires on every one. */
  lemma CreationAtMostOnce(entries: map<int, BrowserInfo>, id: int, first: Error, second: Error)
    ensures var after := AfterCreation(entries, id);
      CreatedCount(CreationEffects(entries, id, first) + CreationEffects(after, id, second)) <= 1
    ensures var after := AfterCreation(entries, id);
      CreatedCount(CreationEffects(after, id, second)) == 0
    ensures id in entries ==> |CreationEffects(entries, id, first)| >= 1
    ensures id !in entries ==> CreationEffects(entries, id, first) == []
  {
    var after := AfterCreation(entries, id);
    var e1 := CreationEffects(entries, id, first);
    var e2 := CreationEffects(after, id, second);
    CreatedCountAppend(e1, e2);
    if id in entries {
      assert e2 == [NavigationEnd(entries[id].handle, second)];
      assert CreatedCount(e2) == CreatedCount([]) + 0;
      if entries[id].callback.Some? {
        assert CreatedCount(e1) == CreatedCount(e1[..1]) + 0;
        assert e1[..1][..0] == [];
      } else {
        assert CreatedCount(e1) == CreatedCount([]) + 0;
      }
    }
  }

  /** `invokeCreationCallback` takes an `optional<BrowserInfo*>` from a
      `fetch` that returns `optional<BrowserInfo>`, so caller and `fetch`
      disagree on the type (pointer against copy). Under the copy reading
      the reset does not reach the map, and a second load end calls the
      creation callback again. */
  lemma CreationTwiceAsWritten(entries: map<int, BrowserInfo>, id: int, first: Error, second: Error)
    requires id in entries && entries[id].callback.Some?
    ensures CreatedCount(CreationEffects(entries, id, first) + CreationEffects(entries, id, second)) == 2
  {
    var e1 := CreationEffects(entries, id, first);
    var e2 := CreationEffects(entries, id, second);
    CreatedCountAppend(e1, e2);
    assert e1[..1][..0] == [];
    assert CreatedCount(e1) == CreatedCount(e1[..1]) + 0;
    assert e2[..1][..0] == [];
    assert CreatedCount(e2) == CreatedCount(e2[..1]) + 0;
  }

  /** `invokeCreationCallback`, with the reset made in the map: the entry
      is fetched, a pending callback is cleared and then called, and
      `on_navigation_end` fires with the error. */
  method InvokeCreationCallback(handles: HandleMap, id: int, error: Error) returns (effects: seq<Effect>)
    requires !handles.locked
    modifies handles
    ensures effects == CreationEffects(old(handles.entries), id, error)
    ensures handles.entries == AfterCreation(old(handles.entries), id)
    ensures !handles.locked && handles.faults == old(handles.faults)
  {
    var info := handles.Fetch(id);
    if info.None? {
      return [];
    }
    effects := [];
    if info.value.callback.Some? {
      handles.ClearCallback(id);
      var c := info.value.callback.value;
      effects := [Created(c.callback, info.value.handle, c.data)];
    }
    effects := effects + [NavigationEnd(info.value.handle, error)];
  }

  /** `invokeCreationCallback` under the copy reading of `fetch` (the
      caller expects a pointer to the stored entry, `fetch` returns a
      copy): the reset is made on the copy, and the map keeps the
      callback. */
  method InvokeCreationCallbackAsWritten(handles: HandleMap, id: int, error: Error) returns (effects: seq<Effect>)
    requires !handles.locked && id in handles.entries
    modifies handles
    ensures effects == CreationEffects(old(handles.entries), id, error)
    ensures handles.entries == old(handles.entries)
  {
    var info := handles.Fetch(id);
    var copy := info.value;
    effects := [];
    if copy.callback.Some? {
      var c := copy.callback.value;
      copy := copy.(callback := None);
      effects := [Created(c.callback, info.value.handle, c.data)];
    }
    effects := effects + [NavigationEnd(copy.handle, error)];
  }

  /** `convertLoadResult`: code 0 is success; any other code gives an
      error with that code, as an `unsigned int`, and the error text. */
  function ConvertLoadResult(errorCode: int32, errorText: string): (e: Error)
    ensures errorCode == 0 ==> e == Success
    ensures errorCode != 0 ==> e == NewWithMsg(ToUint32(errorCode as int), errorText + ['\0'])
  {
    if errorCode == 0 then Success
    else
      assert (errorText + ['\0'])[|errorText|] == '\0';
      NewWithMsg(ToUint32(errorCode as int), errorText + ['\0'])
  }

  /** A load result is success exactly when its code is 0; a failed
      load's error reads back as its text when the text has no NUL, and a
      negative code becomes its two's complement. */
  lemma ConvertLoadResultError(errorCode: int32, errorText: string)
    requires '\0' !in errorText
    ensures IsOk(ConvertLoadResult(errorCode, errorText)) <==> errorCode == 0
    ensures errorCode != 0 ==> MessageText(ConvertLoadResult(errorCode, errorText)) == Some(errorText)
    ensures errorCode < 0 ==> ConvertLoadResult(errorCode, errorText).code as int == errorCode as int + TwoTo32
  {
    TextOfTerminated(errorText, []);
    assert errorText + ['\0'] + [] == errorText + ['\0'];
  }

  /** `OnLoadEnd`: the creation callback with a success record. */
  method OnLoadEnd(handles: HandleMap, id: int) returns (effects: seq<Effect>)
    requires !handles.locked
    modifies handles
    ensures effects == CreationEffects(old(handles.entries), id, Success)
    ensures handles.entries == AfterCreation(old(handles.entries), id)
    ensures !handles.locked && handles.faults == old(handles.faults)
  {
    effects := InvokeCreationCallback(handles, id, Success);
  }

  /** `OnLoadError`: the creation callback with the converted load result. */
  method OnLoadError(handles: HandleMap, id: int, errorCode: int32, errorText: string) returns (effects: seq<Effect>)
    requires !handles.locked
    modifies handles
    ensures effects == CreationEffects(old(handles.entries), id, ConvertLoadResult(errorCode, errorText))
    ensures handles.entries == AfterCreation(old(handles.entries), id)
    ensures !handles.locked && handles.faults == old(handles.faults)
  {
    var error := ConvertLoadResult(errorCode, errorText);
    effects := InvokeCreationCallback(handles, id, error);
  }

  /** A value of a `CefListValue`. */
  datatype Value = BoolValue(b: bool) | StringValue(s: string) | BinaryValue(bytes: Ptr) | NullValue

  /** `GetBool`: false for a value of another type or a missing one. */
  function GetBool(args: seq<Value>, i: nat): (b: bool)
    ensures b <==> i < |args| && args[i] == BoolValue(true)
  {
    if i < |args| && args[i].BoolValue? then args[i].b else false
  }

  /** `GetString`: empty for a value of another type or a missing one. */
  function GetString(args: seq<Value>, i: nat): (s: string)
    ensures i < |args| && args[i].StringValue? ==> s == args[i].s
    ensures !(i < |args| && args[i].StringValue?) ==> s == ""
  {
    if i < |args| && args[i].StringValue? then args[i].s else ""
  }

  /** The name of the message that carries a JavaScript result. */
  const EvalJsResultName: string := "eval-js-result"
  /** The name of the message that carries an invocation from JavaScript. */
  const InvokeHandlerName: string := "invoke-handler"

  /** `OnProcessMessageReceived`: whether the message is handled. */
  function ProcessMessageHandled(name: string): (handled: bool)
    ensures handled <==> name == EvalJsResultName || name == InvokeHandlerName
  {
    if name == EvalJsResultName then true
    else if name == InvokeHandlerName then true
    else false
  }

  /** `onEvalJsResultReceived`: the success flag at 0, the result at 1, and
      the handle, the callback and its data as binary values at 2, 3 and 4.
      A missing binary value is a NULL dereference (`None`). The callback
      gets the result and a NULL error, or a NULL result and an error with
      code 1 whose message is the result. */
  function EvalJsResult(args: seq<Value>): (call: Option<EvalCallbacks.Call>)
    ensures call.Some? <==> |args| >= 5 && args[2].BinaryValue? && args[3].BinaryValue? && args[4].BinaryValue?
    ensures call.Some? ==> call.value.bw == args[2].bytes && call.value.callback == args[3].bytes && call.value.userData == args[4].bytes
    ensures call.Some? && GetBool(args, 0) ==> call.value.result == Some(GetString(args, 1)) && call.value.error == None
    ensures call.Some? && !GetBool(args, 0) ==>
      call.value.result == None && call.value.error == Some(NewWithMsg(1, GetString(args, 1) + ['\0']))
  {
    if |args| >= 5 && args[2].BinaryValue? && args[3].BinaryValue? && args[4].BinaryValue? then
      var result := GetString(args, 1);
      assert (result + ['\0'])[|result|] == '\0';
      if GetBool(args, 0) then
        Some(EvalCallbacks.Call(args[2].bytes, args[3].bytes, args[4].bytes, Some(result), None))
      else
        Some(EvalCallbacks.Call(args[2].bytes, args[3].bytes, args[4].bytes, None, Some(NewWithMsg(1, result + ['\0']))))
    else None
  }

  /** A failed evaluation's error message reads back as the result text,
      when that text has no NUL. */
  lemma EvalJsResultError(args: seq<Value>)
    requires EvalJsResult(args).Some? && !GetBool(args, 0) && '\0' !in GetString(args, 1)
    ensures EvalJsResult(args).value.error.Some?
    ensures MessageText(EvalJsResult(args).value.error.value) == Some(GetString(args, 1))
    ensures EvalJsResult(args).value.error.value.code == 1
  {
    var t := GetString(args, 1);
    TextOfTerminated(t, []);
    assert t + ['\0'] + [] == t + ['\0'];
  }

  /** `ExternalInvocationHandlerData`: the browser window, the command and
      its parameters. */
  datatype Invocation = Invocation(bw: Ptr, cmd: string, params: seq<string>)

  /** The parameters of an `invoke-handler` message: the strings at indices
      1 to the end, in order. */
  method ReadParams(args: seq<Value>) returns (params: seq<string>)
    requires |args| > 0
    ensures |params| == |args| - 1
    ensures forall k :: 0 <= k < |params| ==> params[k] == GetString(args, k + 1)
  {
    params := [];
    var i := 1;
    while i < |args|
      invariant 1 <= i <= |args|
      invariant |params| == i - 1
      invariant forall k :: 0 <= k < |params| ==> params[k] == GetString(args, k + 1)
    {
      params := params + [GetString(args, i)];
      i := i + 1;
    }
  }

  /** `onInvokeHandlerReceived`: the browser must have an entry (the
      `BW_ASSERT`; `None` when it has not); the command is the string at 0
      and the parameters follow. An empty argument list makes `reserve`
      ask for `SIZE_MAX` strings, which throws (`None`). The invocation
      is what is dispatched to the application. */
  method OnInvokeHandlerReceived(handles: HandleMap, id: int, args: seq<Value>) returns (invocation: Option<Invocation>)
    requires !handles.locked
    modifies handles
    ensures invocation.Some? <==> id in handles.entries && |args| > 0
    ensures invocation.Some? ==> invocation.value.bw == handles.entries[id].handle && invocation.value.cmd == GetString(args, 0)
    ensures invocation.Some? ==> |invocation.value.params| == |args| - 1
    ensures invocation.Some? ==> forall k :: 0 <= k < |args| - 1 ==> invocation.value.params[k] == GetString(args, k + 1)
    ensures handles.entries == old(handles.entries) && !handles.locked && handles.faults == old(handles.faults)
  {
    var info := handles.Fetch(id);
    if info.None? || |args| == 0 {
      return None;
    }
    var cmd := GetString(args, 0);
    var params := ReadParams(args);
    return Some(Invocation(info.value.handle, cmd, params));
  }
}
