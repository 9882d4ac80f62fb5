/** `bw_Event`: a C callback with its data pointer, fired with one
    argument. */
module CEvent {
  import opened Handles

  /** `bw_Event`: `callback` is NULL (0) when no handler is set. */
  datatype Event = Event(callback: FuncPtr, data: Ptr)

  /** One call of an event callback: `callback(arg, data)`. */
  datatype Call = Call(callback: FuncPtr, arg: Ptr, data: Ptr)

  /** What firing did: the value returned and the calls made. */
  datatype Fired = Fired(result: bool, calls: seq<Call>)

  /** `bw_Event_fire`. What a callback returns is given by `respond`; the
      event itself is a value here and so cannot change. */
  function Fire(event: Event, arg: Ptr, respond: Call -> bool): (f: Fired)
    ensures event.callback == NULL ==> f == Fired(false, [])
    ensures event.callback != NULL ==>
      && f.calls == [Call(event.callback, arg, event.data)]
      && f.result == respond(f.calls[0])
  {
    if event.callback != NULL then
      var call := Call(event.callback, arg, event.data);
      Fired(respond(call), [call])
    else Fired(false, [])
  }

  /** Firing calls at most one callback, and one exactly when one is set;
      its result is `FALSE` whenever nothing was called. */
  lemma FireCallsAtMostOnce(event: Event, arg: Ptr, respond: Call -> bool)
    ensures |Fire(event, arg, respond).calls| <= 1
    ensures |Fire(event, arg, respond).calls| == 1 <==> event.callback != NULL
    ensures Fire(event, arg, respond).result ==> event.callback != NULL
  {
  }
}
