/** The store of JavaScript evaluation callbacks of the CEF layer
    (ffi/src/cef/eval_callback_store.cpp): `store` hands out the next key
    of an `unsigned int` counter and keeps the callback under it; `invoke`
    takes the callback out of the store and calls it with the result or
    the error of the evaluation.

    The mutex is left out: every operation here runs on its own. `calls`
    records the callbacks run and `fired` the keys they ran under; `issued`
    counts the keys handed out, so that keys are fresh until the counter
    wraps, after 2^32 of them. */
module EvalCallbacks {
  import opened Wrappers
  import opened Handles
  import opened Errors

  /** `EvalCallbackData`: the browser window, the callback and its user
      data. */
  datatype CallbackData = CallbackData(bw: Ptr, callback: FuncPtr, userData: Ptr)

  /** What an evaluation gave: the `success` flag of `invoke` together with
      the member of the `EvalCallbackResult` union that it selects. */
  datatype EvalOutcome = Succeeded(text: string) | Failed(error: Error)

  /** One call `callback(bw, user_data, result, error)`; `None` stands for
      a NULL argument. */
  datatype Call = Call(bw: Ptr, callback: FuncPtr, userData: Ptr, result: Option<string>, error: Option<Error>)

  /** The call `invoke` makes for a stored callback. */
  function CallFor(data: CallbackData, outcome: EvalOutcome): (c: Call)
    ensures c.result.Some? <==> c.error.None?
    ensures c.bw == data.bw && c.callback == data.callback && c.userData == data.userData
  {
    match outcome
    case Succeeded(text) => Call(data.bw, data.callback, data.userData, Some(text), None)
    case Failed(error) => Call(data.bw, data.callback, data.userData, None, Some(error))
  }

  /** A callback gets the result and a NULL error, or a NULL result and the
      error, never both and never neither. */
  lemma CallForExclusive(data: CallbackData, outcome: EvalOutcome)
    ensures CallFor(data, outcome).result.Some? != CallFor(data, outcome).error.Some?
    ensures CallFor(data, outcome).result.Some? <==> outcome.Succeeded?
    ensures outcome.Succeeded? ==> CallFor(data, outcome).result == Some(outcome.text)
    ensures outcome.Failed? ==> CallFor(data, outcome).error == Some(outcome.error)
    ensures CallFor(data, outcome).bw == data.bw && CallFor(data, outcome).callback == data.callback
    ensures CallFor(data, outcome).userData == data.userData
  {
  }

  /** No key occurs twice. */
  ghost predicate NoRepeats(s: seq<uint32>)
  {
    forall i, j :: 0 <= i < j < |s| ==> s[i] != s[j]
  }

  class EvalCallbackStore {
    var cbStore: map<uint32, CallbackData>
    var nextKey: uint32
    ghost var issued: nat
    ghost var calls: seq<Call>
    ghost var fired: seq<uint32>
    /** The keys whose entry was read through an iterator after `erase`. */
    ghost var readAfterErase: seq<uint32>

    /** `next_key` is the number of keys handed out, as an `unsigned int`.
        Until the counter wraps, every stored key is one handed out, and a
        key that has fired is no longer stored and fired only once. */
    ghost predicate Valid()
      reads this
    {
      && nextKey == ToUint32(issued)
      && (issued <= TwoTo32 ==>
          && (forall k :: k in cbStore ==> k as int < issued)
          && (forall i :: 0 <= i < |fired| ==> fired[i] as int < issued && fired[i] !in cbStore)
          && NoRepeats(fired))
    }

    /** `EvalCallbackStore()`: the store is empty and the first key is 0. */
    constructor ()
      ensures Valid()
      ensures cbStore == map[] && nextKey == 0 && issued == 0
      ensures calls == [] && fired == [] && readAfterErase == []
    {
      cbStore := map[];
      nextKey := 0;
      issued := 0;
      calls := [];
      fired := [];
      readAfterErase := [];
    }

    /** `store`: the key is the current `next_key`, which goes up by one,
        wrapping at 2^32, and the data is kept under it, replacing what was
        there. Until the counter wraps the key is the number of keys handed
        out before, so it is new and larger than every earlier key. */
    method Store(data: CallbackData) returns (key: uint32)
      requires Valid()
      modifies this
      ensures Valid()
      ensures key == old(nextKey) && nextKey == ToUint32(old(nextKey) as int + 1)
      ensures cbStore == old(cbStore)[key := data]
      ensures issued == old(issued) + 1
      ensures old(issued) < TwoTo32 ==> key as int == old(issued) && key !in old(cbStore)
      ensures calls == old(calls) && fired == old(fired) && readAfterErase == old(readAfterErase)
    {
      key := nextKey;
      ToUint32Shift(issued, 1);
      nextKey := ToUint32(nextKey as int + 1);
      cbStore := cbStore[key := data];
      issued := issued + 1;
    }

    /** `invoke` with the entry read before it is erased: an unknown id
        gives false and calls nothing; a known one is taken out of the
        store and its callback called once, with the result or the error. */
    method Invoke(callbackId: uint32, outcome: EvalOutcome) returns (found: bool)
      requires Valid()
      modifies this
      ensures Valid()
      ensures found <==> callbackId in old(cbStore)
      ensures found ==> cbStore == old(cbStore) - {callbackId}
      ensures found ==> calls == old(calls) + [CallFor(old(cbStore)[callbackId], outcome)] && fired == old(fired) + [callbackId]
      ensures !found ==> cbStore == old(cbStore) && calls == old(calls) && fired == old(fired)
      ensures nextKey == old(nextKey) && issued == old(issued) && readAfterErase == old(readAfterErase)
    {
      if callbackId !in cbStore {
        return false;
      }
      var data := cbStore[callbackId];
      cbStore := cbStore - {callbackId};
      calls := calls + [CallFor(data, outcome)];
      fired := fired + [callbackId];
      return true;
    }

    /** `invoke` as the source writes it: the entry is erased first and
        then read through the iterator `erase` has invalidated. */
    method InvokeAsWritten(callbackId: uint32, outcome: EvalOutcome) returns (found: bool)
      requires Valid()
      modifies this
      ensures found <==> callbackId in old(cbStore)
      ensures found ==> callbackId !in cbStore && readAfterErase == old(readAfterErase) + [callbackId]
      ensures !found ==> cbStore == old(cbStore) && readAfterErase == old(readAfterErase)
    {
      if callbackId !in cbStore {
        return false;
      }
      var data := cbStore[callbackId];
      cbStore := cbStore - {callbackId};
      readAfterErase := readAfterErase + [callbackId];
      calls := calls + [CallFor(data, outcome)];
      fired := fired + [callbackId];
      return true;
    }
  }

  /** A stored key fires at most once: invoking it a second time, with
      nothing stored in between, finds nothing and calls nothing. */
  method InvokeTwice(s: EvalCallbackStore, data: CallbackData, first: EvalOutcome, second: EvalOutcome)
    returns (key: uint32, once: bool, twice: bool)
    requires s.Valid()
    modifies s
    ensures once && !twice
    ensures s.calls == old(s.calls) + [CallFor(data, first)]
  {
    key := s.Store(data);
    once := s.Invoke(key, first);
    twice := s.Invoke(key, second);
  }
}
