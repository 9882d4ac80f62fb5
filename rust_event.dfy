/** The Rust `Event<A>`: a list of boxed handlers invoked in registration
    order. A handler is known by its identity; `register` wraps a plain
    closure (it runs when called and yields a finished future) and
    `register_async` an async closure (calling it only builds its future). */
module RustEvent {
  datatype Handler = Sync(id: nat) | Async(id: nat)

  /** What calling a handler with the arguments did: a plain closure ran
      its body; an async closure produced a future, which `invoke` drops
      without polling, so that body does not run. */
  datatype Effect<A> = BodyRan(id: nat, args: A) | FutureDropped(id: nat, args: A)

  function EffectOf<A>(h: Handler, args: A): Effect<A> {
    match h
    case Sync(id) => BodyRan(id, args)
    case Async(id) => FutureDropped(id, args)
  }

  /** The effects of invoking `handlers` with `args`, in order. */
  function Effects<A>(handlers: seq<Handler>, args: A): (r: seq<Effect<A>>)
    ensures |r| == |handlers|
    decreases |handlers|
  {
    if |handlers| == 0 then []
    else Effects(handlers[..|handlers| - 1], args) + [EffectOf(handlers[|handlers| - 1], args)]
  }

  /** Handler `i` is called `i`-th, with the same arguments. */
  lemma {:induction false} EffectsInOrder<A>(handlers: seq<Handler>, args: A, i: nat)
    requires i < |handlers|
    ensures Effects(handlers, args)[i] == EffectOf(handlers[i], args)
    decreases |handlers|
  {
    if i < |handlers| - 1 {
      EffectsInOrder(handlers[..|handlers| - 1], args, i);
    }
  }

  /** Only plain handlers have their bodies run by `invoke`. */
  lemma AsyncBodiesDoNotRun<A>(handlers: seq<Handler>, args: A, i: nat)
    requires i < |handlers|
    ensures Effects(handlers, args)[i].BodyRan? <==> handlers[i].Sync?
  {
    EffectsInOrder(handlers, args, i);
  }

  class Event<A> {
    var handlers: seq<Handler>

    /** `Event::default`: no handlers. */
    constructor ()
      ensures handlers == []
    {
      handlers := [];
    }

    /** `register`: exactly one plain handler appended. */
    method Register(id: nat)
      modifies this
      ensures handlers == old(handlers) + [Sync(id)]
    {
      handlers := handlers + [Sync(id)];
    }

    /** `register_async`: exactly one async handler appended. */
    method RegisterAsync(id: nat)
      modifies this
      ensures handlers == old(handlers) + [Async(id)]
    {
      handlers := handlers + [Async(id)];
    }

    /** `invoke`: every handler called once, in registration order. */
    method Invoke(args: A) returns (effects: seq<Effect<A>>)
      ensures effects == Effects(handlers, args)
    {
      effects := [];
      var i := 0;
      while i < |handlers|
        invariant 0 <= i <= |handlers|
        invariant effects == Effects(handlers[..i], args)
      {
        assert handlers[..i + 1][..i] == handlers[..i];
        effects := effects + [EffectOf(handlers[i], args)];
        i := i + 1;
      }
      assert handlers[..i] == handlers;
    }
  }
}
