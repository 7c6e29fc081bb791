/**
 * The event-emitter demo: a table from event name to the handlers registered
 * under it, `emit` calling them in registration order, and `wait_for_next`,
 * which registers a handler that resolves a future with the first value
 * emitted after it.
 */
module AsyncDemo {
  import opened Common

  /** The one-shot latch of `wait_for_next`: it keeps the first value it is given. */
  function Latch<E>(r: Option<E>, arg: E): Option<E> {
    if r.Some? then r else Some(arg)
  }

  /** The latch after being given `args` one after the other: a future's result
      after `Resolve` with each argument in turn, or after one `Emit` per argument
      that reaches its resolver, since each such call replaces the result `r` by
      `Latch(r, arg)`. */
  function LatchAll<E>(r: Option<E>, args: seq<E>): Option<E>
    decreases |args|
  {
    if args == [] then r else LatchAll(Latch(r, args[0]), args[1..])
  }

  /** Once resolved, a future keeps its value whatever is emitted afterwards. */
  lemma {:induction false} ResolvedStays<E>(x: E, args: seq<E>)
    ensures LatchAll(Some(x), args) == Some(x)
    decreases |args|
  {
    if args != [] {
      ResolvedStays(x, args[1..]);
    }
  }

  /** A pending future ends up holding the first value emitted to it, and stays
      pending while nothing is emitted. */
  lemma LatchKeepsFirst<E>(args: seq<E>)
    ensures LatchAll(None, args) == if args == [] then None else Some(args[0])
  {
    if args != [] {
      ResolvedStays(args[0], args[1..]);
    }
  }

  /** An `asyncio.Future`, reduced to its result. */
  class Future<E> {
    var result: Option<E>

    constructor ()
      ensures result == None
    {
      result := None;
    }

    /** The body of the handler `wait_for_next` registers:
        `if not future.done(): future.set_result(arg)`. */
    method Resolve(arg: E)
      modifies this
      ensures result == Latch(old(result), arg)
    {
      if result == None {
        result := Some(arg);
      }
    }
  }

  /** A registered handler: a callback that prints a fixed line, or the resolver of a
      future created by `wait_for_next`. */
  datatype Handler<E> = Print(line: string) | Resolver(future: Future<E>)

  /** The futures the handlers in `hs` resolve. */
  function FuturesOf<E>(hs: seq<Handler<E>>): set<Future<E>> {
    set i | 0 <= i < |hs| && hs[i].Resolver? :: hs[i].future
  }

  lemma FuturesOfOne<E>(f: Future<E>)
    ensures FuturesOf([Resolver(f)]) == {f}
  {
    var hs := [Resolver(f)];
    assert hs[0].future == f;
    assert f in FuturesOf(hs);
  }

  /** The lines the callbacks among `hs` print, in order. */
  function Printed<E>(hs: seq<Handler<E>>): seq<string> {
    if hs == [] then []
    else (if hs[0].Print? then [hs[0].line] else []) + Printed(hs[1..])
  }

  class EventEmitter<E> {
    var handlers: map<string, seq<Handler<E>>>

    constructor ()
      ensures handlers == map[]
    {
      handlers := map[];
    }

    /** The handlers registered under `name`, none if the name was never used. */
    function Registered(name: string): seq<Handler<E>>
      reads this
    {
      if name in handlers then handlers[name] else []
    }

    /** `on(name, h)`: append `h` to the list for `name`, creating it if absent; other
        names keep their lists. */
    method On(name: string, h: Handler<E>)
      modifies this
      ensures handlers == old(handlers)[name := old(Registered(name)) + [h]]
      ensures forall other :: other != name ==> Registered(other) == old(Registered(other))
    {
      if name !in handlers {
        handlers := handlers[name := []];
      }
      handlers := handlers[name := handlers[name] + [h]];
    }

    /** `emit(name, e)`: call every handler registered under `name`, once per
        registration, in registration order. The table itself is not changed, and an
        unknown name calls nothing. Returns the handlers called. */
    method Emit(name: string, arg: E) returns (called: seq<Handler<E>>)
      modifies FuturesOf(Registered(name))
      ensures called == Registered(name)
      ensures handlers == old(handlers)
      ensures forall f :: f in FuturesOf(called) ==> f.result == Latch(old(f.result), arg)
    {
      called := [];
      if name in handlers {
        var hs := handlers[name];
        var i := 0;
        while i < |hs|
          invariant 0 <= i <= |hs|
          invariant called == hs[..i]
          invariant forall f :: f in FuturesOf(hs) ==>
            f.result == (if f in FuturesOf(hs[..i]) then Latch(old(f.result), arg) else old(f.result))
        {
          match hs[i] {
            case Print(_) =>
            case Resolver(f) =>
              f.Resolve(arg);
          }
          assert FuturesOf(hs[..i + 1]) == FuturesOf(hs[..i]) + (if hs[i].Resolver? then {hs[i].future} else {});
          called := called + [hs[i]];
          i := i + 1;
        }
        assert hs[..i] == hs;
      }
    }

    /** `wait_for_next(name)`: create a pending future and register its resolver under
        `name`. The resolver is never removed, so every call leaves the list for `name`
        one handler longer. */
    method WaitForNext(name: string) returns (future: Future<E>)
      modifies this
      ensures fresh(future) && future.result == None
      ensures handlers == old(handlers)[name := old(Registered(name)) + [Resolver(future)]]
      ensures |Registered(name)| == |old(Registered(name))| + 1
    {
      future := new Future();
      On(name, Resolver(future));
    }
  }

  /**
   * The demo's `main`: two print callbacks on "weiyih" run in registration order; each
   * of the futures waiting for "data" and "error" receives the value emitted to it.
   */
  method RunDemo() returns (printed: seq<string>, data: Option<string>, error: Option<string>)
    ensures printed == ["weiyih2", "weiyih1"]
    ensures data == Some("Hello, World!")
    ensures error == Some("weiyih")
  {
    var emitter := new EventEmitter<string>();
    emitter.On("weiyih", Print("weiyih2"));
    emitter.On("weiyih", Print("weiyih1"));
    var called := emitter.Emit("weiyih", "test");
    assert called == [Print("weiyih2"), Print("weiyih1")];
    assert called[1..] == [Print("weiyih1")] && called[1..][1..] == [];
    assert Printed(called[1..]) == ["weiyih1"];
    printed := Printed(called);

    var dataFuture := emitter.WaitForNext("data");
    var errorFuture := emitter.WaitForNext("error");
    assert emitter.Registered("data") == [Resolver(dataFuture)];
    FuturesOfOne(dataFuture);
    var _ := emitter.Emit("data", "Hello, World!");
    assert emitter.Registered("error") == [Resolver(errorFuture)];
    FuturesOfOne(errorFuture);
    var _ := emitter.Emit("error", "weiyih");
    data := dataFuture.result;
    error := errorFuture.result;
  }
}
