/**
 * `Model`: the base class of every persisted entity, reduced to its
 * listener registry (`on`, `off`, `once`, `emit`) and `toString`.
 */
module Models {
  import opened Wrappers
  import opened Js
  import Text

  /** A callback function, compared by identity as `===` compares functions. */
  class Callback {
    /** For the wrapper `once` builds: the event it detaches itself from, and the callback it forwards to. */
    const wraps: Option<(string, Callback)>

    constructor (wraps: Option<(string, Callback)>)
      ensures this.wraps == wraps
    {
      this.wraps := wraps;
    }
  }

  /** A registered listener; `key` is `options?.key`, undefined when there is none. */
  datatype Listener = Listener(callback: Callback, key: Value)

  /** A model id: `string | number`. */
  datatype ModelId = StrId(s: string) | NumId(n: Number)

  type Registry = map<string, seq<Listener>>

  /** The listeners of one event; an event never registered has none. */
  function ListOf(m: Registry, eventName: string): seq<Listener>
  {
    if eventName in m then m[eventName] else []
  }

  predicate KeyTaken(ls: seq<Listener>, key: Value)
  {
    exists k :: 0 <= k < |ls| && StrictEquals(ls[k].key, key)
  }

  predicate Registered(ls: seq<Listener>, callback: Callback)
  {
    exists k :: 0 <= k < |ls| && ls[k].callback == callback
  }

  /** `ls.filter(l => l.callback !== callback)`. */
  function Without(ls: seq<Listener>, callback: Callback): (r: seq<Listener>)
    ensures |r| <= |ls|
    ensures forall k :: 0 <= k < |r| ==> r[k] in ls && r[k].callback != callback
    ensures forall k :: 0 <= k < |ls| && ls[k].callback != callback ==> ls[k] in r
  {
    if ls == [] then []
    else Without(ls[..|ls| - 1], callback) + (if ls[|ls| - 1].callback != callback then [ls[|ls| - 1]] else [])
  }

  /** The registry after `off(eventName, callback)`. */
  function OffMap(m: Registry, eventName: string, callback: Callback): Registry
  {
    if eventName in m then m[eventName := Without(m[eventName], callback)] else m
  }

  /** The callback a listener's invocation runs: a `once` wrapper forwards to the callback it wraps. */
  function Target(callback: Callback): Callback
  {
    if callback.wraps.Some? then callback.wraps.value.1 else callback
  }

  /** The callbacks an emission over `snapshot` runs, in list order. */
  function Invoked(snapshot: seq<Listener>): (r: seq<Callback>)
    ensures |r| == |snapshot|
    ensures forall k :: 0 <= k < |r| ==> r[k] == Target(snapshot[k].callback)
  {
    if snapshot == [] then []
    else Invoked(snapshot[..|snapshot| - 1]) + [Target(snapshot[|snapshot| - 1].callback)]
  }

  /** The registry after an emission over `snapshot`: every `once` wrapper in it has detached itself. */
  function AfterRun(m: Registry, snapshot: seq<Listener>): Registry
  {
    if snapshot == [] then m
    else
      var before := AfterRun(m, snapshot[..|snapshot| - 1]);
      var callback := snapshot[|snapshot| - 1].callback;
      if callback.wraps.Some? then OffMap(before, callback.wraps.value.0, callback) else before
  }

  /**
   * What the emission as written runs. `ModelEvent` receives the listener
   * records `{callback, options}` and calls only the entries whose `typeof`
   * is `'function'`; a record's `typeof` is `'object'`.
   */
  function InvokedAsWritten(snapshot: seq<Listener>): (r: seq<Callback>)
  {
    if snapshot == [] then []
    else
      var entry := Obj(|snapshot| - 1);
      InvokedAsWritten(snapshot[..|snapshot| - 1]) + (if TypeOf(entry) == "function" then [snapshot[|snapshot| - 1].callback] else [])
  }

  /** The `${id}` text of a model id. */
  function IdText(id: ModelId): string
  {
    match id
    case StrId(s) => s
    case NumId(n) => NumberToString(n)
  }

  predicate IdTruthy(id: ModelId)
  {
    match id
    case StrId(s) => s != ""
    case NumId(n) => n.Finite? && n.n != 0
  }

  class Model {
    /** `this.constructor.name`. */
    const typeName: string
    const id: ModelId
    /** `__eventListeners`. */
    var listeners: Registry

    constructor (typeName: string, id: ModelId)
      ensures this.typeName == typeName && this.id == id && listeners == map[]
    {
      this.typeName := typeName;
      this.id := id;
      listeners := map[];
    }

    /**
     * `on`: a listener whose defined key an existing listener of the event
     * already has is refused; any other is appended.
     */
    method On(eventName: string, callback: Callback, key: Value) returns (added: bool)
      modifies this
      ensures added <==> key.Undefined? || !KeyTaken(ListOf(old(listeners), eventName), key)
      ensures listeners == old(listeners)[eventName := ListOf(old(listeners), eventName) + (if added then [Listener(callback, key)] else [])]
    {
      var ls := ListOf(listeners, eventName);
      listeners := listeners[eventName := ls];
      if !key.Undefined? && KeyTaken(ls, key) {
        assert ls + [] == ls;
        return false;
      }
      listeners := listeners[eventName := ls + [Listener(callback, key)]];
      return true;
    }

    /** `off`: removes every listener of the event with this callback; true iff one was removed. */
    method Off(eventName: string, callback: Callback) returns (removed: bool)
      modifies this
      ensures listeners == OffMap(old(listeners), eventName, callback)
      ensures removed <==> Registered(ListOf(old(listeners), eventName), callback)
    {
      if eventName in listeners {
        var oldLength := |listeners[eventName]|;
        WithoutShrinks(listeners[eventName], callback);
        listeners := listeners[eventName := Without(listeners[eventName], callback)];
        var newLength := |listeners[eventName]|;
        return oldLength != newLength;
      }
      return false;
    }

    /** `once`: registers a fresh wrapper that detaches itself before forwarding to `callback`. */
    method Once(eventName: string, callback: Callback, key: Value) returns (wrapper: Callback)
      modifies this
      ensures fresh(wrapper) && wrapper.wraps == Some((eventName, callback))
      ensures listeners == old(listeners)[eventName := ListOf(old(listeners), eventName)
                + (if key.Undefined? || !KeyTaken(ListOf(old(listeners), eventName), key) then [Listener(wrapper, key)] else [])]
    {
      wrapper := new Callback(Some((eventName, callback)));
      var _ := On(eventName, wrapper, key);
    }

    /**
     * `emit`, with each listener's callback called in list order over the
     * list current when the emission starts; returns the callbacks run.
     */
    method Emit(eventName: string) returns (ran: seq<Callback>)
      modifies this
      ensures ran == Invoked(ListOf(old(listeners), eventName))
      ensures listeners == AfterRun(old(listeners), ListOf(old(listeners), eventName))
    {
      var snapshot := ListOf(listeners, eventName);
      ran := [];
      var i := 0;
      while i < |snapshot|
        invariant 0 <= i <= |snapshot|
        invariant ran == Invoked(snapshot[..i])
        invariant listeners == AfterRun(old(listeners), snapshot[..i])
      {
        var callback := snapshot[i].callback;
        assert snapshot[..i + 1][..i] == snapshot[..i];
        if callback.wraps.Some? {
          var _ := Off(callback.wraps.value.0, callback);
        }
        ran := ran + [Target(callback)];
        i := i + 1;
      }
      assert snapshot[..i] == snapshot;
    }

    /** `emit` as written: the listener records reach `ModelEvent` in place of callbacks. */
    method EmitAsWritten(eventName: string) returns (ran: seq<Callback>)
      ensures ran == InvokedAsWritten(ListOf(listeners, eventName))
    {
      var snapshot := ListOf(listeners, eventName);
      ran := [];
      var i := 0;
      while i < |snapshot|
        invariant 0 <= i <= |snapshot|
        invariant ran == InvokedAsWritten(snapshot[..i])
      {
        assert snapshot[..i + 1][..i] == snapshot[..i];
        var entry, callback := Obj(i), snapshot[i].callback;
        if TypeOf(entry) == "function" {
          ran := ran + [callback];
        }
        i := i + 1;
      }
      assert snapshot[..i] == snapshot;
    }

    /** `toString`: `[Type id]` for a truthy id, `[Type]` otherwise. */
    function ToString(): (s: string)
      ensures Text.StartsWith(s, "[" + typeName) && s[|s| - 1] == ']'
      ensures s == "[" + typeName + "]" <==> !IdTruthy(id)
    {
      if IdTruthy(id) then
        IdTextNonEmpty(id);
        "[" + typeName + " " + IdText(id) + "]"
      else "[" + typeName + "]"
    }
  }

  // ---------------------------------------------------------------------
  // Properties
  // ---------------------------------------------------------------------

  lemma IdTextNonEmpty(id: ModelId)
    requires IdTruthy(id)
    ensures IdText(id) != ""
  {
    if id.NumId? {
      Text.IntStringRoundTrip(id.n.n);
    }
  }

  /** Removing a callback distributes over concatenation, so the remaining listeners keep their order. */
  lemma {:induction false} WithoutAppend(a: seq<Listener>, b: seq<Listener>, callback: Callback)
    ensures Without(a + b, callback) == Without(a, callback) + Without(b, callback)
    decreases |b|
  {
    if b == [] {
      assert a + b == a;
    } else {
      var b' := b[..|b| - 1];
      assert (a + b)[..|a + b| - 1] == a + b';
      WithoutAppend(a, b', callback);
    }
  }

  /** `off` shortens the list exactly when the callback was registered, and is then a no-op. */
  lemma {:induction false} WithoutShrinks(ls: seq<Listener>, callback: Callback)
    ensures |Without(ls, callback)| < |ls| <==> Registered(ls, callback)
    ensures !Registered(ls, callback) ==> Without(ls, callback) == ls
  {
    if ls != [] {
      var init := ls[..|ls| - 1];
      WithoutShrinks(init, callback);
      if Registered(init, callback) {
        var k :| 0 <= k < |init| && init[k].callback == callback;
        assert ls[k].callback == callback;
      }
      if ls[|ls| - 1].callback == callback {
        assert Registered(ls, callback);
      }
      if Registered(ls, callback) && ls[|ls| - 1].callback != callback {
        var k :| 0 <= k < |ls| && ls[k].callback == callback;
        assert init[k].callback == callback;
      }
      assert ls == init + [ls[|ls| - 1]];
    }
  }

  /** An emission detaches every `once` wrapper it ran from the event it was registered for. */
  lemma {:induction false} OnceDetached(m: Registry, snapshot: seq<Listener>, k: nat)
    requires k < |snapshot| && snapshot[k].callback.wraps.Some?
    ensures !Registered(ListOf(AfterRun(m, snapshot), snapshot[k].callback.wraps.value.0), snapshot[k].callback)
  {
    var w := snapshot[k].callback;
    var e := w.wraps.value.0;
    var init := snapshot[..|snapshot| - 1];
    var before := AfterRun(m, init);
    var last := snapshot[|snapshot| - 1].callback;
    if k < |snapshot| - 1 {
      assert init[k] == snapshot[k];
      OnceDetached(m, init, k);
      if last.wraps.Some? {
        StaysDetached(before, last.wraps.value.0, last, e, w);
      }
    }
  }

  /** `off` never registers anything, so a detached callback stays detached. */
  lemma StaysDetached(m: Registry, eventName: string, callback: Callback, e: string, w: Callback)
    requires !Registered(ListOf(m, e), w)
    ensures !Registered(ListOf(OffMap(m, eventName, callback), e), w)
  {
    if eventName == e && e in m {
      var after := Without(m[e], callback);
      forall j | 0 <= j < |after|
        ensures after[j].callback != w
      {
        assert after[j] in m[e];
      }
    }
  }

  /** As written, an emission over a non-empty listener list runs none of them. */
  lemma {:induction false} EmitRunsNothingAsWritten(snapshot: seq<Listener>)
    ensures InvokedAsWritten(snapshot) == []
    ensures snapshot != [] ==> InvokedAsWritten(snapshot) != Invoked(snapshot)
  {
    if snapshot != [] {
      EmitRunsNothingAsWritten(snapshot[..|snapshot| - 1]);
    }
  }
}
