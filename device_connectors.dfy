/**
 * The open/ready state machines around device I/O: `DeviceConnector`,
 * whose `emit` walks create → open → destroy; and `DeviceConnection` and
 * `Connector`, whose open and ready flags emit an event only when they
 * change.
 */
module DeviceConnectors {
  import opened Wrappers
  import opened Js

  // ---------------------------------------------------------------------
  // Flags that announce their changes
  // ---------------------------------------------------------------------

  /**
   * `setOpen(v)` / `setReady(v)` on a flag holding `current`: the flag
   * becomes `!!v`, and one event, naming the new value, is emitted exactly
   * when the flag changed.
   */
  function SetFlag(current: bool, requested: Value): (r: (bool, seq<bool>))
    ensures r.0 == Truthy(requested)
    ensures r.1 == [] <==> r.0 == current
    ensures |r.1| <= 1 && forall k :: 0 <= k < |r.1| ==> r.1[k] == r.0
  {
    var next := Truthy(requested);
    if current == next then (current, []) else (next, [next])
  }

  /** The flag and the events after a series of calls, the last call last. */
  function FlagRun(start: bool, requests: seq<Value>): (bool, seq<bool>)
  {
    if requests == [] then (start, [])
    else
      var (flag, events) := FlagRun(start, requests[..|requests| - 1]);
      var (next, more) := SetFlag(flag, requests[|requests| - 1]);
      (next, events + more)
  }

  /**
   * Whatever the calls, the events alternate, the first one naming the
   * opposite of the starting value, and the flag ends where the last
   * event left it.
   */
  lemma {:induction false} FlagRunAlternates(start: bool, requests: seq<Value>)
    ensures var (flag, events) := FlagRun(start, requests);
            (forall k :: 0 <= k < |events| ==> events[k] == (if k % 2 == 0 then !start else start)) &&
            flag == (if |events| % 2 == 0 then start else !start)
  {
    if requests != [] {
      var init := requests[..|requests| - 1];
      FlagRunAlternates(start, init);
      var (flag, events) := FlagRun(start, init);
      var (next, more) := SetFlag(flag, requests[|requests| - 1]);
      assert FlagRun(start, requests) == (next, events + more);
      forall k | 0 <= k < |events + more|
        ensures (events + more)[k] == (if k % 2 == 0 then !start else start)
      {
        if k >= |events| {
          assert k == |events|;
        }
      }
    }
  }

  lemma FlagRunStep(start: bool, requests: seq<Value>, i: nat)
    requires i < |requests|
    ensures var run := FlagRun(start, requests[..i]);
            var step := SetFlag(run.0, requests[i]);
            FlagRun(start, requests[..i + 1]) == (step.0, run.1 + step.1)
  {
    assert requests[..i + 1][..i] == requests[..i];
  }

  /** So an event never repeats the one before it. */
  lemma NoRepeatedEvents(start: bool, requests: seq<Value>, k: nat)
    requires k + 1 < |FlagRun(start, requests).1|
    ensures FlagRun(start, requests).1[k] != FlagRun(start, requests).1[k + 1]
  {
    FlagRunAlternates(start, requests);
  }

  /**
   * The event names a flag emits for its changes: `on` for a change to
   * true, `off` for a change to false (`open`/`close` for a connection,
   * `ready`/`stop` for a connector).
   */
  function FlagEvents(changes: seq<bool>, on: string, off: string): (r: seq<string>)
    ensures |r| == |changes|
    ensures forall k :: 0 <= k < |r| ==> r[k] == (if changes[k] then on else off)
  {
    if changes == [] then []
    else FlagEvents(changes[..|changes| - 1], on, off) + [if changes[|changes| - 1] then on else off]
  }

  /** The names of successive changes are emitted in order. */
  lemma FlagEventsAppend(a: seq<bool>, b: seq<bool>, on: string, off: string)
    ensures FlagEvents(a + b, on, off) == FlagEvents(a, on, off) + FlagEvents(b, on, off)
  {
    var r := FlagEvents(a + b, on, off);
    var t := FlagEvents(a, on, off) + FlagEvents(b, on, off);
    forall k | 0 <= k < |r| ensures r[k] == t[k] {
      if k < |a| {
        assert (a + b)[k] == a[k];
      } else {
        assert (a + b)[k] == b[k - |a|];
      }
    }
  }

  /**
   * The value `setOpen(isOpen = true)` coerces: a default parameter applies
   * both when the argument is left out (`None`) and when it is `undefined`.
   */
  function OpenArgument(requested: Option<Value>): (v: Value)
    ensures Truthy(v) <==> requested.None? || requested.value.Undefined? || Truthy(requested.value)
    ensures requested.Some? && !requested.value.Undefined? ==> v == requested.value
  {
    if requested.None? || requested.value.Undefined? then Bool(true) else requested.value
  }

  /** `DeviceConnection`: the open flag of a device's connection. */
  class DeviceConnection {
    var isOpen: bool
    /** The events emitted so far, in order. */
    var emitted: seq<string>

    constructor ()
      ensures !isOpen && emitted == []
    {
      isOpen := false;
      emitted := [];
    }

    /**
     * `setOpen(isOpen = true)`: `requested` is `None` when the argument is
     * left out. Left out or `undefined`, the connection opens.
     */
    method SetOpen(requested: Option<Value>)
      modifies this
      ensures isOpen <==> requested.None? || requested.value.Undefined? || Truthy(requested.value)
      ensures var (flag, changes) := SetFlag(old(isOpen), OpenArgument(requested));
              isOpen == flag && emitted == old(emitted) + FlagEvents(changes, "open", "close")
    {
      var next := Truthy(OpenArgument(requested));
      if isOpen == next {
        return;
      }
      isOpen := next;
      emitted := emitted + [if next then "open" else "close"];
    }
  }

  /**
   * A fresh connection given a series of `setOpen` calls: it emits
   * `open`, `close`, `open`, … starting with `open`, and ends open iff it
   * emitted an odd number of events.
   */
  method ConnectionRun(requests: seq<Option<Value>>) returns (c: DeviceConnection)
    ensures forall k :: 0 <= k < |c.emitted| ==> c.emitted[k] == (if k % 2 == 0 then "open" else "close")
    ensures c.isOpen <==> |c.emitted| % 2 == 1
  {
    ghost var args := seq(|requests|, k requires 0 <= k < |requests| => OpenArgument(requests[k]));
    c := new DeviceConnection();
    var i := 0;
    while i < |requests|
      invariant 0 <= i <= |requests|
      invariant (c.isOpen, c.emitted) == (FlagRun(false, args[..i]).0, FlagEvents(FlagRun(false, args[..i]).1, "open", "close"))
    {
      ghost var run := FlagRun(false, args[..i]);
      FlagRunStep(false, args, i);
      FlagEventsAppend(run.1, SetFlag(run.0, args[i]).1, "open", "close");
      assert args[i] == OpenArgument(requests[i]);
      c.SetOpen(requests[i]);
      i := i + 1;
    }
    assert args[..i] == args;
    FlagRunAlternates(false, args);
  }

  // ---------------------------------------------------------------------
  // Connector
  // ---------------------------------------------------------------------

  /** `Connector`: a connector model with a ready flag and an optional protocol module. */
  class Connector {
    var isReady: bool
    var emitted: seq<string>
    /** The protocol module `__init` attached, if any. */
    var protocol: Option<nat>
    /** The protocols told `connectors:add` about this connector, in order. */
    var announcedTo: seq<nat>
    /** The errors `__init` logged. */
    var errors: seq<string>

    constructor ()
      ensures !isReady && emitted == [] && protocol == None && announcedTo == [] && errors == []
    {
      isReady := false;
      emitted := [];
      protocol := None;
      announcedTo := [];
      errors := [];
    }

    /** `setReady(isReady)`. */
    method SetReady(requested: Value)
      modifies this
      ensures var (flag, changes) := SetFlag(old(isReady), requested);
              isReady == flag && emitted == old(emitted) + FlagEvents(changes, "ready", "stop")
      ensures protocol == old(protocol) && announcedTo == old(announcedTo) && errors == old(errors)
    {
      var next := Truthy(requested);
      if isReady == next {
        return;
      }
      isReady := next;
      emitted := emitted + [if isReady then "ready" else "stop"];
    }

    /**
     * `__init()`: `protocolType` is the `type` of the `protocol` prop, and
     * `findModule` the extension lookup of a protocol module by type, which
     * may throw (the error is logged). Nothing is attached unless the type
     * is a string.
     */
    method Init(protocolType: Value, findModule: string -> Result<nat>)
      modifies this
      ensures !protocolType.Str? ==>
                protocol == old(protocol) && announcedTo == old(announcedTo) && errors == old(errors)
      ensures protocolType.Str? && findModule(protocolType.s).Ok? ==>
                var p := findModule(protocolType.s).value;
                protocol == Some(p) && announcedTo == old(announcedTo) + [p] && errors == old(errors)
      ensures protocolType.Str? && findModule(protocolType.s).Err? ==>
                protocol == old(protocol) && announcedTo == old(announcedTo) &&
                errors == old(errors) + [findModule(protocolType.s).message]
      ensures isReady == old(isReady) && emitted == old(emitted)
    {
      if !protocolType.Str? {
        return;
      }
      var found := findModule(protocolType.s);
      if found.Err? {
        errors := errors + [found.message];
        return;
      }
      protocol := Some(found.value);
      announcedTo := announcedTo + [found.value];
    }
  }

  // ---------------------------------------------------------------------
  // DeviceConnector
  // ---------------------------------------------------------------------

  /** The two flags of a device connector: `_emittedCreateEvent` and `_isOpen`. */
  datatype Phase = Phase(created: bool, open: bool)

  /** What the connector forwards to its listeners (`super.emit`). */
  datatype Emission = Emission(event: string, args: seq<Value>)

  datatype LogLine = Error(message: string) | Warn(message: string)

  const OPEN_BEFORE_CREATE: string := "Cannot emit an 'open' event before emitting a 'create' event."

  function Unrecognized(event: string): string
  {
    "Cannot emit unrecognized event '" + event + "'."
  }

  /** The flags after `emit(event)`. */
  function Next(p: Phase, event: string): (r: Phase)
    ensures event == "create" ==> r.created && r.open == p.open
    ensures event == "destroy" ==> !r.created && !r.open
    ensures event == "open" ==> r.created == p.created && r.open == (p.created || p.open)
    ensures event !in {"create", "destroy", "open"} ==> r == p
  {
    match event
    case "create" => p.(created := true)
    case "destroy" => Phase(false, false)
    case "open" => if p.created then p.(open := true) else p
    case _ => p
  }

  /** What `emit(event, ...args)` forwards: nothing for an early `open` or an unrecognised event. */
  function Forwarded(p: Phase, event: string, args: seq<Value>): (r: seq<Emission>)
    ensures event in {"create", "destroy"} ==> r == [Emission(event, [])]
    ensures event == "open" ==> r == (if p.created then [Emission("open", [])] else [])
    ensures event == "data" ==> r == [Emission("data", args)]
    ensures event !in {"create", "destroy", "open", "data"} ==> r == []
  {
    match event
    case "create" => [Emission("create", [])]
    case "destroy" => [Emission("destroy", [])]
    case "open" => if p.created then [Emission("open", [])] else []
    case "data" => [Emission("data", args)]
    case _ => []
  }

  /** What `emit(event)` logs. */
  function Logged(p: Phase, event: string): (r: seq<LogLine>)
    ensures event == "open" && !p.created ==> r == [Error(OPEN_BEFORE_CREATE)]
    ensures event !in {"create", "destroy", "open", "data"} ==> r == [Warn(Unrecognized(event))]
    ensures event in {"create", "destroy", "data"} || (event == "open" && p.created) ==> r == []
  {
    match event
    case "create" => []
    case "destroy" => []
    case "open" => if p.created then [] else [Error(OPEN_BEFORE_CREATE)]
    case "data" => []
    case _ => [Warn(Unrecognized(event))]
  }

  /** The flags after a series of events, the last event last. */
  function Run(p: Phase, events: seq<string>): Phase
  {
    if events == [] then p else Next(Run(p, events[..|events| - 1]), events[|events| - 1])
  }

  /** A connector is only ever open while created. */
  lemma {:induction false} OpenOnlyWhenCreated(p: Phase, events: seq<string>)
    requires p.open ==> p.created
    ensures Run(p, events).open ==> Run(p, events).created
  {
    if events != [] {
      OpenOnlyWhenCreated(p, events[..|events| - 1]);
    }
  }

  /** Without a `create` event, a new connector never opens, whatever else is emitted. */
  lemma {:induction false} NeverOpenWithoutCreate(events: seq<string>)
    requires "create" !in events
    ensures Run(Phase(false, false), events) == Phase(false, false)
  {
    if events != [] {
      NeverOpenWithoutCreate(events[..|events| - 1]);
    }
  }

  /** `DeviceConnector`: the base of the extension connectors a device talks through. */
  class DeviceConnector {
    var emittedCreateEvent: bool
    var isOpen: bool
    var emitted: seq<Emission>
    var log: seq<LogLine>

    constructor ()
      ensures !emittedCreateEvent && !isOpen && emitted == [] && log == []
    {
      emittedCreateEvent := false;
      isOpen := false;
      emitted := [];
      log := [];
    }

    /** `isReady(action)`: `None` when no action is given; every other action acts like none. */
    function IsReady(action: Option<string>): (r: bool)
      reads this
      ensures r == isOpen
      decreases if action == Some("WRITE") || action == Some("READ") then 0 else 1
    {
      match action
      case Some("WRITE") => isOpen
      case Some("READ") => isOpen
      case _ => IsReady(Some("WRITE")) && IsReady(Some("READ"))
    }

    /** `emit(event, ...args)`: always true. */
    method Emit(event: string, args: seq<Value>) returns (r: bool)
      modifies this
      ensures r
      ensures Phase(emittedCreateEvent, isOpen) == Next(old(Phase(emittedCreateEvent, isOpen)), event)
      ensures emitted == old(emitted) + Forwarded(old(Phase(emittedCreateEvent, isOpen)), event, args)
      ensures log == old(log) + Logged(old(Phase(emittedCreateEvent, isOpen)), event)
    {
      r := true;
      match event
      case "create" =>
        emittedCreateEvent := true;
        emitted := emitted + [Emission("create", [])];
      case "destroy" =>
        emittedCreateEvent := false;
        isOpen := false;
        emitted := emitted + [Emission("destroy", [])];
      case "open" =>
        if !emittedCreateEvent {
          log := log + [Error(OPEN_BEFORE_CREATE)];
        } else {
          isOpen := true;
          emitted := emitted + [Emission("open", [])];
        }
      case "data" =>
        emitted := emitted + [Emission("data", args)];
      case _ =>
        log := log + [Warn(Unrecognized(event))];
    }

    /** `handleData(data)`: forwards a `data` event. */
    method HandleData(data: Value)
      modifies this
      ensures emitted == old(emitted) + [Emission("data", [data])]
      ensures emittedCreateEvent == old(emittedCreateEvent) && isOpen == old(isOpen) && log == old(log)
    {
      emitted := emitted + [Emission("data", [data])];
    }
  }

  /**
   * A new connector that is sent `open`, then `create`, then `open`: the
   * first `open` is refused with an error and forwards nothing, the second
   * opens it; a `close` after that is only warned about.
   */
  method CreateOpenClose() returns (c: DeviceConnector)
    ensures c.isOpen && c.IsReady(None)
    ensures c.emitted == [Emission("create", []), Emission("open", [])]
    ensures c.log == [Error(OPEN_BEFORE_CREATE), Warn(Unrecognized("close"))]
  {
    c := new DeviceConnector();
    var _ := c.Emit("open", []);
    var _ := c.Emit("create", []);
    var _ := c.Emit("open", []);
    var _ := c.Emit("close", []);
  }
}
