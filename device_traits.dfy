/**
 * Device traits: the switch, colour and open/close capabilities a device
 * declares, their command handlers, and the display they describe. A
 * trait keeps its state in the device's metadata under
 * `traits.<name>.state`, and every write replaces that state whole.
 */
module DeviceTraits {
  import opened Wrappers
  import opened Js
  import Text

  /** A trait state object: its own keys and their values. */
  type State = map<string, Value>

  function Lookup(m: map<string, Value>, key: string): Value
  {
    if key in m then m[key] else Undefined
  }

  // ---------------------------------------------------------------------
  // The device side
  // ---------------------------------------------------------------------

  /** The part of a `Device` the traits use. */
  class Device {
    /** `metadata.traits.<name>.state` of each trait that has stored one, by trait name. */
    var traitStates: map<string, State>
    /** The events `emit` sent, in order. */
    var events: seq<string>
    /** Whether the device has a `SwitchTrait` (what `getTraitOrFail(SwitchTrait)` is meant to find). */
    const hasSwitch: bool

    constructor (hasSwitch: bool)
      ensures traitStates == map[] && events == [] && this.hasSwitch == hasSwitch
    {
      traitStates := map[];
      events := [];
      this.hasSwitch := hasSwitch;
    }
  }

  /** `DeviceCommandParams`: the parameters of one command. */
  class DeviceCommandParams {
    var params: map<string, Value>

    /** `new DeviceCommandParams(params)`: `None` for null or undefined, which give no parameters. */
    constructor (params: Option<map<string, Value>>)
      ensures this.params == params.GetOr(map[])
    {
      this.params := params.GetOr(map[]);
    }

    function Get(param: string): (v: Value)
      reads this
      ensures param !in params ==> v.Undefined?
      ensures param in params ==> v == params[param]
    {
      Lookup(params, param)
    }

    /** `has(param)`: the parameter is neither undefined nor null. */
    predicate Has(param: string)
      reads this
      ensures Has(param) <==> param in params && !Nullish(params[param])
    {
      !Nullish(Get(param))
    }

    /** `getBool(param)`: `!!value`; a missing parameter reads as `false`. */
    predicate GetBool(param: string)
      reads this
      ensures GetBool(param) <==> param in params && Truthy(params[param])
    {
      Truthy(Get(param))
    }

    /** `getString(param)`: `value + ''`; a missing parameter reads as `"undefined"`. */
    function GetString(param: string, host: Host): (s: string)
      reads this
      ensures param !in params ==> s == "undefined"
      ensures param in params && params[param].Str? ==> s == params[param].s
      ensures param in params && params[param].Null? ==> s == "null"
    {
      ToText(Get(param), host)
    }

    /** `set(param, value)`: returns what `get` then reads, the value itself. */
    method Set(param: string, value: Value) returns (r: Value)
      modifies this
      ensures params == old(params)[param := value]
      ensures r == value
    {
      params := params[param := value];
      r := Get(param);
    }
  }

  /** After `set(p, v)`, `get(p)` is `v` and every other parameter reads as before. */
  lemma SetThenGet(params: map<string, Value>, p: string, v: Value, q: string)
    ensures Lookup(params[p := v], q) == if q == p then v else Lookup(params, q)
  {
  }

  /** `getBool` is true exactly for the truthy values; null and undefined are false, like absence. */
  lemma GetBoolOfAbsent(c: DeviceCommandParams, param: string)
    requires !c.Has(param)
    ensures !c.GetBool(param)
  {
  }

  // ---------------------------------------------------------------------
  // DeviceDisplay and DeviceState
  // ---------------------------------------------------------------------

  datatype DisplayText = DisplayText(text: Option<string>, message: Option<string>)
  datatype DisplayRecord = DisplayRecord(field: string)
  /** `content`: the text list and the record, each possibly absent. */
  datatype Content = Content(textList: Option<seq<DisplayText>>, record: Option<DisplayRecord>)
  datatype SerializedDisplay = SerializedDisplay(isActive: bool, content: Content)

  /** `DeviceDisplay`: what a trait shows for a device. */
  class DeviceDisplay {
    /** `_isActive`, undefined until `setActive`. */
    var active: Value
    var content: Content

    constructor ()
      ensures active == Undefined && content == Content(None, None)
      ensures !IsActive()
    {
      active := Undefined;
      content := Content(None, None);
    }

    /** `isActive()`: `!!this._isActive`; a display never activated is inactive. */
    predicate IsActive()
      reads this
      ensures Nullish(active) ==> !IsActive()
      ensures active.Bool? ==> (IsActive() <==> active.b)
    {
      Truthy(active)
    }

    method SetActive(isActive: Value) returns (r: DeviceDisplay)
      modifies this
      ensures r == this && active == isActive && content == old(content)
      ensures IsActive() == Truthy(isActive)
    {
      active := isActive;
      r := this;
    }

    method SetText(text: DisplayText) returns (r: DeviceDisplay)
      modifies this
      ensures r == this && active == old(active)
      ensures content == old(content).(textList := Some([text]))
    {
      content := content.(textList := Some([text]));
      r := this;
    }

    /** `addText(text)`: appends, starting a list when there is none; returns nothing. */
    method AddText(text: DisplayText)
      modifies this
      ensures active == old(active)
      ensures content == old(content).(textList := Some(old(content).textList.GetOr([]) + [text]))
    {
      var list := content.textList.GetOr([]);
      content := content.(textList := Some(list + [text]));
    }

    method SetRecord(record: DisplayRecord) returns (r: DeviceDisplay)
      modifies this
      ensures r == this && active == old(active)
      ensures content == old(content).(record := Some(record))
    {
      content := content.(record := Some(record));
      r := this;
    }

    function Serialize(): (s: SerializedDisplay)
      reads this
      ensures s.isActive == IsActive() && s.content == content
    {
      SerializedDisplay(IsActive(), content)
    }
  }

  /**
   * A display given texts with `setText` and then `addText` lists them in
   * that order, whatever list it held before; a record set in between
   * leaves the list alone.
   */
  method TextsInOrder(d: DeviceDisplay, first: DisplayText, second: DisplayText, record: DisplayRecord)
    modifies d
    ensures d.content == Content(Some([first, second]), Some(record))
    ensures d.active == old(d.active)
  {
    var _ := d.SetText(first);
    var _ := d.SetRecord(record);
    d.AddText(second);
    assert [first] + [second] == [first, second];
  }

  /** The display slots of a device state; their contents are opaque here. */
  datatype StateDisplay = StateDisplay(buttons: Option<seq<Value>>, tile: Option<Value>, recording: Option<Value>)
  /** `toJSON()`: `isActive` is `None` while it is still undefined. */
  datatype StateJson = StateJson(isActive: Option<bool>, display: StateDisplay)

  /** `DeviceState`: the state a device reports to the dashboard. */
  class DeviceState {
    var active: Option<bool>
    var display: StateDisplay

    constructor ()
      ensures active == None && display == StateDisplay(None, None, None)
    {
      active := None;
      display := StateDisplay(None, None, None);
    }

    method SetIsActive(isActive: Value) returns (r: DeviceState)
      modifies this
      ensures r == this && active == Some(Truthy(isActive)) && display == old(display)
    {
      active := Some(Truthy(isActive));
      r := this;
    }

    method AddButtonDisplay(buttons: seq<Value>) returns (r: DeviceState)
      modifies this
      ensures r == this && active == old(active) && display == old(display).(buttons := Some(buttons))
    {
      display := display.(buttons := Some(buttons));
      r := this;
    }

    method AddTileDisplay(tile: Value) returns (r: DeviceState)
      modifies this
      ensures r == this && active == old(active) && display == old(display).(tile := Some(tile))
    {
      display := display.(tile := Some(tile));
      r := this;
    }

    method AddRecordingDisplay(recording: Value) returns (r: DeviceState)
      modifies this
      ensures r == this && active == old(active) && display == old(display).(recording := Some(recording))
    {
      display := display.(recording := Some(recording));
      r := this;
    }

    function ToJSON(): (j: StateJson)
      reads this
      ensures j.isActive == active && j.display == display
    {
      StateJson(active, display)
    }
  }

  /**
   * A chain of setters on one state: each returns the state itself, so
   * the chain writes every slot it names, the last write to a slot wins.
   */
  method ChainedState(first: Value, tile: Value, second: Value, buttons: seq<Value>) returns (s: DeviceState)
    ensures s.ToJSON() == StateJson(Some(Truthy(second)), StateDisplay(Some(buttons), Some(tile), None))
  {
    s := new DeviceState();
    var a := s.SetIsActive(first);
    var b := a.AddTileDisplay(tile);
    var c := b.SetIsActive(second);
    var _ := c.AddButtonDisplay(buttons);
  }

  // ---------------------------------------------------------------------
  // Traits
  // ---------------------------------------------------------------------

  datatype TraitKind = SwitchTrait | ColorTrait | OpenCloseTrait

  /** The command handlers the traits register. */
  datatype Command = ToggleStatus | SetColor | SetProgram | Open | Close

  function ClassName(kind: TraitKind): string
  {
    match kind
    case SwitchTrait => "SwitchTrait"
    case ColorTrait => "ColorTrait"
    case OpenCloseTrait => "OpenCloseTrait"
  }

  /** `name.slice(0, -5).toLowerCase()`. */
  function NameOf(className: string): (r: string)
    ensures |r| == if |className| >= 5 then |className| - 5 else 0
    ensures forall i :: 0 <= i < |r| ==> r[i] == Text.LowerChar(className[i])
  {
    Text.Lower(className[..if |className| >= 5 then |className| - 5 else 0])
  }

  /** `getName()`. */
  function Name(kind: TraitKind): string
  {
    NameOf(ClassName(kind))
  }

  /** The trait names, and so the metadata paths of the trait states, are distinct. */
  lemma TraitNames()
    ensures Name(SwitchTrait) == "switch"
    ensures Name(ColorTrait) == "color"
    ensures Name(OpenCloseTrait) == "openclose"
  {
    var s, c, o := Name(SwitchTrait), Name(ColorTrait), Name(OpenCloseTrait);
    assert |s| == 6 && s[0] == 's' && s[1] == 'w' && s[2] == 'i' && s[3] == 't' && s[4] == 'c' && s[5] == 'h';
    assert |c| == 5 && c[0] == 'c' && c[1] == 'o' && c[2] == 'l' && c[3] == 'o' && c[4] == 'r';
    assert |o| == 9 && o[0] == 'o' && o[1] == 'p' && o[2] == 'e' && o[3] == 'n' && o[4] == 'c';
    assert o[5] == 'l' && o[6] == 'o' && o[7] == 's' && o[8] == 'e';
  }

  /** Whether `init` sets a display provider. */
  predicate HasDisplayProvider(kind: TraitKind)
  {
    kind != ColorTrait
  }

  /** `setCommandRegistry(...)`: each command name and its handler, `None` for a null one. */
  function Commands(kind: TraitKind): (r: map<string, Option<Command>>)
    ensures kind == OpenCloseTrait ==> "stop" in r && r["stop"] == None
    ensures forall c :: c in r && r[c].Some? ==> CommandTrait(r[c].value) == kind
  {
    match kind
    case SwitchTrait => map["toggleStatus" := Some(ToggleStatus)]
    case ColorTrait => map["setColor" := Some(SetColor), "setProgram" := Some(SetProgram)]
    case OpenCloseTrait => map["open" := Some(Open), "close" := Some(Close), "stop" := None]
  }

  /** The trait a handler belongs to. */
  function CommandTrait(c: Command): TraitKind
  {
    match c
    case ToggleStatus => SwitchTrait
    case SetColor => ColorTrait
    case SetProgram => ColorTrait
    case Open => OpenCloseTrait
    case Close => OpenCloseTrait
  }

  /** A trait instance: its kind and the options it was constructed with. */
  datatype Trait = Trait(kind: TraitKind, options: map<string, Value>)

  /** `new XTrait(options)`: `None` for missing options, which give none. */
  function NewTrait(kind: TraitKind, options: Option<map<string, Value>>): (t: Trait)
    ensures t.kind == kind && t.options == options.GetOr(map[])
  {
    Trait(kind, options.GetOr(map[]))
  }

  /**
   * `getOption(keypath)`: the option as given to the constructor; the
   * default options are not consulted, and an undefined option throws.
   */
  function GetOption(t: Trait, keypath: string): (r: Result<Value>)
    ensures r.Err? <==> Lookup(t.options, keypath).Undefined?
    ensures r.Ok? ==> keypath in t.options && r.value == t.options[keypath]
    ensures r.Err? ==> r.message == "Option '" + keypath + "' is undefined."
  {
    var value := Lookup(t.options, keypath);
    if value.Undefined? then Err("Option '" + keypath + "' is undefined.") else Ok(value)
  }

  /** `getState(device)`: the stored state, or `{}`. */
  function GetState(device: Device, kind: TraitKind): (s: State)
    reads device
    ensures Name(kind) in device.traitStates ==> s == device.traitStates[Name(kind)]
    ensures Name(kind) !in device.traitStates ==> s == map[]
  {
    if Name(kind) in device.traitStates then device.traitStates[Name(kind)] else map[]
  }

  /** `setState(device, state, emitUpdateEvent = false)`: replaces the stored state, never merges. */
  method SetState(device: Device, kind: TraitKind, state: State, emitUpdateEvent: bool)
    modifies device
    ensures device.traitStates == old(device.traitStates)[Name(kind) := state]
    ensures device.events == old(device.events) + (if emitUpdateEvent then ["state:update"] else [])
    ensures GetState(device, kind) == state
  {
    device.traitStates := device.traitStates[Name(kind) := state];
    if emitUpdateEvent {
      device.events := device.events + ["state:update"];
    }
  }

  // ---------------------------------------------------------------------
  // Command handlers
  // ---------------------------------------------------------------------

  /** The status `toggleStatus` stores: the parameter's truthiness, or the negated current status. */
  function ToggledStatus(state: State, status: Value): bool
  {
    if Nullish(status) then !Truthy(Lookup(state, "status")) else Truthy(status)
  }

  /** Toggling twice without a status parameter leaves the truthiness of the status where it was. */
  lemma ToggleTwice(state: State)
    ensures ToggledStatus(map["status" := Bool(ToggledStatus(state, Undefined))], Undefined) == Truthy(Lookup(state, "status"))
  {
  }

  /**
   * The switch trait's `toggleStatus`: without a status parameter, the
   * parameter is first set to the negated current status; the state then
   * becomes exactly `{status}`.
   */
  method ToggleStatusHandler(device: Device, params: DeviceCommandParams)
    modifies device, params
    ensures !old(params.Has("status")) ==>
              params.params == old(params.params)["status" := Bool(!Truthy(Lookup(old(GetState(device, SwitchTrait)), "status")))]
    ensures old(params.Has("status")) ==> params.params == old(params.params)
    ensures device.traitStates ==
              old(device.traitStates)[Name(SwitchTrait) := map["status" := Bool(ToggledStatus(old(GetState(device, SwitchTrait)), old(params.Get("status"))))]]
    ensures device.events == old(device.events)
  {
    if !params.Has("status") {
      var oldStatus := Lookup(GetState(device, SwitchTrait), "status");
      var _ := params.Set("status", Bool(!Truthy(oldStatus)));
    }
    SetState(device, SwitchTrait, map["status" := Bool(params.GetBool("status"))], false);
  }

  /** `setStatus(device, status)`: writes the switch state when the device has a switch trait. */
  method SetStatus(device: Device, status: bool)
    modifies device
    ensures device.traitStates ==
              if device.hasSwitch then old(device.traitStates)[Name(SwitchTrait) := map["status" := Bool(status)]]
              else old(device.traitStates)
    ensures device.events == old(device.events)
  {
    if !device.hasSwitch {
      return;
    }
    SetState(device, SwitchTrait, map["status" := Bool(status)], false);
  }

  /** The colour state after `setColor` or `setProgram`: one of the two is set and the other is null. */
  function ColorState(color: Value, program: Value): State
  {
    map["color" := color, "program" := program]
  }

  /** The switch state a colour command leaves, if the device has a switch trait. */
  function WithSwitchOn(device: Device, states: map<string, State>): map<string, State>
    reads device
  {
    if device.hasSwitch then states[Name(SwitchTrait) := map["status" := Bool(true)]] else states
  }

  /** The colour trait's `setColor`: the given colour, no program, and the switch turned on. */
  method SetColorHandler(device: Device, params: DeviceCommandParams)
    modifies device
    ensures device.traitStates ==
              WithSwitchOn(device, old(device.traitStates)[Name(ColorTrait) := ColorState(params.Get("color"), Null)])
    ensures device.events == old(device.events)
  {
    SetState(device, ColorTrait, ColorState(params.Get("color"), Null), false);
    SetStatus(device, true);
  }

  /** The colour trait's `setProgram`: the given program, no colour, and the switch turned on. */
  method SetProgramHandler(device: Device, params: DeviceCommandParams)
    modifies device
    ensures device.traitStates ==
              WithSwitchOn(device, old(device.traitStates)[Name(ColorTrait) := ColorState(Null, params.Get("program"))])
    ensures device.events == old(device.events)
  {
    SetState(device, ColorTrait, ColorState(Null, params.Get("program")), false);
    SetStatus(device, true);
  }

  /** The open/close trait's `open` and `close`: the state becomes exactly `{openStatus}`. */
  method OpenCloseHandler(device: Device, open: bool)
    modifies device
    ensures device.traitStates == old(device.traitStates)[Name(OpenCloseTrait) := map["openStatus" := Bool(open)]]
    ensures device.events == old(device.events)
  {
    SetState(device, OpenCloseTrait, map["openStatus" := Bool(open)], false);
  }

  /**
   * Runs the handler a trait registered for the command: the switch, colour
   * and open/close traits' handlers, with the state each leaves. Only the
   * switch's toggle writes a parameter: the negated old status, when the
   * caller passed none.
   */
  method Perform(command: Command, device: Device, params: DeviceCommandParams)
    modifies device, params
    ensures device.events == old(device.events)
    ensures !command.ToggleStatus? || old(params.Has("status")) ==> params.params == old(params.params)
    ensures command.ToggleStatus? && !old(params.Has("status")) ==>
              params.params == old(params.params)["status" := Bool(!Truthy(Lookup(old(GetState(device, SwitchTrait)), "status")))]
    ensures command.ToggleStatus? ==>
              device.traitStates ==
                old(device.traitStates)[Name(SwitchTrait) := map["status" := Bool(ToggledStatus(old(GetState(device, SwitchTrait)), old(params.Get("status"))))]]
    ensures command.SetColor? ==>
              device.traitStates == WithSwitchOn(device, old(device.traitStates)[Name(ColorTrait) := ColorState(params.Get("color"), Null)])
    ensures command.SetProgram? ==>
              device.traitStates == WithSwitchOn(device, old(device.traitStates)[Name(ColorTrait) := ColorState(Null, params.Get("program"))])
    ensures command.Open? || command.Close? ==>
              device.traitStates == old(device.traitStates)[Name(OpenCloseTrait) := map["openStatus" := Bool(command.Open?)]]
  {
    match command
    case ToggleStatus => ToggleStatusHandler(device, params);
    case SetColor => SetColorHandler(device, params);
    case SetProgram => SetProgramHandler(device, params);
    case Open => OpenCloseHandler(device, true);
    case Close => OpenCloseHandler(device, false);
  }

  /**
   * After a colour command the device's colour state has exactly one of
   * colour and program set, and a device with a switch reports it on.
   */
  lemma ColorCommandTurnsOn(device: Device, states: map<string, State>, color: Value)
    requires device.hasSwitch
    ensures var after := WithSwitchOn(device, states[Name(ColorTrait) := ColorState(color, Null)]);
            after[Name(SwitchTrait)] == map["status" := Bool(true)] &&
            after[Name(ColorTrait)]["program"] == Null && after[Name(ColorTrait)]["color"] == color
  {
    TraitNames();
  }

  // ---------------------------------------------------------------------
  // Display providers
  // ---------------------------------------------------------------------

  function SwitchLabel(status: bool): string
  {
    "@hiem/core.devices.traits.switchTrait.status." + (if status then "on" else "off") + ".label"
  }

  function OpenCloseLabel(openStatus: bool): string
  {
    "@hiem/core.devices.traits.openCloseTrait.openStatus." + (if openStatus then "open" else "closed") + ".label"
  }

  /** The state key a trait's display reads, and the label that matches it. */
  function DisplayKey(kind: TraitKind): string
  {
    if kind == OpenCloseTrait then "openStatus" else "status"
  }

  function DisplayLabel(kind: TraitKind, active: bool): string
  {
    if kind == OpenCloseTrait then OpenCloseLabel(active) else SwitchLabel(active)
  }

  /**
   * `getDisplay(device, display)`: null when the trait has no display
   * provider; otherwise the provider marks the display active iff the
   * state's flag is truthy, with the matching label as its only text, and
   * returns nothing.
   */
  method GetDisplay(t: Trait, device: Device, display: DeviceDisplay) returns (r: Value)
    modifies display
    ensures !HasDisplayProvider(t.kind) ==> r == Null && display.active == old(display.active) && display.content == old(display.content)
    ensures HasDisplayProvider(t.kind) ==>
              var flag := Lookup(GetState(device, t.kind), DisplayKey(t.kind));
              r == Undefined && display.active == flag &&
              display.content == old(display.content).(textList := Some([DisplayText(None, Some(DisplayLabel(t.kind, Truthy(flag))))]))
  {
    if !HasDisplayProvider(t.kind) {
      return Null;
    }
    var flag := Lookup(GetState(device, t.kind), DisplayKey(t.kind));
    var _ := display.SetActive(flag);
    var _ := display.SetText(DisplayText(None, Some(DisplayLabel(t.kind, Truthy(flag)))));
    r := Undefined;
  }

  /** Labels of the two display states differ, so the text always tells on from off. */
  lemma LabelsDiffer(kind: TraitKind)
    ensures DisplayLabel(kind, true) != DisplayLabel(kind, false)
  {
    assert |DisplayLabel(kind, true)| != |DisplayLabel(kind, false)|;
  }

  /**
   * After a switch is toggled, its display is active exactly when the new
   * status is true, and says so.
   */
  method ToggleThenDisplay(device: Device, params: DeviceCommandParams, display: DeviceDisplay)
    modifies device, params, display
    ensures display.IsActive() == Truthy(Lookup(GetState(device, SwitchTrait), "status"))
    ensures display.content.textList == Some([DisplayText(None, Some(SwitchLabel(display.IsActive())))])
  {
    ToggleStatusHandler(device, params);
    var _ := GetDisplay(Trait(SwitchTrait, map[]), device, display);
  }
}
