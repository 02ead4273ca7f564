/**
 * `Extension` and `ExtensionModule`: an extension's table of modules by type
 * name and module name, and each module's providers, which may only be
 * registered once, and (except `activate`) only once the module is
 * activated.
 */
module Extensions {
  import opened Wrappers
  import opened Js
  import Text

  /** A registered provider: a function, or a value wrapped as `() => value`. */
  datatype Provider = Fn(ref: nat) | Constant(value: Value)

  /** `typeof provider === 'function' ? provider : () => provider`. */
  function AsProvider(provider: Value): (p: Provider)
    ensures provider.Func? <==> p.Fn?
  {
    if provider.Func? then Fn(provider.ref) else Constant(provider)
  }

  /** Calling a provider; what a function provider returns is the host's `apply`. */
  function Apply(p: Provider, args: seq<Value>, apply: (nat, seq<Value>) -> Value): Value
  {
    match p
    case Fn(ref) => apply(ref, args)
    case Constant(v) => v
  }

  class ExtensionModule {
    /** `$module.name`. */
    const name: string
    /** `$module.type.name`: the module's class name, which also names it in messages. */
    const typeName: string
    /** `$module.isActivated`: unset, so false, until the extension activates the module. */
    var isActivated: bool
    /** `$module.providers`. */
    var providers: map<string, Provider>
    /** `data`: `None` stands for the default empty object. */
    var data: Option<Value>

    /** `new ExtensionModule(name, options)`: a truthy `initialData` replaces the default data. */
    constructor (name: string, typeName: string, initialData: Option<Value>)
      ensures this.name == name && this.typeName == typeName
      ensures !isActivated && providers == map[]
      ensures data == (if initialData.Some? && Truthy(initialData.value) then initialData else None)
    {
      this.name := name;
      this.typeName := typeName;
      isActivated := false;
      providers := map[];
      data := None;
      new;
      if initialData.Some? && Truthy(initialData.value) {
        data := initialData;
      }
    }

    /**
     * `_registerProvider(id, provider)`: refused before activation for any
     * id but `activate`, refused for an id already registered, and otherwise
     * stored, wrapped when it is not a function.
     */
    method RegisterProvider(id: string, provider: Value) returns (r: Result<()>)
      modifies this
      ensures id != "activate" && !isActivated ==>
                r == Err("Cannot register provider '" + id + "' outside of the module.activate() method.")
      ensures (id == "activate" || isActivated) && id in old(providers) ==>
                r == Err("A provider '" + id + "' is already registered.")
      ensures r.Ok? <==> (id == "activate" || isActivated) && id !in old(providers)
      ensures providers == if r.Ok? then old(providers)[id := AsProvider(provider)] else old(providers)
      ensures r.Ok? ==> HasProvider(id) && !old(HasProvider(id))
      ensures isActivated == old(isActivated) && data == old(data)
    {
      if id != "activate" && !isActivated {
        return Err("Cannot register provider '" + id + "' outside of the module.activate() method.");
      }
      if id in providers {
        return Err("A provider '" + id + "' is already registered.");
      }
      providers := providers[id := AsProvider(provider)];
      return Ok(());
    }

    /**
     * `_hasProvider(id)`: whether a function is registered under the id.
     * Every stored provider is a function (a plain value is wrapped when it
     * is registered), so this is whether the id was ever registered.
     */
    function HasProvider(id: string): (r: bool)
      reads this
      ensures r <==> id in providers
    {
      id in providers
    }

    /** `_callProvider(id, args)`: the provider applied to the arguments, or an error when there is none. */
    function CallProvider(id: string, args: seq<Value>, apply: (nat, seq<Value>) -> Value): (r: Result<Value>)
      reads this
      ensures r.Err? <==> !HasProvider(id)
      ensures r.Err? ==> r.message == "No provider '" + id + "' was registered inside " + typeName + " '" + name + "'."
      ensures r.Ok? && providers[id].Constant? ==> r.value == providers[id].value
    {
      if !HasProvider(id) then
        Err("No provider '" + id + "' was registered inside " + typeName + " '" + name + "'.")
      else Ok(Apply(providers[id], args, apply))
    }
  }

  /** An extension's modules: type name, then module name. */
  type Modules = map<string, map<string, ExtensionModule>>

  /** `modules[type][name]`, null when either level is missing. */
  function Lookup(modules: Modules, typeName: string, name: string): Option<ExtensionModule>
  {
    if typeName in modules && name in modules[typeName] then Some(modules[typeName][name]) else None
  }

  /** The table after `registerModule(m)`. */
  function Registered(modules: Modules, m: ExtensionModule): Modules
  {
    var bucket: map<string, ExtensionModule> := if m.typeName in modules then modules[m.typeName] else map[];
    modules[m.typeName := bucket[m.name := m]]
  }

  class Extension {
    /** The extension's id: its manifest name. */
    const id: string
    var modules: Modules

    constructor (id: string)
      ensures this.id == id && modules == map[]
    {
      this.id := id;
      modules := map[];
    }

    /** `registerModule(m)`: stores the module under its type and name, replacing any module there. */
    method RegisterModule(m: ExtensionModule)
      modifies this
      ensures modules == Registered(old(modules), m)
    {
      var bucket: map<string, ExtensionModule> := if m.typeName in modules then modules[m.typeName] else map[];
      modules := modules[m.typeName := bucket[m.name := m]];
    }

    /** `getModuleOrFail(type, name)`: the module, or null. */
    function GetModuleOrFail(typeName: string, name: string): (r: Option<ExtensionModule>)
      reads this
      ensures r.Some? <==> typeName in modules && name in modules[typeName]
      ensures r.Some? ==> r.value == modules[typeName][name]
    {
      Lookup(modules, typeName, name)
    }

    /** `getModule(type, name)`: the module, or `ExtensionModuleNotRegisteredError`. */
    function GetModule(typeName: string, name: string): (r: Result<ExtensionModule>)
      reads this
      ensures r.Ok? <==> GetModuleOrFail(typeName, name).Some?
      ensures r.Ok? ==> r.value == modules[typeName][name]
      ensures r.Err? ==> r.message == typeName + " '" + id + "." + name + "' is not registered."
    {
      match GetModuleOrFail(typeName, name)
      case None => Err(typeName + " '" + id + "." + name + "' is not registered.")
      case Some(m) => Ok(m)
    }

    /**
     * One step of `activate()`'s loop over the modules: a module with an
     * `activate` provider is marked activated and the provider is called;
     * any other module is skipped.
     */
    method ActivateModule(m: ExtensionModule, apply: (nat, seq<Value>) -> Value) returns (r: Option<Value>)
      modifies m
      ensures m.isActivated == (old(m.isActivated) || "activate" in m.providers)
      ensures m.providers == old(m.providers) && m.data == old(m.data)
      ensures r.Some? <==> "activate" in m.providers
      ensures r.Some? ==> r.value == Apply(m.providers["activate"], [], apply)
    {
      if !m.HasProvider("activate") {
        return None;
      }
      m.isActivated := true;
      var result := m.CallProvider("activate", [], apply);
      return Some(result.value);
    }
  }

  /** `parseModuleId(id)`: the text before the first `'.'`, and the rest rejoined. */
  function ParseModuleId(moduleId: string): (string, string)
  {
    var split := Text.Split(moduleId, '.');
    (split[0], Text.Join(split[1..], '.'))
  }

  // ---------------------------------------------------------------------
  // Properties
  // ---------------------------------------------------------------------

  /**
   * After `registerModule(m)`, `m` is found under its type and name and
   * every other lookup, in particular every lookup under another type, is
   * unchanged.
   */
  lemma RegisteredLookup(modules: Modules, m: ExtensionModule, typeName: string, name: string)
    ensures Lookup(Registered(modules, m), typeName, name)
            == if typeName == m.typeName && name == m.name then Some(m) else Lookup(modules, typeName, name)
  {
  }

  /** Joining the parts of a split string gives a string with the separator iff there were several parts. */
  lemma SplitParts(s: string)
    ensures |Text.Split(s, '.')| >= 2 <==> '.' in s
  {
    var parts := Text.Split(s, '.');
    Text.JoinSplit(s, '.');
    if |parts| >= 2 {
      var joined := Text.Join(parts, '.');
      assert joined == parts[0] + ['.'] + Text.Join(parts[1..], '.');
      assert joined[|parts[0]|] == '.';
    } else {
      assert Text.Join(parts, '.') == parts[0];
    }
  }

  /**
   * `parseModuleId` splits at the first dot: the extension id before it
   * holds no dot, and the two halves rejoin to the whole id; an id without
   * a dot has an empty module name.
   */
  lemma ParseModuleIdSplitsAtFirstDot(moduleId: string)
    ensures '.' !in ParseModuleId(moduleId).0
    ensures '.' !in moduleId ==> ParseModuleId(moduleId) == (moduleId, "")
    ensures '.' in moduleId ==> ParseModuleId(moduleId).0 + "." + ParseModuleId(moduleId).1 == moduleId
  {
    var parts := Text.Split(moduleId, '.');
    SplitParts(moduleId);
    Text.JoinSplit(moduleId, '.');
    if |parts| == 1 {
      assert parts[1..] == [];
    }
  }

  /** `parseModuleId` undoes `extension.id + '.' + name` for an extension id without a dot. */
  lemma ParseModuleIdOfModuleId(extensionId: string, name: string)
    requires '.' !in extensionId
    ensures ParseModuleId(extensionId + "." + name) == (extensionId, name)
  {
    var s := extensionId + "." + name;
    assert '.' in s by {
      assert s[|extensionId|] == '.';
    }
    ParseModuleIdSplitsAtFirstDot(s);
    var (a, b) := ParseModuleId(s);
    assert a + "." + b == extensionId + "." + name;
    PrefixBeforeDot(a, b, extensionId, name);
  }

  /** Two ways of writing a string as `x + "." + y` with no dot in `x` agree. */
  lemma {:induction false} PrefixBeforeDot(a: string, b: string, c: string, d: string)
    requires '.' !in a && '.' !in c && a + "." + b == c + "." + d
    ensures a == c && b == d
    decreases |a|
  {
    var s := a + "." + b;
    assert a == [] <==> s[0] == '.' by {
      if a != [] { assert s[0] == a[0]; }
    }
    assert c == [] <==> s[0] == '.' by {
      if c != [] { assert s[0] == (c + "." + d)[0] == c[0]; }
    }
    if a == [] {
      assert b == s[1..] && d == (c + "." + d)[1..];
    } else {
      assert a[0] == s[0] == c[0];
      assert a[1..] + "." + b == c[1..] + "." + d by {
        assert s[1..] == a[1..] + "." + b;
        assert s[1..] == c[1..] + "." + d;
      }
      assert forall x :: x in a[1..] ==> x in a;
      assert forall x :: x in c[1..] ==> x in c;
      PrefixBeforeDot(a[1..], b, c[1..], d);
      assert a == [a[0]] + a[1..] && c == [c[0]] + c[1..];
    }
  }

  /**
   * The activation gate: before activation only `activate` can be
   * registered; once `activate()` has run, other providers can, and a value
   * registered as a provider is returned by calling it.
   */
  method ActivationGate(ext: Extension, v: Value, apply: (nat, seq<Value>) -> Value)
    returns (early: Result<()>, late: Result<()>, called: Result<Value>)
    requires !v.Func?
    modifies ext
    ensures early.Err? && late.Ok? && called == Ok(v)
  {
    var m := new ExtensionModule("lights", "DeviceDriver", None);
    early := m.RegisterProvider("manifest", v);
    var _ := m.RegisterProvider("activate", Func(0));
    var _ := ext.ActivateModule(m, apply);
    late := m.RegisterProvider("manifest", v);
    called := m.CallProvider("manifest", [Str("extra")], apply);
  }

  /** Registering the same provider id twice fails and keeps the first provider. */
  method RegisterTwice(m: ExtensionModule, id: string, first: Value, second: Value) returns (r: Result<()>)
    requires m.isActivated && id !in m.providers
    modifies m
    ensures r == Err("A provider '" + id + "' is already registered.")
    ensures id in m.providers && m.providers[id] == AsProvider(first)
  {
    var _ := m.RegisterProvider(id, first);
    r := m.RegisterProvider(id, second);
  }
}
