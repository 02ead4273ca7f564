/**
 * The Blockly workspace a flow is edited as, the flat script of block
 * definitions it compiles to, and the definition of that compilation shared
 * by the two transpilers (`FlowTranspiler` and `BlocklyTranspiler`).
 */
module FlowScripts {
  import opened Wrappers
  import opened Js
  import Text
  import opened FlowLayouts

  /** The parent id of a top-level block. */
  const ROOT: string := "__ROOT__"

  /** Shadows whose type starts with this are type placeholders, not blocks. */
  const TYPE_SHADOW_PREFIX: string := "__type_"

  // ---------------------------------------------------------------------
  // The workspace tree
  // ---------------------------------------------------------------------

  /**
   * A workspace block. `inputs` and `fields` are the entries of the
   * `inputs`/`fields` objects in property order; a missing object is
   * walked like an empty one.
   */
  datatype Block = Block(
    blockType: string,
    id: string,
    inputs: seq<(string, Input)>,
    fields: seq<(string, Value)>,
    next: Option<Block>)

  datatype Input = Input(shadow: Option<Shadow>, block: Option<Block>)

  datatype Shadow = Shadow(shadowType: string, id: string, fields: seq<(string, Value)>)

  /** `{...input.shadow, inputs: {}}`: a shadow transpiled as a block without inputs. */
  function ShadowBlock(s: Shadow): Block
  {
    Block(s.shadowType, s.id, [], s.fields, None)
  }

  /** `parent?.id ?? '__ROOT__'` */
  function ParentId(parent: Option<Block>): string
  {
    if parent.Some? then parent.value.id else ROOT
  }

  // ---------------------------------------------------------------------
  // The script
  // ---------------------------------------------------------------------

  /** `{block: id}`, `{block: null}` or `{constant: value}`. */
  datatype ParamValue = Ref(block: Option<string>) | Constant(constant: Value)

  datatype ParamDef = ParamDef(id: string, value: ParamValue)

  datatype StatementDef = StatementDef(id: string, children: seq<string>)

  datatype BlockDef = BlockDef(
    blockType: string,
    id: string,
    parent: string,
    parameters: seq<ParamDef>,
    statements: seq<StatementDef>)

  // ---------------------------------------------------------------------
  // Block types
  // ---------------------------------------------------------------------

  /** The extension registry: the layout a registered block type declares, or None. */
  type Registry = string -> Option<RawLayout>

  datatype Slots = Slots(statements: seq<RawSlot>, parameters: seq<RawSlot>)

  /**
   * `FlowTranspiler` reads the raw layout arrays (a non-array as `[]`) and
   * matches a statement input whatever it holds; `BlocklyTranspiler` reads
   * the layout after `extend` and matches a statement only for an input
   * that holds a block.
   */
  datatype Dialect = FlowDialect | BlocklyDialect

  function SlotsOf(reg: Registry, d: Dialect, blockType: string): (r: Option<Slots>)
    ensures r.Some? <==> reg(blockType).Some?
  {
    match reg(blockType)
    case None => None
    case Some(l) =>
      if d.FlowDialect? then Some(Slots(l.statements.GetOr([]), l.parameters.GetOr([])))
      else
        var e := Extended(l);
        Some(Slots(e.statements.value, e.parameters.value))
  }

  predicate IsStatement(d: Dialect, sl: Slots, key: string, input: Input)
  {
    Declared(sl.statements, key) && (d.BlocklyDialect? ==> input.block.Some?)
  }

  predicate IsParameter(d: Dialect, sl: Slots, key: string, input: Input)
  {
    !IsStatement(d, sl, key, input) && Declared(sl.parameters, key)
  }

  // ---------------------------------------------------------------------
  // One block's definition
  // ---------------------------------------------------------------------

  /** The ids along a `next` chain, in order. */
  function ChainIds(cur: Option<Block>): (ids: seq<string>)
    ensures cur.None? <==> ids == []
    ensures cur.Some? ==> ids[0] == cur.value.id
  {
    match cur
    case None => []
    case Some(c) => [c.id] + ChainIds(c.next)
  }

  /**
   * The value a parameter input gets: the id of the block it holds; else the
   * id of its shadow, unless that is a type placeholder; else null.
   */
  function ValueOf(input: Input): (v: ParamValue)
    ensures v.Ref?
    ensures input.block.Some? ==> v.block == Some(input.block.value.id)
    ensures input.block.None? && input.shadow.Some? && !Text.StartsWith(input.shadow.value.shadowType, TYPE_SHADOW_PREFIX)
            ==> v.block == Some(input.shadow.value.id)
    ensures v.block.None? <==>
            input.block.None? && (input.shadow.None? || Text.StartsWith(input.shadow.value.shadowType, TYPE_SHADOW_PREFIX))
  {
    if input.block.Some? then Ref(Some(input.block.value.id))
    else if input.shadow.Some? && !Text.StartsWith(input.shadow.value.shadowType, TYPE_SHADOW_PREFIX) then Ref(Some(input.shadow.value.id))
    else Ref(None)
  }

  function InputStatements(d: Dialect, sl: Slots, ins: seq<(string, Input)>): seq<StatementDef>
  {
    if ins == [] then []
    else
      var (key, input) := ins[|ins| - 1];
      InputStatements(d, sl, ins[..|ins| - 1])
        + (if IsStatement(d, sl, key, input) then [StatementDef(key, ChainIds(input.block))] else [])
  }

  function InputParams(d: Dialect, sl: Slots, ins: seq<(string, Input)>): seq<ParamDef>
  {
    if ins == [] then []
    else
      var (key, input) := ins[|ins| - 1];
      InputParams(d, sl, ins[..|ins| - 1])
        + (if IsParameter(d, sl, key, input) then [ParamDef(key, ValueOf(input))] else [])
  }

  function FieldParams(sl: Slots, fs: seq<(string, Value)>): seq<ParamDef>
  {
    if fs == [] then []
    else
      var (key, value) := fs[|fs| - 1];
      FieldParams(sl, fs[..|fs| - 1])
        + (if Declared(sl.parameters, key) then [ParamDef(key, Constant(value))] else [])
  }

  /** The definition pushed for a registered block. */
  function DefOf(d: Dialect, sl: Slots, b: Block, parent: string): BlockDef
  {
    BlockDef(b.blockType, b.id, parent,
             InputParams(d, sl, b.inputs) + FieldParams(sl, b.fields),
             InputStatements(d, sl, b.inputs))
  }

  // ---------------------------------------------------------------------
  // The emitted definitions
  // ---------------------------------------------------------------------

  /**
   * Everything transpiling `b` under `parent` appends: nothing for an
   * unregistered type; otherwise the definitions of the blocks nested in
   * its inputs, in input order, then its own.
   */
  function Emit(reg: Registry, d: Dialect, b: Block, parent: string): seq<BlockDef>
    decreases b, 2
  {
    match SlotsOf(reg, d, b.blockType)
    case None => []
    case Some(sl) => EmitInputs(reg, d, sl, b, |b.inputs|) + [DefOf(d, sl, b, parent)]
  }

  /** What the first `n` inputs of `owner` append. */
  function EmitInputs(reg: Registry, d: Dialect, sl: Slots, owner: Block, n: nat): seq<BlockDef>
    requires n <= |owner.inputs|
    decreases owner, 1, n
  {
    if n == 0 then []
    else EmitInputs(reg, d, sl, owner, n - 1) + EmitInput(reg, d, sl, owner.inputs[n - 1].0, owner.inputs[n - 1].1, owner.id)
  }

  /** A statement input appends its chain; a parameter input its value; any other input nothing. */
  function EmitInput(reg: Registry, d: Dialect, sl: Slots, key: string, input: Input, owner: string): seq<BlockDef>
    decreases input, 1
  {
    if IsStatement(d, sl, key, input) then Chain(reg, d, input.block, owner)
    else if Declared(sl.parameters, key) then EmitValue(reg, d, input, owner)
    else []
  }

  function EmitValue(reg: Registry, d: Dialect, input: Input, owner: string): seq<BlockDef>
    decreases input, 0
  {
    if input.block.Some? then Emit(reg, d, input.block.value, owner)
    else if input.shadow.Some? && !Text.StartsWith(input.shadow.value.shadowType, TYPE_SHADOW_PREFIX) then
      EmitShadow(reg, d, input.shadow.value, owner)
    else []
  }

  /** `Emit` of a shadow's block, which has no inputs to descend into. */
  function EmitShadow(reg: Registry, d: Dialect, s: Shadow, owner: string): seq<BlockDef>
  {
    match SlotsOf(reg, d, s.shadowType)
    case None => []
    case Some(sl) => [DefOf(d, sl, ShadowBlock(s), owner)]
  }

  /** Every block along a `next` chain, each under `parent`. */
  function Chain(reg: Registry, d: Dialect, cur: Option<Block>, parent: string): seq<BlockDef>
    decreases cur
  {
    match cur
    case None => []
    case Some(c) => Emit(reg, d, c, parent) + Chain(reg, d, c.next, parent)
  }

  /** `FlowTranspiler.transpileWorkspace`: each top-level block, its `next` chain not followed. */
  function FlowScript(reg: Registry, blocks: seq<Block>): seq<BlockDef>
  {
    if blocks == [] then []
    else FlowScript(reg, blocks[..|blocks| - 1]) + Emit(reg, FlowDialect, blocks[|blocks| - 1], ROOT)
  }

  // ---------------------------------------------------------------------
  // Where the Flow dialect throws
  // ---------------------------------------------------------------------

  /*
   * `FlowTranspiler` looks each key up in the unfiltered layout arrays with
   * `FindOrThrow`, so a slot without a string id met before the match
   * throws, and the throw ends the whole `transpileWorkspace`. These
   * predicates follow the same walk as `Emit` and hold exactly when some
   * lookup along it throws; `Emit` is the outcome when none does.
   */

  /** Whether matching an input's key throws: the statement lookup first, then, for a non-statement, the parameter lookup. */
  predicate KeyThrows(sl: Slots, key: string)
  {
    FindOrThrow(sl.statements, key).Err?
    || (!Declared(sl.statements, key) && FindOrThrow(sl.parameters, key).Err?)
  }

  /** Whether transpiling `b` throws, in its inputs (and the blocks they hold) or its fields. */
  predicate Throws(reg: Registry, b: Block)
    decreases b, 2
  {
    match SlotsOf(reg, FlowDialect, b.blockType)
    case None => false
    case Some(sl) => InputsThrow(reg, sl, b, |b.inputs|) || FieldsThrow(sl, b.fields)
  }

  /** Whether one of the first `n` inputs of `owner` throws. */
  predicate InputsThrow(reg: Registry, sl: Slots, owner: Block, n: nat)
    requires n <= |owner.inputs|
    decreases owner, 1, n
  {
    n > 0 && (InputsThrow(reg, sl, owner, n - 1) || InputThrows(reg, sl, owner.inputs[n - 1].0, owner.inputs[n - 1].1))
  }

  /** Once an input throws, so does every longer run of inputs. */
  lemma {:induction false} InputsThrowLater(reg: Registry, sl: Slots, owner: Block, i: nat, n: nat)
    requires i < n <= |owner.inputs| && InputThrows(reg, sl, owner.inputs[i].0, owner.inputs[i].1)
    ensures InputsThrow(reg, sl, owner, n)
    decreases n
  {
    if i < n - 1 {
      InputsThrowLater(reg, sl, owner, i, n - 1);
    }
  }

  predicate InputThrows(reg: Registry, sl: Slots, key: string, input: Input)
    decreases input, 1
  {
    if KeyThrows(sl, key) then true
    else if IsStatement(FlowDialect, sl, key, input) then ChainThrows(reg, input.block)
    else if Declared(sl.parameters, key) then ValueThrows(reg, input)
    else false
  }

  predicate ValueThrows(reg: Registry, input: Input)
    decreases input, 0
  {
    if input.block.Some? then Throws(reg, input.block.value)
    else if input.shadow.Some? && !Text.StartsWith(input.shadow.value.shadowType, TYPE_SHADOW_PREFIX) then
      match SlotsOf(reg, FlowDialect, input.shadow.value.shadowType)
      case None => false
      case Some(sl) => FieldsThrow(sl, input.shadow.value.fields)
    else false
  }

  predicate ChainThrows(reg: Registry, cur: Option<Block>)
    decreases cur
  {
    match cur
    case None => false
    case Some(c) => Throws(reg, c) || ChainThrows(reg, c.next)
  }

  /** Whether the `forOwn` over the fields throws: the parameter lookup of some field's key does. */
  predicate FieldsThrow(sl: Slots, fs: seq<(string, Value)>)
  {
    fs != [] && (FieldsThrow(sl, fs[..|fs| - 1]) || FindOrThrow(sl.parameters, fs[|fs| - 1].0).Err?)
  }

  /** One more field processed: its constant, if declared, and whether its lookup throws. */
  lemma FieldsStep(sl: Slots, fs: seq<(string, Value)>, j: nat)
    requires j < |fs|
    ensures FieldParams(sl, fs[..j + 1])
            == FieldParams(sl, fs[..j]) + (if Declared(sl.parameters, fs[j].0) then [ParamDef(fs[j].0, Constant(fs[j].1))] else [])
    ensures FieldsThrow(sl, fs[..j + 1]) == (FieldsThrow(sl, fs[..j]) || FindOrThrow(sl.parameters, fs[j].0).Err?)
  {
    assert fs[..j + 1][..j] == fs[..j];
  }

  /** Once a field's lookup throws, so does the whole `forOwn`. */
  lemma {:induction false} FieldsThrowLater(sl: Slots, fs: seq<(string, Value)>, j: nat)
    requires j < |fs| && FieldsThrow(sl, fs[..j + 1])
    ensures FieldsThrow(sl, fs)
    decreases |fs|
  {
    if j < |fs| - 1 {
      var init := fs[..|fs| - 1];
      assert init[..j + 1] == fs[..j + 1];
      FieldsThrowLater(sl, init, j);
    } else {
      assert fs[..j + 1] == fs;
    }
  }

  lemma {:induction false} FieldsNeverThrow(sl: Slots, fs: seq<(string, Value)>)
    requires forall k :: 0 <= k < |sl.parameters| ==> sl.parameters[k].id.Str?
    ensures !FieldsThrow(sl, fs)
    decreases |fs|
  {
    if fs != [] {
      FieldsNeverThrow(sl, fs[..|fs| - 1]);
      FlowLayouts.StringIdsNeverThrow(sl.parameters, fs[|fs| - 1].0);
    }
  }

  /** Whether `FlowTranspiler.transpileWorkspace` throws for some top-level block. */
  predicate ScriptThrows(reg: Registry, blocks: seq<Block>)
  {
    exists i :: 0 <= i < |blocks| && Throws(reg, blocks[i])
  }

  /** A shadow throws exactly like the block `{...shadow, inputs: {}}`. */
  lemma ShadowThrowsLikeBlock(reg: Registry, input: Input)
    requires input.block.None? && input.shadow.Some?
    requires !Text.StartsWith(input.shadow.value.shadowType, TYPE_SHADOW_PREFIX)
    ensures ValueThrows(reg, input) == Throws(reg, ShadowBlock(input.shadow.value))
  {
  }

  /**
   * A layout whose slots all have string ids never throws, whatever the
   * workspace: then the script is exactly `FlowScript`.
   */
  lemma {:induction false} NeverThrows(reg: Registry, b: Block)
    requires forall t, l :: reg(t) == Some(l) ==> StringIds(l)
    ensures !Throws(reg, b)
    decreases b, 2
  {
    match SlotsOf(reg, FlowDialect, b.blockType)
    case None =>
    case Some(sl) =>
      assert StringIds(reg(b.blockType).value);
      InputsNeverThrow(reg, sl, b, |b.inputs|);
      FieldsNeverThrow(sl, b.fields);
  }

  /** Every slot of the layout's (unfiltered) arrays has a string id. */
  predicate StringIds(l: RawLayout)
  {
    (forall k :: 0 <= k < |l.statements.GetOr([])| ==> l.statements.GetOr([])[k].id.Str?)
    && (forall k :: 0 <= k < |l.parameters.GetOr([])| ==> l.parameters.GetOr([])[k].id.Str?)
  }

  lemma {:induction false} InputsNeverThrow(reg: Registry, sl: Slots, owner: Block, n: nat)
    requires forall t, l :: reg(t) == Some(l) ==> StringIds(l)
    requires SlotsOf(reg, FlowDialect, owner.blockType) == Some(sl) && n <= |owner.inputs|
    ensures !InputsThrow(reg, sl, owner, n)
    decreases owner, 1, n
  {
    if n > 0 {
      InputsNeverThrow(reg, sl, owner, n - 1);
      InputNeverThrows(reg, sl, owner, n - 1);
    }
  }

  lemma {:induction false} InputNeverThrows(reg: Registry, sl: Slots, owner: Block, k: nat)
    requires forall t, l :: reg(t) == Some(l) ==> StringIds(l)
    requires SlotsOf(reg, FlowDialect, owner.blockType) == Some(sl) && k < |owner.inputs|
    ensures !InputThrows(reg, sl, owner.inputs[k].0, owner.inputs[k].1)
    decreases owner, 0
  {
    var key := owner.inputs[k].0;
    var input := owner.inputs[k].1;
    assert StringIds(reg(owner.blockType).value);
    FlowLayouts.StringIdsNeverThrow(sl.statements, key);
    FlowLayouts.StringIdsNeverThrow(sl.parameters, key);
    if Declared(sl.statements, key) {
      ChainNeverThrows(reg, input.block);
    } else if Declared(sl.parameters, key) {
      ValueNeverThrows(reg, input);
    }
  }

  lemma {:induction false} ValueNeverThrows(reg: Registry, input: Input)
    requires forall t, l :: reg(t) == Some(l) ==> StringIds(l)
    ensures !ValueThrows(reg, input)
    decreases input, 0
  {
    if input.block.Some? {
      NeverThrows(reg, input.block.value);
    } else if input.shadow.Some? && SlotsOf(reg, FlowDialect, input.shadow.value.shadowType).Some? {
      assert StringIds(reg(input.shadow.value.shadowType).value);
      FieldsNeverThrow(SlotsOf(reg, FlowDialect, input.shadow.value.shadowType).value, input.shadow.value.fields);
    }
  }

  lemma {:induction false} ChainNeverThrows(reg: Registry, cur: Option<Block>)
    requires forall t, l :: reg(t) == Some(l) ==> StringIds(l)
    ensures !ChainThrows(reg, cur)
    decreases cur
  {
    if cur.Some? {
      NeverThrows(reg, cur.value);
      ChainNeverThrows(reg, cur.value.next);
    }
  }

  /** `BlocklyTranspiler.transpileWorkspace`: each top-level chain; nothing when `blocks` is not an array. */
  function BlocklyDef(reg: Registry, blocks: Option<seq<Block>>): seq<BlockDef>
  {
    match blocks
    case None => []
    case Some(bs) => BlocklyChains(reg, bs)
  }

  function BlocklyChains(reg: Registry, bs: seq<Block>): seq<BlockDef>
  {
    if bs == [] then []
    else BlocklyChains(reg, bs[..|bs| - 1]) + Chain(reg, BlocklyDialect, Some(bs[|bs| - 1]), ROOT)
  }

  /** A measure of the tree below a block, for the recursion between the methods. */
  function Size(b: Block): nat
    decreases b, 1
  {
    1 + InputsSize(b, |b.inputs|) + (match b.next case None => 0 case Some(n) => Size(n))
  }

  function InputsSize(owner: Block, n: nat): nat
    requires n <= |owner.inputs|
    decreases owner, 0, n
  {
    if n == 0 then 0 else InputsSize(owner, n - 1) + InputSize(owner.inputs[n - 1].1)
  }

  function InputSize(input: Input): nat
    decreases input
  {
    match input.block
    case Some(c) => Size(c)
    case None => 1
  }

  lemma {:induction false} InputSizeBelow(owner: Block, k: nat, n: nat)
    requires k < n <= |owner.inputs|
    ensures InputSize(owner.inputs[k].1) <= InputsSize(owner, n)
    decreases n
  {
    if k < n - 1 {
      InputSizeBelow(owner, k, n - 1);
    }
  }

  // ---------------------------------------------------------------------
  // Properties
  // ---------------------------------------------------------------------

  lemma AppendAssoc(a: seq<BlockDef>, b: seq<BlockDef>, c: seq<BlockDef>)
    ensures (a + b) + c == a + (b + c)
  {
  }

  /** One more input processed: each of the three results grows by that input's share. */
  lemma InputsStep(reg: Registry, d: Dialect, sl: Slots, owner: Block, i: nat)
    requires i < |owner.inputs|
    ensures EmitInputs(reg, d, sl, owner, i + 1)
            == EmitInputs(reg, d, sl, owner, i) + EmitInput(reg, d, sl, owner.inputs[i].0, owner.inputs[i].1, owner.id)
    ensures InputStatements(d, sl, owner.inputs[..i + 1]) == InputStatements(d, sl, owner.inputs[..i])
            + (if IsStatement(d, sl, owner.inputs[i].0, owner.inputs[i].1) then [StatementDef(owner.inputs[i].0, ChainIds(owner.inputs[i].1.block))] else [])
    ensures InputParams(d, sl, owner.inputs[..i + 1]) == InputParams(d, sl, owner.inputs[..i])
            + (if IsParameter(d, sl, owner.inputs[i].0, owner.inputs[i].1) then [ParamDef(owner.inputs[i].0, ValueOf(owner.inputs[i].1))] else [])
  {
    assert owner.inputs[..i + 1][..i] == owner.inputs[..i];
  }

  /**
   * An unregistered block appends nothing, and none of its nested blocks
   * are visited; a registered one appends its own definition last, under
   * the given parent.
   */
  lemma EmitShape(reg: Registry, d: Dialect, b: Block, parent: string)
    ensures reg(b.blockType).None? <==> Emit(reg, d, b, parent) == []
    ensures var r := Emit(reg, d, b, parent);
            r != [] ==> r[|r| - 1] == DefOf(d, SlotsOf(reg, d, b.blockType).value, b, parent)
                        && r[|r| - 1].id == b.id && r[|r| - 1].parent == parent
  {
  }

  /** A shadow is transpiled exactly like the block `{...shadow, inputs: {}}`. */
  lemma EmitShadowIsEmit(reg: Registry, d: Dialect, s: Shadow, owner: string)
    ensures EmitShadow(reg, d, s, owner) == Emit(reg, d, ShadowBlock(s), owner)
  {
  }

  /**
   * Every definition's parent is either `root` or the id of a definition
   * that comes later: the script is post-order and its parent links close.
   */
  predicate ParentsLater(out: seq<BlockDef>, root: string)
  {
    forall i :: 0 <= i < |out| ==> out[i].parent == root || ParentAfter(out, i)
  }

  predicate ParentAfter(out: seq<BlockDef>, i: nat)
    requires i < |out|
  {
    exists j :: i < j < |out| && out[j].id == out[i].parent
  }

  lemma ParentsLaterAppend(a: seq<BlockDef>, b: seq<BlockDef>, root: string)
    requires ParentsLater(a, root) && ParentsLater(b, root)
    ensures ParentsLater(a + b, root)
  {
    var ab := a + b;
    forall i | 0 <= i < |ab| && ab[i].parent != root ensures ParentAfter(ab, i) {
      if i < |a| {
        var j :| i < j < |a| && a[j].id == a[i].parent;
        assert ab[j] == a[j];
      } else {
        assert ab[i] == b[i - |a|];
        var j :| i - |a| < j < |b| && b[j].id == b[i - |a|].parent;
        assert ab[j + |a|] == b[j];
      }
    }
  }

  /** Closing a block's nested definitions with its own definition. */
  lemma ParentsLaterClose(nested: seq<BlockDef>, def: BlockDef, root: string)
    requires ParentsLater(nested, def.id) && def.parent == root
    ensures ParentsLater(nested + [def], root)
  {
    var out := nested + [def];
    forall i | 0 <= i < |out| && out[i].parent != root ensures ParentAfter(out, i) {
      assert out[i] == nested[i];
      if nested[i].parent == def.id {
        assert out[|nested|] == def;
      } else {
        var j :| i < j < |nested| && nested[j].id == nested[i].parent;
        assert out[j] == nested[j];
      }
    }
  }

  /**
   * Whatever transpiling a block appends has its parent links pointing
   * forward, ending at `parent`: every nested block's definition precedes
   * the definition of the block it is nested in, which is its parent.
   */
  lemma {:induction false} EmitParents(reg: Registry, d: Dialect, b: Block, parent: string)
    ensures ParentsLater(Emit(reg, d, b, parent), parent)
    decreases b, 2
  {
    match SlotsOf(reg, d, b.blockType)
    case None =>
    case Some(sl) =>
      EmitInputsParents(reg, d, sl, b, |b.inputs|);
      ParentsLaterClose(EmitInputs(reg, d, sl, b, |b.inputs|), DefOf(d, sl, b, parent), parent);
  }

  lemma {:induction false} EmitInputsParents(reg: Registry, d: Dialect, sl: Slots, owner: Block, n: nat)
    requires n <= |owner.inputs|
    ensures ParentsLater(EmitInputs(reg, d, sl, owner, n), owner.id)
    decreases owner, 1, n
  {
    if n > 0 {
      EmitInputsParents(reg, d, sl, owner, n - 1);
      EmitInputParents(reg, d, sl, owner.inputs[n - 1].0, owner.inputs[n - 1].1, owner.id);
      ParentsLaterAppend(EmitInputs(reg, d, sl, owner, n - 1),
                         EmitInput(reg, d, sl, owner.inputs[n - 1].0, owner.inputs[n - 1].1, owner.id), owner.id);
    }
  }

  lemma {:induction false} EmitInputParents(reg: Registry, d: Dialect, sl: Slots, key: string, input: Input, owner: string)
    ensures ParentsLater(EmitInput(reg, d, sl, key, input, owner), owner)
    decreases input, 1
  {
    if IsStatement(d, sl, key, input) {
      ChainParents(reg, d, input.block, owner);
    } else if Declared(sl.parameters, key) {
      if input.block.Some? {
        EmitParents(reg, d, input.block.value, owner);
      } else if input.shadow.Some? && !Text.StartsWith(input.shadow.value.shadowType, TYPE_SHADOW_PREFIX) {
        EmitShadowIsEmit(reg, d, input.shadow.value, owner);
        assert ParentsLater(EmitShadow(reg, d, input.shadow.value, owner), owner);
      }
    }
  }

  lemma {:induction false} ChainParents(reg: Registry, d: Dialect, cur: Option<Block>, parent: string)
    ensures ParentsLater(Chain(reg, d, cur, parent), parent)
    decreases cur
  {
    if cur.Some? {
      EmitParents(reg, d, cur.value, parent);
      ChainParents(reg, d, cur.value.next, parent);
      ParentsLaterAppend(Emit(reg, d, cur.value, parent), Chain(reg, d, cur.value.next, parent), parent);
    }
  }

  /**
   * Every definition of a compiled workspace is a top-level block (parent
   * `'__ROOT__'`) or names as its parent a block defined after it.
   */
  lemma {:induction false} FlowScriptParents(reg: Registry, blocks: seq<Block>)
    ensures ParentsLater(FlowScript(reg, blocks), ROOT)
    decreases |blocks|
  {
    if blocks != [] {
      FlowScriptParents(reg, blocks[..|blocks| - 1]);
      EmitParents(reg, FlowDialect, blocks[|blocks| - 1], ROOT);
      ParentsLaterAppend(FlowScript(reg, blocks[..|blocks| - 1]), Emit(reg, FlowDialect, blocks[|blocks| - 1], ROOT), ROOT);
    }
  }

  lemma {:induction false} BlocklyDefParents(reg: Registry, blocks: Option<seq<Block>>)
    ensures ParentsLater(BlocklyDef(reg, blocks), ROOT)
  {
    if blocks.Some? {
      BlocklyChainsParents(reg, blocks.value);
    }
  }

  lemma {:induction false} BlocklyChainsParents(reg: Registry, bs: seq<Block>)
    ensures ParentsLater(BlocklyChains(reg, bs), ROOT)
    decreases |bs|
  {
    if bs != [] {
      BlocklyChainsParents(reg, bs[..|bs| - 1]);
      ChainParents(reg, BlocklyDialect, Some(bs[|bs| - 1]), ROOT);
      ParentsLaterAppend(BlocklyChains(reg, bs[..|bs| - 1]), Chain(reg, BlocklyDialect, Some(bs[|bs| - 1]), ROOT), ROOT);
    }
  }

  /** Every block of a top-level `next` chain is defined as a root block (Blockly only). */
  lemma {:induction false} BlocklyChainRoots(reg: Registry, cur: Option<Block>)
    ensures forall c :: c in ChainBlocks(cur) && reg(c.blockType).Some? ==>
              DefOf(BlocklyDialect, SlotsOf(reg, BlocklyDialect, c.blockType).value, c, ROOT) in Chain(reg, BlocklyDialect, cur, ROOT)
    decreases cur
  {
    if cur.Some? {
      BlocklyChainRoots(reg, cur.value.next);
      var e := Emit(reg, BlocklyDialect, cur.value, ROOT);
      if e != [] {
        assert e[|e| - 1] in e;
      }
    }
  }

  /** The blocks along a `next` chain. */
  function ChainBlocks(cur: Option<Block>): (bs: seq<Block>)
    ensures |bs| == |ChainIds(cur)|
    ensures forall i :: 0 <= i < |bs| ==> bs[i].id == ChainIds(cur)[i]
    decreases cur
  {
    match cur
    case None => []
    case Some(c) => [c] + ChainBlocks(c.next)
  }

  /**
   * How a block's inputs split: a statement definition for each input
   * matching a statement slot (ignoring case), with the ids of its whole
   * chain as children, whether or not those blocks' types are registered;
   * a parameter definition for each other input matching a parameter slot.
   * A statement match wins over a parameter match; other inputs are dropped.
   */
  lemma InputsSplit(d: Dialect, sl: Slots, ins: seq<(string, Input)>)
    ensures forall s :: s in InputStatements(d, sl, ins) <==>
              exists k :: 0 <= k < |ins| && IsStatement(d, sl, ins[k].0, ins[k].1)
                          && s == StatementDef(ins[k].0, ChainIds(ins[k].1.block))
    ensures forall p :: p in InputParams(d, sl, ins) <==>
              exists k :: 0 <= k < |ins| && IsParameter(d, sl, ins[k].0, ins[k].1)
                          && p == ParamDef(ins[k].0, ValueOf(ins[k].1))
    ensures |InputStatements(d, sl, ins)| + |InputParams(d, sl, ins)| <= |ins|
  {
    InputStatementsFrom(d, sl, ins);
    InputParamsFrom(d, sl, ins);
    InputsCount(d, sl, ins);
  }

  lemma {:induction false} InputStatementsFrom(d: Dialect, sl: Slots, ins: seq<(string, Input)>)
    ensures forall s :: s in InputStatements(d, sl, ins) <==>
              exists k :: 0 <= k < |ins| && IsStatement(d, sl, ins[k].0, ins[k].1)
                          && s == StatementDef(ins[k].0, ChainIds(ins[k].1.block))
    decreases |ins|
  {
    if ins != [] {
      var init := ins[..|ins| - 1];
      InputStatementsFrom(d, sl, init);
      forall k | 0 <= k < |init| ensures init[k] == ins[k] { }
    }
  }

  lemma {:induction false} InputParamsFrom(d: Dialect, sl: Slots, ins: seq<(string, Input)>)
    ensures forall p :: p in InputParams(d, sl, ins) <==>
              exists k :: 0 <= k < |ins| && IsParameter(d, sl, ins[k].0, ins[k].1)
                          && p == ParamDef(ins[k].0, ValueOf(ins[k].1))
    decreases |ins|
  {
    if ins != [] {
      var init := ins[..|ins| - 1];
      InputParamsFrom(d, sl, init);
      forall k | 0 <= k < |init| ensures init[k] == ins[k] { }
    }
  }

  lemma {:induction false} InputsCount(d: Dialect, sl: Slots, ins: seq<(string, Input)>)
    ensures |InputStatements(d, sl, ins)| + |InputParams(d, sl, ins)| <= |ins|
    decreases |ins|
  {
    if ins != [] {
      InputsCount(d, sl, ins[..|ins| - 1]);
    }
  }


  /** The fields matching a parameter slot become constants, in order; the rest are dropped. */
  lemma {:induction false} FieldsAsConstants(sl: Slots, fs: seq<(string, Value)>)
    ensures forall p :: p in FieldParams(sl, fs) <==>
              exists k :: 0 <= k < |fs| && Declared(sl.parameters, fs[k].0)
                          && p == ParamDef(fs[k].0, Constant(fs[k].1))
    ensures |FieldParams(sl, fs)| <= |fs|
    decreases |fs|
  {
    if fs != [] {
      var init := fs[..|fs| - 1];
      FieldsAsConstants(sl, init);
      forall k | 0 <= k < |init| ensures init[k] == fs[k] { }
    }
  }
}
