/**
 * `FlowTranspiler`: compiles a flow's Blockly workspace into its script by
 * walking the tree recursively and appending one definition per block.
 */
module FlowTranspilers {
  import opened Wrappers
  import opened Js
  import Text
  import opened FlowLayouts
  import opened FlowScripts

  /** The error a slot id that is not a string makes `toUpperCase` raise. */
  const TYPE_ERROR: string := "TypeError: s.id.toUpperCase is not a function"

  class FlowTranspiler {
    /** The extension registry the block types are looked up in. */
    const registry: Registry
    var script: seq<BlockDef>

    constructor (registry: Registry)
      ensures this.registry == registry && script == []
    {
      this.registry := registry;
      script := [];
    }

    /**
     * `transpileWorkspace`: the script of the workspace, started afresh, so
     * it does not depend on what an earlier call produced. It throws when a
     * slot lookup along the way meets a slot id that is not a string.
     */
    method TranspileWorkspace(blocks: seq<Block>) returns (r: Result<seq<BlockDef>>)
      modifies this
      ensures r.Err? <==> ScriptThrows(registry, blocks)
      ensures r.Ok? ==> r.value == script && r.value == FlowScript(registry, blocks)
    {
      script := [];
      var i := 0;
      while i < |blocks|
        invariant 0 <= i <= |blocks|
        invariant script == FlowScript(registry, blocks[..i])
        invariant forall j :: 0 <= j < i ==> !Throws(registry, blocks[j])
      {
        var thrown := StoreAndTranspileBlock(blocks[i], None);
        if thrown {
          return Err(TYPE_ERROR);
        }
        assert blocks[..i + 1][..i] == blocks[..i];
        assert FlowScript(registry, blocks[..i + 1]) == FlowScript(registry, blocks[..i]) + Emit(registry, FlowDialect, blocks[i], ROOT);
        i := i + 1;
      }
      assert blocks[..i] == blocks;
      r := Ok(script);
    }

    /** `transpileInputValue`: appends the held block or shadow and returns the reference to it. */
    method TranspileInputValue(input: Input, parent: Block) returns (v: ParamValue, thrown: bool)
      modifies this
      ensures thrown == ValueThrows(registry, input)
      ensures !thrown ==> script == old(script) + EmitValue(registry, FlowDialect, input, parent.id) && v == ValueOf(input)
      decreases InputSize(input), 2
    {
      if input.block.Some? {
        thrown := StoreAndTranspileBlock(input.block.value, Some(parent));
        return Ref(Some(input.block.value.id)), thrown;
      }
      if input.shadow.Some? && !Text.StartsWith(input.shadow.value.shadowType, TYPE_SHADOW_PREFIX) {
        EmitShadowIsEmit(registry, FlowDialect, input.shadow.value, parent.id);
        ShadowThrowsLikeBlock(registry, input);
        assert Size(ShadowBlock(input.shadow.value)) == 1;
        thrown := StoreAndTranspileBlock(ShadowBlock(input.shadow.value), Some(parent));
        return Ref(Some(input.shadow.value.id)), thrown;
      }
      return Ref(None), false;
    }

    /**
     * `transpileChildren`: walks the `next` chain, recording each id before
     * transpiling its block, and returns the ids.
     */
    method TranspileChildren(input: Input, parent: Block) returns (ids: seq<string>, thrown: bool)
      modifies this
      ensures thrown == ChainThrows(registry, input.block)
      ensures !thrown ==> script == old(script) + Chain(registry, FlowDialect, input.block, parent.id) && ids == ChainIds(input.block)
      decreases InputSize(input), 2
    {
      ids, thrown := [], false;
      var current := input.block;
      while current.Some?
        invariant current.Some? ==> Size(current.value) <= InputSize(input)
        invariant ChainThrows(registry, current) == ChainThrows(registry, input.block)
        invariant ids + ChainIds(current) == ChainIds(input.block)
        invariant script + Chain(registry, FlowDialect, current, parent.id)
                  == old(script) + Chain(registry, FlowDialect, input.block, parent.id)
        decreases current
      {
        var c := current.value;
        assert ChainIds(current) == [c.id] + ChainIds(c.next);
        assert Chain(registry, FlowDialect, current, parent.id)
               == Emit(registry, FlowDialect, c, parent.id) + Chain(registry, FlowDialect, c.next, parent.id);
        assert c.next.Some? ==> Size(c.next.value) < Size(c);
        ids := ids + [c.id];
        ghost var before := script;
        thrown := StoreAndTranspileBlock(c, Some(parent));
        if thrown {
          return;
        }
        AppendAssoc(before, Emit(registry, FlowDialect, c, parent.id), Chain(registry, FlowDialect, c.next, parent.id));
        current := c.next;
      }
    }

    /**
     * The callback `storeAndTranspileBlock` runs for each input: an input
     * matching a statement slot yields a statement over its chain; otherwise
     * one matching a parameter slot yields a parameter with its value.
     */
    method TranspileInput(key: string, input: Input, owner: Block, sl: Slots)
      returns (stmt: seq<StatementDef>, param: seq<ParamDef>, thrown: bool)
      modifies this
      ensures thrown == InputThrows(registry, sl, key, input)
      ensures !thrown ==> script == old(script) + EmitInput(registry, FlowDialect, sl, key, input, owner.id)
      ensures !thrown ==> stmt == (if IsStatement(FlowDialect, sl, key, input) then [StatementDef(key, ChainIds(input.block))] else [])
      ensures !thrown ==> param == (if IsParameter(FlowDialect, sl, key, input) then [ParamDef(key, ValueOf(input))] else [])
      decreases InputSize(input), 3
    {
      stmt, param, thrown := [], [], false;
      var statement := FindOrThrow(sl.statements, key);
      if statement.Err? {
        return [], [], true;
      }
      if statement.value.Some? {
        var children;
        children, thrown := TranspileChildren(input, owner);
        stmt := [StatementDef(key, children)];
        return;
      }
      var parameter := FindOrThrow(sl.parameters, key);
      if parameter.Err? {
        return [], [], true;
      }
      if parameter.value.Some? {
        var value;
        value, thrown := TranspileInputValue(input, owner);
        param := [ParamDef(key, value)];
      }
    }

    /**
     * `storeAndTranspileBlock`: nothing for an unregistered type; otherwise
     * the inputs (statements first, then parameters), then the fields, and
     * last the block's own definition.
     */
    method StoreAndTranspileBlock(block: Block, parent: Option<Block>) returns (thrown: bool)
      modifies this
      ensures thrown == Throws(registry, block)
      ensures !thrown ==> script == old(script) + Emit(registry, FlowDialect, block, ParentId(parent))
      decreases Size(block), 1
    {
      var slots := SlotsOf(registry, FlowDialect, block.blockType);
      if slots.None? {
        return false;
      }
      var sl := slots.value;
      var parameters, statements;
      parameters, statements, thrown := TranspileInputs(block, sl);
      if thrown {
        return;
      }
      var constants;
      constants, thrown := TranspileFields(block, sl);
      if thrown {
        return;
      }
      script := script + [BlockDef(block.blockType, block.id, ParentId(parent), parameters + constants, statements)];
    }

    /** The `forOwn` over `block.inputs`, in property order. */
    method TranspileInputs(block: Block, sl: Slots) returns (parameters: seq<ParamDef>, statements: seq<StatementDef>, thrown: bool)
      modifies this
      ensures thrown == InputsThrow(registry, sl, block, |block.inputs|)
      ensures !thrown ==> script == old(script) + EmitInputs(registry, FlowDialect, sl, block, |block.inputs|)
      ensures !thrown ==> parameters == InputParams(FlowDialect, sl, block.inputs)
      ensures !thrown ==> statements == InputStatements(FlowDialect, sl, block.inputs)
      decreases Size(block), 0
    {
      parameters, statements, thrown := [], [], false;
      var i := 0;
      while i < |block.inputs|
        invariant 0 <= i <= |block.inputs|
        invariant !InputsThrow(registry, sl, block, i)
        invariant script == old(script) + EmitInputs(registry, FlowDialect, sl, block, i)
        invariant parameters == InputParams(FlowDialect, sl, block.inputs[..i])
        invariant statements == InputStatements(FlowDialect, sl, block.inputs[..i])
      {
        InputSizeBelow(block, i, |block.inputs|);
        var stmt, param, t := TranspileInput(block.inputs[i].0, block.inputs[i].1, block, sl);
        if t {
          InputsThrowLater(registry, sl, block, i, |block.inputs|);
          return [], [], true;
        }
        InputsStep(registry, FlowDialect, sl, block, i);
        AppendAssoc(old(script), EmitInputs(registry, FlowDialect, sl, block, i),
                    EmitInput(registry, FlowDialect, sl, block.inputs[i].0, block.inputs[i].1, block.id));
        statements := statements + stmt;
        parameters := parameters + param;
        i := i + 1;
      }
      assert block.inputs[..i] == block.inputs;
    }

    /** The `forOwn` over `block.fields`: each declared field becomes a constant parameter. */
    method TranspileFields(block: Block, sl: Slots) returns (parameters: seq<ParamDef>, thrown: bool)
      ensures thrown == FieldsThrow(sl, block.fields)
      ensures !thrown ==> parameters == FieldParams(sl, block.fields)
    {
      parameters, thrown := [], false;
      var j := 0;
      while j < |block.fields|
        invariant 0 <= j <= |block.fields|
        invariant !FieldsThrow(sl, block.fields[..j])
        invariant parameters == FieldParams(sl, block.fields[..j])
      {
        var key := block.fields[j].0;
        var parameter := FindOrThrow(sl.parameters, key);
        FieldsStep(sl, block.fields, j);
        if parameter.Err? {
          FieldsThrowLater(sl, block.fields, j);
          return [], true;
        }
        if parameter.value.Some? {
          parameters := parameters + [ParamDef(key, Constant(block.fields[j].1))];
        }
        j := j + 1;
      }
      assert block.fields[..j] == block.fields;
    }
  }
}
