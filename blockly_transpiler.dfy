/**
 * `BlocklyTranspiler`: the variant of the flow compiler that walks every
 * `next` chain, reads each block type's layout through `FlowBlockLayout`,
 * and treats an input as a statement only when it holds a block.
 */
module BlocklyTranspilers {
  import opened Wrappers
  import opened Js
  import Text
  import opened FlowLayouts
  import opened FlowScripts

  class BlocklyTranspiler {
    /** The extension registry the block types are looked up in. */
    const registry: Registry
    var def: seq<BlockDef>

    constructor (registry: Registry)
      ensures this.registry == registry && def == []
    {
      this.registry := registry;
      def := [];
    }

    /**
     * `transpileWorkspace`: the definition of the workspace, started afresh;
     * empty when `state.blocks` is not an array.
     */
    method TranspileWorkspace(blocks: Option<seq<Block>>) returns (r: seq<BlockDef>)
      modifies this
      ensures r == def && r == BlocklyDef(registry, blocks)
    {
      def := [];
      if blocks.Some? {
        var bs := blocks.value;
        var i := 0;
        while i < |bs|
          invariant 0 <= i <= |bs|
          invariant def == BlocklyChains(registry, bs[..i])
        {
          var _ := TranspileBlockNextTree(bs[i], None);
          assert bs[..i + 1][..i] == bs[..i];
          assert BlocklyChains(registry, bs[..i + 1])
                 == BlocklyChains(registry, bs[..i]) + Chain(registry, BlocklyDialect, Some(bs[i]), ROOT);
          i := i + 1;
        }
        assert bs[..i] == bs;
      }
      r := def;
    }

    /**
     * `transpileBlock`: nothing for an unregistered type; otherwise the
     * inputs, then the fields, then the block's own definition.
     */
    method TranspileBlock(block: Block, parent: Option<Block>)
      modifies this
      ensures def == old(def) + Emit(registry, BlocklyDialect, block, ParentId(parent))
      decreases Size(block), 1
    {
      var raw := registry(block.blockType);
      if raw.None? {
        return;
      }
      var layout := new FlowBlockLayout(raw.value);
      ghost var sl := SlotsOf(registry, BlocklyDialect, block.blockType).value;
      var blockDef := BlockDef(block.blockType, block.id, ParentId(parent), [], []);
      assert [] + InputParams(BlocklyDialect, sl, block.inputs) == InputParams(BlocklyDialect, sl, block.inputs);
      assert [] + InputStatements(BlocklyDialect, sl, block.inputs) == InputStatements(BlocklyDialect, sl, block.inputs);
      blockDef := TranspileBlockInputs(block, blockDef, layout, sl);
      blockDef := TranspileBlockFields(block, blockDef, layout, sl);
      assert blockDef == DefOf(BlocklyDialect, sl, block, ParentId(parent));
      def := def + [blockDef];
    }

    /**
     * `transpileBlockNextTree`: transpiles each block of the chain under the
     * same parent, recording its id after it, and returns the ids.
     */
    method TranspileBlockNextTree(block: Block, parent: Option<Block>) returns (ids: seq<string>)
      modifies this
      ensures def == old(def) + Chain(registry, BlocklyDialect, Some(block), ParentId(parent))
      ensures ids == ChainIds(Some(block))
      decreases Size(block), 2
    {
      ids := [];
      var current := Some(block);
      while current.Some?
        invariant current.Some? ==> Size(current.value) <= Size(block)
        invariant ids + ChainIds(current) == ChainIds(Some(block))
        invariant def + Chain(registry, BlocklyDialect, current, ParentId(parent))
                  == old(def) + Chain(registry, BlocklyDialect, Some(block), ParentId(parent))
        decreases current
      {
        var c := current.value;
        assert ChainIds(current) == [c.id] + ChainIds(c.next);
        assert Chain(registry, BlocklyDialect, current, ParentId(parent))
               == Emit(registry, BlocklyDialect, c, ParentId(parent)) + Chain(registry, BlocklyDialect, c.next, ParentId(parent));
        assert c.next.Some? ==> Size(c.next.value) < Size(c);
        ghost var before := def;
        TranspileBlock(c, parent);
        AppendAssoc(before, Emit(registry, BlocklyDialect, c, ParentId(parent)), Chain(registry, BlocklyDialect, c.next, ParentId(parent)));
        ids := ids + [c.id];
        current := c.next;
      }
    }

    /** `transpileBlockInputs`: the `forOwn` over the inputs, pushing onto the definition's arrays. */
    method TranspileBlockInputs(block: Block, blockDef: BlockDef, layout: FlowBlockLayout, ghost sl: Slots)
      returns (result: BlockDef)
      requires layout.Valid() && sl == Slots(layout.GetStatements(), layout.GetParameters())
      modifies this
      ensures def == old(def) + EmitInputs(registry, BlocklyDialect, sl, block, |block.inputs|)
      ensures result == blockDef.(parameters := blockDef.parameters + InputParams(BlocklyDialect, sl, block.inputs),
                                  statements := blockDef.statements + InputStatements(BlocklyDialect, sl, block.inputs))
      decreases Size(block), 0
    {
      var parameters, statements := [], [];
      var i := 0;
      while i < |block.inputs|
        invariant 0 <= i <= |block.inputs|
        invariant def == old(def) + EmitInputs(registry, BlocklyDialect, sl, block, i)
        invariant parameters == InputParams(BlocklyDialect, sl, block.inputs[..i])
        invariant statements == InputStatements(BlocklyDialect, sl, block.inputs[..i])
      {
        InputSizeBelow(block, i, |block.inputs|);
        var stmt, param := TranspileBlockInput(block.inputs[i].0, block.inputs[i].1, block, layout, sl);
        InputsStep(registry, BlocklyDialect, sl, block, i);
        AppendAssoc(old(def), EmitInputs(registry, BlocklyDialect, sl, block, i),
                    EmitInput(registry, BlocklyDialect, sl, block.inputs[i].0, block.inputs[i].1, block.id));
        statements := statements + stmt;
        parameters := parameters + param;
        i := i + 1;
      }
      assert block.inputs[..i] == block.inputs;
      result := blockDef.(parameters := blockDef.parameters + parameters, statements := blockDef.statements + statements);
    }

    /**
     * The callback of `transpileBlockInputs`: an input holding a block whose
     * id names a statement yields a statement over the block's chain;
     * otherwise an input whose id names a parameter yields a parameter.
     */
    method TranspileBlockInput(key: string, input: Input, owner: Block, layout: FlowBlockLayout, ghost sl: Slots)
      returns (stmt: seq<StatementDef>, param: seq<ParamDef>)
      requires layout.Valid() && sl == Slots(layout.GetStatements(), layout.GetParameters())
      modifies this
      ensures def == old(def) + EmitInput(registry, BlocklyDialect, sl, key, input, owner.id)
      ensures stmt == (if IsStatement(BlocklyDialect, sl, key, input) then [StatementDef(key, ChainIds(input.block))] else [])
      ensures param == (if IsParameter(BlocklyDialect, sl, key, input) then [ParamDef(key, ValueOf(input))] else [])
      decreases InputSize(input), 3
    {
      stmt, param := [], [];
      if input.block.Some? {
        var statement := layout.GetStatementOrFail(key);
        if statement.Some? {
          var children := TranspileBlockNextTree(input.block.value, Some(owner));
          stmt := [StatementDef(key, children)];
          return;
        }
      }
      var parameter := layout.GetParameterOrFail(key);
      if parameter.Some? {
        var value := TranspileBlockInputValue(input, owner);
        param := [ParamDef(key, value)];
      }
    }

    /** `transpileBlockInputValue`: like the flow compiler, but transpiling a held block alone. */
    method TranspileBlockInputValue(input: Input, parent: Block) returns (v: ParamValue)
      modifies this
      ensures def == old(def) + EmitValue(registry, BlocklyDialect, input, parent.id)
      ensures v == ValueOf(input)
      decreases InputSize(input), 2
    {
      if input.block.Some? {
        TranspileBlock(input.block.value, Some(parent));
        return Ref(Some(input.block.value.id));
      }
      if input.shadow.Some? && !Text.StartsWith(input.shadow.value.shadowType, TYPE_SHADOW_PREFIX) {
        EmitShadowIsEmit(registry, BlocklyDialect, input.shadow.value, parent.id);
        assert Size(ShadowBlock(input.shadow.value)) == 1;
        TranspileBlock(ShadowBlock(input.shadow.value), Some(parent));
        return Ref(Some(input.shadow.value.id));
      }
      return Ref(None);
    }

    /** `transpileBlockFields`: each field the layout declares becomes a constant; the others are dropped. */
    method TranspileBlockFields(block: Block, blockDef: BlockDef, layout: FlowBlockLayout, ghost sl: Slots)
      returns (result: BlockDef)
      requires layout.Valid() && sl == Slots(layout.GetStatements(), layout.GetParameters())
      ensures result == blockDef.(parameters := blockDef.parameters + FieldParams(sl, block.fields))
    {
      var parameters := [];
      var j := 0;
      while j < |block.fields|
        invariant 0 <= j <= |block.fields|
        invariant parameters == FieldParams(sl, block.fields[..j])
      {
        var (key, value) := block.fields[j];
        assert block.fields[..j + 1][..j] == block.fields[..j];
        var parameter := layout.GetParameterOrFail(key);
        if parameter.Some? {
          parameters := parameters + [ParamDef(key, Constant(value))];
        }
        j := j + 1;
      }
      assert block.fields[..j] == block.fields;
      result := blockDef.(parameters := blockDef.parameters + parameters);
    }
  }
}
