/**
 * `Language`: a language's message table. `addMessages` files a batch of
 * messages under a scope (ids that start with `@` are global and ignore
 * it) and merges them over the messages already known.
 */
module Languages {
  import opened Js
  import Text

  /** A batch of messages in the enumeration order of its own keys. */
  type Messages = seq<(string, Value)>

  predicate UniqueIds(messages: Messages)
  {
    forall i, j :: 0 <= i < j < |messages| ==> messages[i].0 != messages[j].0
  }

  /** The id a message is filed under: `scope.id`, unless the id starts with `@` or the scope is empty. */
  function ScopedId(id: string, scope: string): (r: string)
    ensures r == id <==> Text.StartsWith(id, "@") || scope == ""
    ensures r != id ==> r == scope + "." + id
  {
    if !Text.StartsWith(id, "@") && scope != "" then scope + "." + id else id
  }

  /** `scopedMessages` after the loop has visited the whole batch: a later message wins a shared id. */
  function Scoped(messages: Messages, scope: string): map<string, Value>
  {
    if messages == [] then map[]
    else
      var last := messages[|messages| - 1];
      Scoped(messages[..|messages| - 1], scope)[ScopedId(last.0, scope) := last.1]
  }

  class Language {
    /** The `messages` prop. */
    var messages: map<string, Value>

    /** `new Language(key)`: no messages yet. */
    constructor ()
      ensures messages == map[]
    {
      messages := map[];
    }

    /** `addMessages(messages, scope)`: the scoped batch merged over the known messages. */
    method AddMessages(batch: Messages, scope: string)
      modifies this
      ensures messages == old(messages) + Scoped(batch, scope)
    {
      var scoped: map<string, Value> := map[];
      var i := 0;
      while i < |batch|
        invariant 0 <= i <= |batch|
        invariant scoped == Scoped(batch[..i], scope)
      {
        var (id, message) := batch[i];
        assert batch[..i + 1][..i] == batch[..i];
        scoped := scoped[ScopedId(id, scope) := message];
        i := i + 1;
      }
      assert batch[..i] == batch;
      messages := messages + scoped;
    }
  }

  // ---------------------------------------------------------------------
  // Properties
  // ---------------------------------------------------------------------

  /** A scope that does not itself start with `@` keeps distinct ids distinct. */
  lemma ScopedIdInjective(a: string, b: string, scope: string)
    requires scope == "" || scope[0] != '@'
    requires ScopedId(a, scope) == ScopedId(b, scope)
    ensures a == b
  {
    var ra, rb := ScopedId(a, scope), ScopedId(b, scope);
    assert ra != a ==> ra[0] == scope[0];
    assert rb != b ==> rb[0] == scope[0];
    if ra != a && rb != b {
      assert a == ra[|scope| + 1..] == b;
    } else if ra != a || rb != b {
      // one id is scoped and the other is not: the unscoped one would have to start with both `@` and the scope
      assert false;
    }
  }

  /** The ids of the scoped batch are exactly the scoped ids of its messages. */
  lemma {:induction false} ScopedKeys(messages: Messages, scope: string, key: string)
    ensures key in Scoped(messages, scope) <==> exists k :: 0 <= k < |messages| && key == ScopedId(messages[k].0, scope)
  {
    if messages != [] {
      var init := messages[..|messages| - 1];
      ScopedKeys(init, scope, key);
      if exists k :: 0 <= k < |init| && key == ScopedId(init[k].0, scope) {
        var k :| 0 <= k < |init| && key == ScopedId(init[k].0, scope);
        assert messages[k] == init[k];
      }
      if exists k :: 0 <= k < |messages| && key == ScopedId(messages[k].0, scope) {
        var k :| 0 <= k < |messages| && key == ScopedId(messages[k].0, scope);
        if k < |init| {
          assert messages[k] == init[k];
        }
      }
    }
  }

  /**
   * With distinct ids and a scope that does not start with `@`, every
   * message of the batch is filed, unchanged, under its scoped id.
   */
  lemma {:induction false} ScopedKeepsEach(messages: Messages, scope: string, k: nat)
    requires UniqueIds(messages) && (scope == "" || scope[0] != '@')
    requires k < |messages|
    ensures ScopedId(messages[k].0, scope) in Scoped(messages, scope)
    ensures Scoped(messages, scope)[ScopedId(messages[k].0, scope)] == messages[k].1
  {
    var n := |messages|;
    var init := messages[..n - 1];
    if k < n - 1 {
      assert init[k] == messages[k];
      assert UniqueIds(init) by {
        forall i, j | 0 <= i < j < |init| ensures init[i].0 != init[j].0 {
          assert init[i] == messages[i] && init[j] == messages[j];
        }
      }
      ScopedKeepsEach(init, scope, k);
      if ScopedId(messages[n - 1].0, scope) == ScopedId(messages[k].0, scope) {
        ScopedIdInjective(messages[n - 1].0, messages[k].0, scope);
      }
    }
  }

  /**
   * After `addMessages`, each message of the batch is found under its
   * scoped id, and every known message whose id the batch does not reuse
   * is kept as it was.
   */
  lemma AddedMessages(known: map<string, Value>, batch: Messages, scope: string)
    requires UniqueIds(batch) && (scope == "" || scope[0] != '@')
    ensures forall k :: 0 <= k < |batch| ==>
              ScopedId(batch[k].0, scope) in known + Scoped(batch, scope) &&
              (known + Scoped(batch, scope))[ScopedId(batch[k].0, scope)] == batch[k].1
    ensures forall id :: id in known && (forall k :: 0 <= k < |batch| ==> id != ScopedId(batch[k].0, scope)) ==>
              id in known + Scoped(batch, scope) && (known + Scoped(batch, scope))[id] == known[id]
  {
    forall k | 0 <= k < |batch|
      ensures ScopedId(batch[k].0, scope) in known + Scoped(batch, scope)
      ensures (known + Scoped(batch, scope))[ScopedId(batch[k].0, scope)] == batch[k].1
    {
      ScopedKeepsEach(batch, scope, k);
    }
    forall id | id in known && (forall k :: 0 <= k < |batch| ==> id != ScopedId(batch[k].0, scope))
      ensures (known + Scoped(batch, scope))[id] == known[id]
    {
      ScopedKeys(batch, scope, id);
    }
  }

  /** Adding the same batch twice leaves the messages as adding it once. */
  lemma AddMessagesIdempotent(known: map<string, Value>, batch: Messages, scope: string)
    ensures known + Scoped(batch, scope) + Scoped(batch, scope) == known + Scoped(batch, scope)
  {
  }

  /**
   * A global id (`@...`) and a scoped id never clash under a scope that
   * does not start with `@`: the scoped form of an unprefixed id starts
   * with the scope.
   */
  lemma GlobalIdsStayGlobal(id: string, scope: string)
    requires Text.StartsWith(id, "@") || scope == ""
    ensures ScopedId(id, scope) == id
  {
  }
}
