/**
 * The object helpers of `utils/object.ts`: `ensureFind`, a `find` that
 * fails instead of returning undefined, and `flattenKeys`, which turns a
 * nested object into one keyed by the joined paths of its leaves.
 */
module ObjectUtils {
  import opened Wrappers
  import opened Js

  /** The default error of `ensureFind`. */
  const ITEM_NOT_FOUND: string := "Item not found."

  /** `ensureFind(array, predicate, error)`: the first element the predicate accepts, or the error. */
  function EnsureFind<T(==)>(items: seq<T>, accepts: T -> bool, error: string): (r: Result<T>)
    ensures r.Ok? <==> exists k :: 0 <= k < |items| && accepts(items[k])
    ensures r.Ok? ==> exists k :: 0 <= k < |items| && r.value == items[k] && accepts(items[k])
                                  && forall l :: 0 <= l < k ==> !accepts(items[l])
    ensures r.Err? ==> r.message == error
  {
    if items == [] then Err(error)
    else if accepts(items[0]) then Ok(items[0])
    else
      var rest := EnsureFind(items[1..], accepts, error);
      if rest.Ok? then
        var k :| 0 <= k < |items[1..]| && rest.value == items[1..][k] && accepts(items[1..][k])
                 && forall l :: 0 <= l < k ==> !accepts(items[1..][l]);
        assert items[k + 1] == rest.value;
        rest
      else rest
  }

  // ---------------------------------------------------------------------
  // flattenKeys
  // ---------------------------------------------------------------------

  /** A nested value: a non-object leaf, or an object with its own keys in order. */
  datatype Json = Leaf(value: Value) | Node(members: seq<Member>)
  datatype Member = Member(key: string, value: Json)

  /** `_.isObject` of a leaf value: objects, functions and dates (they have no own keys here). */
  predicate IsObject(v: Value)
  {
    v.Obj? || v.Func? || v.DateObj?
  }

  type Flat = map<string, Value>

  /** `path.join(separator)`. */
  function JoinWith(path: seq<string>, separator: string): string
  {
    if |path| == 0 then ""
    else if |path| == 1 then path[0]
    else path[0] + separator + JoinWith(path[1..], separator)
  }

  /**
   * `_.merge(cum, next)` of two flat objects: each key of `next` is copied,
   * except that an undefined value does not overwrite an existing key.
   */
  function Merge(cum: Flat, next: Flat): Flat
  {
    map k | k in cum.Keys + next.Keys ::
      if k in next && !(next[k].Undefined? && k in cum) then next[k] else cum[k]
  }

  /** `flattenKeys(obj, separator, path)`. */
  function Flatten(obj: Json, separator: string, path: seq<string>): Flat
    decreases obj, 1
  {
    match obj
    case Leaf(v) => if IsObject(v) then map[] else map[JoinWith(path, separator) := v]
    case Node(members) => FlattenMembers(obj, |members|, separator, path)
  }

  /** The `_.reduce` over the first `n` members of an object. */
  function FlattenMembers(owner: Json, n: nat, separator: string, path: seq<string>): Flat
    requires owner.Node? && n <= |owner.members|
    decreases owner, 0, n
  {
    if n == 0 then map[]
    else
      var m := owner.members[n - 1];
      Merge(FlattenMembers(owner, n - 1, separator, path), Flatten(m.value, separator, path + [m.key]))
  }

  // ---------------------------------------------------------------------
  // The reference definition: the leaves, assigned in order
  // ---------------------------------------------------------------------

  /** A non-object leaf and the keys leading to it. */
  datatype FlatLeaf = FlatLeaf(path: seq<string>, value: Value)

  /** The non-object leaves under `obj`, depth first, members in key order. */
  function Leaves(obj: Json, path: seq<string>): seq<FlatLeaf>
    decreases obj, 1
  {
    match obj
    case Leaf(v) => if IsObject(v) then [] else [FlatLeaf(path, v)]
    case Node(members) => MemberLeaves(obj, |members|, path)
  }

  function MemberLeaves(owner: Json, n: nat, path: seq<string>): seq<FlatLeaf>
    requires owner.Node? && n <= |owner.members|
    decreases owner, 0, n
  {
    if n == 0 then []
    else
      var m := owner.members[n - 1];
      MemberLeaves(owner, n - 1, path) + Leaves(m.value, path + [m.key])
  }

  /** One assignment of a leaf under its joined key; an undefined value does not overwrite. */
  function Assign1(cum: Flat, key: string, v: Value): Flat
  {
    if v.Undefined? && key in cum then cum else cum[key := v]
  }

  /** The leaves assigned one after the other under their joined keys. */
  function Assign(cum: Flat, leaves: seq<FlatLeaf>, separator: string): Flat
  {
    if leaves == [] then cum
    else
      var last := leaves[|leaves| - 1];
      Assign1(Assign(cum, leaves[..|leaves| - 1], separator), JoinWith(last.path, separator), last.value)
  }

  // ---------------------------------------------------------------------
  // Properties
  // ---------------------------------------------------------------------

  lemma {:induction false} AssignConcat(cum: Flat, a: seq<FlatLeaf>, b: seq<FlatLeaf>, separator: string)
    ensures Assign(cum, a + b, separator) == Assign(Assign(cum, a, separator), b, separator)
    decreases |b|
  {
    if b == [] {
      assert a + b == a;
    } else {
      assert (a + b)[..|a + b| - 1] == a + b[..|b| - 1];
      AssignConcat(cum, a, b[..|b| - 1], separator);
    }
  }

  /** Merging the assignment of some leaves is assigning them on top. */
  lemma {:induction false} MergeAssign(cum: Flat, leaves: seq<FlatLeaf>, separator: string)
    ensures Merge(cum, Assign(map[], leaves, separator)) == Assign(cum, leaves, separator)
    decreases |leaves|
  {
    if leaves == [] {
      assert Merge(cum, map[]) == cum;
    } else {
      var init := leaves[..|leaves| - 1];
      var last := leaves[|leaves| - 1];
      var key := JoinWith(last.path, separator);
      MergeAssign(cum, init, separator);
      var before := Assign(map[], init, separator);
      MergeAssign1(cum, before, key, last.value);
    }
  }

  /** Merging after one more assignment is that assignment after the merge. */
  lemma MergeAssign1(cum: Flat, next: Flat, key: string, v: Value)
    ensures Merge(cum, Assign1(next, key, v)) == Assign1(Merge(cum, next), key, v)
  {
    var left := Merge(cum, Assign1(next, key, v));
    var right := Assign1(Merge(cum, next), key, v);
    assert left.Keys == right.Keys;
    forall k | k in left.Keys ensures left[k] == right[k] {
    }
  }

  /** `flattenKeys` assigns the non-object leaves in order under their joined paths. */
  lemma {:induction false} FlattenIsAssign(obj: Json, separator: string, path: seq<string>)
    ensures Flatten(obj, separator, path) == Assign(map[], Leaves(obj, path), separator)
    decreases obj, 1
  {
    match obj
    case Leaf(v) =>
      if !IsObject(v) {
        assert Leaves(obj, path)[..0] == [];
      }
    case Node(members) =>
      MembersAreAssign(obj, |members|, separator, path);
  }

  lemma {:induction false} MembersAreAssign(owner: Json, n: nat, separator: string, path: seq<string>)
    requires owner.Node? && n <= |owner.members|
    ensures FlattenMembers(owner, n, separator, path) == Assign(map[], MemberLeaves(owner, n, path), separator)
    decreases owner, 0, n
  {
    if n > 0 {
      var m := owner.members[n - 1];
      MembersAreAssign(owner, n - 1, separator, path);
      FlattenIsAssign(m.value, separator, path + [m.key]);
      var a := MemberLeaves(owner, n - 1, path);
      var b := Leaves(m.value, path + [m.key]);
      MergeAssign(Assign(map[], a, separator), b, separator);
      AssignConcat(map[], a, b, separator);
    }
  }

  /** The keys of an assignment are the keys it started with and the joined paths of the leaves. */
  lemma {:induction false} AssignKeys(cum: Flat, leaves: seq<FlatLeaf>, separator: string, key: string)
    ensures key in Assign(cum, leaves, separator) <==>
      key in cum || exists i :: 0 <= i < |leaves| && JoinWith(leaves[i].path, separator) == key
    decreases |leaves|
  {
    if leaves != [] {
      var init := leaves[..|leaves| - 1];
      AssignKeys(cum, init, separator, key);
      if exists i :: 0 <= i < |init| && JoinWith(init[i].path, separator) == key {
        var i :| 0 <= i < |init| && JoinWith(init[i].path, separator) == key;
        assert leaves[i] == init[i];
      }
      if exists i :: 0 <= i < |leaves| && JoinWith(leaves[i].path, separator) == key {
        var i :| 0 <= i < |leaves| && JoinWith(leaves[i].path, separator) == key;
        if i < |init| {
          assert init[i] == leaves[i];
        }
      }
    }
  }

  /** A key only one leaf joins to holds that leaf's value. */
  lemma {:induction false} AssignUnique(cum: Flat, leaves: seq<FlatLeaf>, separator: string, i: nat)
    requires i < |leaves|
    requires JoinWith(leaves[i].path, separator) !in cum
    requires forall l :: 0 <= l < |leaves| && l != i ==> JoinWith(leaves[l].path, separator) != JoinWith(leaves[i].path, separator)
    ensures JoinWith(leaves[i].path, separator) in Assign(cum, leaves, separator)
    ensures Assign(cum, leaves, separator)[JoinWith(leaves[i].path, separator)] == leaves[i].value
    decreases |leaves|
  {
    var key := JoinWith(leaves[i].path, separator);
    var init := leaves[..|leaves| - 1];
    if i < |init| {
      assert init[i] == leaves[i];
      forall l | 0 <= l < |init| && l != i
        ensures JoinWith(init[l].path, separator) != key
      {
        assert init[l] == leaves[l];
      }
      AssignUnique(cum, init, separator, i);
    } else {
      AssignKeys(cum, init, separator, key);
      forall l | 0 <= l < |init|
        ensures JoinWith(init[l].path, separator) != key
      {
        assert init[l] == leaves[l];
      }
      assert key !in Assign(cum, init, separator);
    }
  }

  /**
   * `flattenKeys` has exactly one key per joined leaf path (an object with
   * no non-object leaves gives none), and a path no other leaf joins to
   * maps to its leaf's value.
   */
  lemma FlattenKeysLeaves(obj: Json, separator: string, path: seq<string>)
    ensures var flat, leaves := Flatten(obj, separator, path), Leaves(obj, path);
      (forall key :: key in flat <==> exists i :: 0 <= i < |leaves| && JoinWith(leaves[i].path, separator) == key)
      && forall i :: 0 <= i < |leaves| &&
           (forall l :: 0 <= l < |leaves| && l != i ==> JoinWith(leaves[l].path, separator) != JoinWith(leaves[i].path, separator))
           ==> flat[JoinWith(leaves[i].path, separator)] == leaves[i].value
  {
    var leaves := Leaves(obj, path);
    FlattenIsAssign(obj, separator, path);
    forall key
      ensures key in Assign(map[], leaves, separator) <==>
        exists i :: 0 <= i < |leaves| && JoinWith(leaves[i].path, separator) == key
    {
      AssignKeys(map[], leaves, separator, key);
    }
    forall i | 0 <= i < |leaves| &&
           (forall l :: 0 <= l < |leaves| && l != i ==> JoinWith(leaves[l].path, separator) != JoinWith(leaves[i].path, separator))
      ensures Assign(map[], leaves, separator)[JoinWith(leaves[i].path, separator)] == leaves[i].value
    {
      AssignUnique(map[], leaves, separator, i);
    }
  }

  /** Every leaf path extends the path the call started from; a non-object at the top is its own leaf. */
  lemma {:induction false} LeavesUnderPath(obj: Json, path: seq<string>)
    ensures forall i :: 0 <= i < |Leaves(obj, path)| ==> path <= Leaves(obj, path)[i].path
    ensures obj.Leaf? && !IsObject(obj.value) ==> Leaves(obj, path) == [FlatLeaf(path, obj.value)]
    decreases obj, 1
  {
    if obj.Node? {
      MemberLeavesUnderPath(obj, |obj.members|, path);
    }
  }

  lemma {:induction false} MemberLeavesUnderPath(owner: Json, n: nat, path: seq<string>)
    requires owner.Node? && n <= |owner.members|
    ensures forall i :: 0 <= i < |MemberLeaves(owner, n, path)| ==> path <= MemberLeaves(owner, n, path)[i].path
    decreases owner, 0, n
  {
    if n > 0 {
      var m := owner.members[n - 1];
      MemberLeavesUnderPath(owner, n - 1, path);
      LeavesUnderPath(m.value, path + [m.key]);
      var a := MemberLeaves(owner, n - 1, path);
      var b := Leaves(m.value, path + [m.key]);
      var ab: seq<FlatLeaf> := a + b;
      forall i | 0 <= i < |ab|
        ensures path <= ab[i].path
      {
        if i >= |a| {
          assert ab[i] == b[i - |a|];
          assert path <= path + [m.key];
        } else {
          assert ab[i] == a[i];
        }
      }
    }
  }
}
