/**
 * `User.hasPermission`: the permission key a call checks, and the search
 * through the user's `permissions` prop for the exact key and then for the
 * wildcards `parts[0..i].*`, most specific first.
 */
module Users {
  import opened Wrappers
  import opened Js
  import Text
  import opened Models

  /** The first argument of `hasPermission`, as far as the method tells arguments apart. */
  datatype Subject =
    | KeyArg(key: string)
      /** A model, with the constructor name, the id and the `action` argument. */
    | ModelArg(typeName: string, id: ModelId, action: string)
    | OtherArg

  /** The `permissions` prop: a plain object, or anything else (missing, null, an array, ...). */
  datatype Permissions = NotPlain | Plain(entries: map<string, Value>)

  /** `permissions[key]`: undefined for a key the object lacks. */
  function Entry(m: map<string, Value>, key: string): Value
  {
    if key in m then m[key] else Undefined
  }

  /** The key checked: the string itself, or `Type.id.action` for a model; none for any other argument. */
  function PermissionKey(subject: Subject): Option<string>
  {
    match subject
    case KeyArg(key) => Some(key)
    case ModelArg(typeName, id, action) => Some(typeName + "." + IdText(id) + "." + action)
    case OtherArg => None
  }

  /** lodash `trimStart(s, '.')`: drops every leading dot. */
  function TrimDots(s: string): (r: string)
    ensures |r| <= |s| && r == s[|s| - |r|..]
    ensures r == [] || r[0] != '.'
    ensures forall k :: 0 <= k < |s| - |r| ==> s[k] == '.'
  {
    if s != [] && s[0] == '.' then TrimDots(s[1..]) else s
  }

  /** The wildcard tried at step `i`: the first `i` parts joined, then `.*`, leading dots dropped. */
  function Wildcard(parts: seq<string>, i: nat): string
    requires i <= |parts|
  {
    TrimDots(Text.Join(parts[..i], '.') + ".*")
  }

  /** The entries of the wildcards, least specific (`*`) first. */
  function WildcardEntries(m: map<string, Value>, parts: seq<string>): (es: seq<Value>)
    ensures |es| == |parts| + 1
    ensures forall l :: 0 <= l <= |parts| ==> es[l] == Entry(m, Wildcard(parts, l))
  {
    seq(|parts| + 1, l requires 0 <= l <= |parts| => Entry(m, Wildcard(parts, l)))
  }

  /**
   * The descending wildcard loop from step `i` down to 0 over the wildcard
   * entries: the first entry that is neither null nor undefined decides,
   * and grants only when it is exactly `true`.
   */
  function Search(es: seq<Value>, i: nat): bool
    requires i < |es|
  {
    if !Nullish(es[i]) then es[i] == Bool(true)
    else if i == 0 then false
    else Search(es, i - 1)
  }

  /** `hasPermission(...)`. */
  function HasPermission(permissions: Permissions, subject: Subject): (granted: bool)
    ensures granted ==> permissions.Plain? && PermissionKey(subject).Some?
  {
    match PermissionKey(subject)
    case None => false
    case Some(key) =>
      match permissions
      case NotPlain => false
      case Plain(m) =>
        var exact := Entry(m, key);
        if exact.Bool? then exact.b
        else
          var parts := Text.Split(key, '.');
          Search(WildcardEntries(m, parts), |parts|)
  }

  // ---------------------------------------------------------------------
  // Properties
  // ---------------------------------------------------------------------

  /**
   * A string names its own key; a model whose type name, id and action hold
   * no dot names the three-part key `Type.id.action`; any other argument is
   * denied.
   */
  lemma KeyForms(permissions: Permissions, subject: Subject)
    ensures subject.KeyArg? ==> PermissionKey(subject) == Some(subject.key)
    ensures subject.ModelArg? && '.' !in subject.typeName && '.' !in IdText(subject.id) && '.' !in subject.action
            ==> Text.Split(PermissionKey(subject).value, '.') == [subject.typeName, IdText(subject.id), subject.action]
    ensures subject.OtherArg? ==> !HasPermission(permissions, subject)
  {
    if subject.ModelArg? && '.' !in subject.typeName && '.' !in IdText(subject.id) && '.' !in subject.action {
      var parts := [subject.typeName, IdText(subject.id), subject.action];
      assert Text.Join(parts, '.') == PermissionKey(subject).value by {
        var (a, b, c) := (subject.typeName, IdText(subject.id), subject.action);
        assert parts[1..] == [b, c];
        assert parts[1..][1..] == [c];
        assert Text.Join([b, c], '.') == b + "." + c;
        assert Text.Join(parts, '.') == a + "." + (b + "." + c);
        assert a + "." + (b + "." + c) == a + "." + b + "." + c;
      }
      Text.SplitJoin(parts, '.');
    }
  }

  /** Missing or non-plain permissions deny everything. */
  lemma NotPlainDenies(subject: Subject)
    ensures !HasPermission(NotPlain, subject)
  {
  }

  /** A boolean entry for the exact key decides the result, whatever the wildcards say. */
  lemma ExactDecides(m: map<string, Value>, subject: Subject, b: bool)
    requires PermissionKey(subject).Some? && Entry(m, PermissionKey(subject).value) == Bool(b)
    ensures HasPermission(Plain(m), subject) == b
  {
  }

  /**
   * The search from step `i` grants exactly when some step `j <= i` has a
   * `true` entry and every more specific step between them has none.
   */
  lemma {:induction false} SearchDecidedBy(es: seq<Value>, i: nat)
    requires i < |es|
    ensures Search(es, i) <==>
      exists j :: 0 <= j <= i && es[j] == Bool(true) && forall l :: j < l <= i ==> Nullish(es[l])
    decreases i
  {
    if !Nullish(es[i]) {
      if es[i] != Bool(true) {
        forall j | 0 <= j <= i && es[j] == Bool(true)
          ensures !forall l :: j < l <= i ==> Nullish(es[l])
        {
          assert j < i;
        }
      }
    } else if i > 0 {
      SearchDecidedBy(es, i - 1);
      if Search(es, i - 1) {
        var j :| 0 <= j <= i - 1 && es[j] == Bool(true) && forall l :: j < l <= i - 1 ==> Nullish(es[l]);
        assert forall l :: j < l <= i ==> Nullish(es[l]);
      }
    }
  }

  /**
   * A more specific wildcard overrides a less specific one: once steps above
   * `j` have no entry, a non-null entry at `j` decides, whatever lies below.
   */
  lemma {:induction false} SpecificOverrides(es: seq<Value>, i: nat, j: nat)
    requires j <= i < |es|
    requires forall l :: j < l <= i ==> Nullish(es[l])
    requires !Nullish(es[j])
    ensures Search(es, i) == (es[j] == Bool(true))
    decreases i
  {
    if i > j {
      SpecificOverrides(es, i - 1, j);
    }
  }

  /** With no exact boolean entry and no wildcard entry at all, the result is false. */
  lemma NothingGrants(m: map<string, Value>, subject: Subject)
    requires PermissionKey(subject).Some?
    requires !Entry(m, PermissionKey(subject).value).Bool?
    requires forall w :: w in m ==> |w| < 1 || w[|w| - 1] != '*'
    ensures !HasPermission(Plain(m), subject)
  {
    var key := PermissionKey(subject).value;
    var parts := Text.Split(key, '.');
    forall l | 0 <= l <= |parts|
      ensures Nullish(Entry(m, Wildcard(parts, l)))
    {
      var s := Text.Join(parts[..l], '.') + ".*";
      var w := Wildcard(parts, l);
      assert s[|s| - 1] == '*';
      assert |w| >= 1 && w[|w| - 1] == '*';
    }
    SearchDecidedBy(WildcardEntries(m, parts), |parts|);
  }

  /** `trimStart` keeps a string that does not start with a dot. */
  lemma TrimNoDot(s: string)
    requires s == [] || s[0] != '.'
    ensures TrimDots(s) == s
  {
  }

  lemma TrimDot(s: string)
    ensures TrimDots(['.'] + s) == TrimDots(s)
  {
    assert (['.'] + s)[1..] == s;
  }

  /** The least specific wildcard is `*`; the most specific is the key itself followed by `.*`. */
  lemma WildcardEnds(key: string)
    requires key != [] && key[0] != '.'
    ensures Wildcard(Text.Split(key, '.'), 0) == "*"
    ensures Wildcard(Text.Split(key, '.'), |Text.Split(key, '.')|) == key + ".*"
  {
    var parts := Text.Split(key, '.');
    var star: string := ['*'];
    var dotStar: string := ['.'] + star;
    assert Text.Join(parts[..0], '.') + ".*" == dotStar;
    TrimDot(star);
    TrimNoDot(star);
    assert parts[..|parts|] == parts;
    Text.JoinSplit(key, '.');
    TrimNoDot(key + ".*");
  }
}
