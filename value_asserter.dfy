/**
 * `ValueAsserter.assert(v)`: chainable checks on one value, each of which
 * either returns a fresh asserter for the same value or throws a
 * `ValueAssertionError` whose message has its `%1`, `%2` placeholders
 * substituted by the check's arguments.
 */
module ValueAsserters {
  import opened Wrappers
  import opened Js
  import Text

  /** The checks of an asserter, with their arguments. */
  datatype Check =
    | IsDefined
    | IsNumber
    | IsString
    | IsMin(min: Number)
    | IsMax(max: Number)
    | IsBetween(low: Number, high: Number)

  /** How deep a check's callback nests other checks. */
  function Depth(c: Check): nat
  {
    match c
    case IsDefined => 0
    case IsNumber => 1
    case IsString => 1
    case IsMin(_) => 2
    case IsMax(_) => 2
    case IsBetween(_, _) => 3
  }

  /**
   * Whether the check's callback returns a truthy value. A nested check
   * that fails throws, the `catch` swallows it, and the check fails.
   * A comparison with NaN is false.
   */
  predicate Passes(v: Value, c: Check)
    decreases Depth(c)
  {
    match c
    case IsDefined => !Nullish(v)
    case IsNumber => Passes(v, IsDefined) && v.Num? && v.x.Finite?
    case IsString => Passes(v, IsDefined) && v.Str?
    case IsMin(m) => Passes(v, IsNumber) && m.Finite? && v.x.n >= m.n
    case IsMax(m) => Passes(v, IsNumber) && m.Finite? && v.x.n <= m.n
    case IsBetween(low, high) => Passes(v, IsMin(low)) && Passes(v, IsMax(high))
  }

  /** The failure message each check is created with. */
  function Template(c: Check): string
  {
    match c
    case IsDefined => "Value is not defined."
    case IsNumber => "Value is not a number."
    case IsString => "Value is not a string."
    case IsMin(_) => "Value must be greater than %1."
    case IsMax(_) => "Value must be less than %1."
    case IsBetween(_, _) => "Value must be between %1 and %2."
  }

  /** The arguments the check was called with. */
  function Args(c: Check): seq<Number>
  {
    match c
    case IsMin(m) => [m]
    case IsMax(m) => [m]
    case IsBetween(low, high) => [low, high]
    case _ => []
  }

  // ---------------------------------------------------------------------
  // Message substitution
  // ---------------------------------------------------------------------

  predicate StartsWith(s: string, prefix: string)
  {
    |prefix| <= |s| && s[..|prefix|] == prefix
  }

  /** `s.replace(pattern, replacement)` for a string pattern: the first occurrence only. */
  function ReplaceFirst(s: string, pattern: string, replacement: string): string
    requires pattern != []
  {
    if StartsWith(s, pattern) then replacement + s[|pattern|..]
    else if s == [] then []
    else [s[0]] + ReplaceFirst(s[1..], pattern, replacement)
  }

  /**
   * Which placeholder the `i`-th step of the message loop replaces, and
   * with which argument: as written the literal `'%i'` with `args[i]`; as
   * evidently intended `%<i>` with the `i`-th argument, `args[i - 1]`.
   */
  datatype Scheme = AsWritten | Intended

  function Placeholder(i: nat, scheme: Scheme): (p: string)
    ensures p != [] && p[0] == '%'
  {
    match scheme
    case AsWritten => "%i"
    case Intended => "%" + Text.IntToString(i)
  }

  /** `args[k]` as the replacement text: a missing argument is `undefined`. */
  function ArgText(args: seq<Number>, k: int): string
  {
    if 0 <= k < |args| then NumberToString(args[k]) else "undefined"
  }

  function Replacement(args: seq<Number>, i: nat, scheme: Scheme): string
  {
    match scheme
    case AsWritten => ArgText(args, i)
    case Intended => ArgText(args, i - 1)
  }

  /** The message after the loop's steps `i`, `i - 1`, ..., `1`. */
  function Substituted(message: string, args: seq<Number>, i: nat, scheme: Scheme): string
    decreases i
  {
    if i == 0 then message
    else Substituted(ReplaceFirst(message, Placeholder(i, scheme), Replacement(args, i, scheme)), args, i - 1, scheme)
  }

  /** The `for` loop of `createMethod`, from the last argument down to the first. */
  method FailureMessage(template: string, args: seq<Number>, scheme: Scheme) returns (message: string)
    ensures message == Substituted(template, args, |args|, scheme)
  {
    message := template;
    var i := |args|;
    while i > 0
      invariant 0 <= i <= |args|
      invariant Substituted(message, args, i, scheme) == Substituted(template, args, |args|, scheme)
    {
      message := ReplaceFirst(message, Placeholder(i, scheme), Replacement(args, i, scheme));
      i := i - 1;
    }
  }

  /** The message a failing check throws as written. */
  function MessageAsWritten(c: Check): string
  {
    Substituted(Template(c), Args(c), |Args(c)|, AsWritten)
  }

  /** The message a failing check throws once its placeholders are substituted. */
  function Message(c: Check): string
  {
    Substituted(Template(c), Args(c), |Args(c)|, Intended)
  }

  /** One check: the asserter for the same value when it passes, the assertion error otherwise. */
  function Run(v: Value, c: Check): (r: Result<Value>)
    ensures r.Ok? ==> r.value == v
  {
    if Passes(v, c) then Ok(v) else Err(Message(c))
  }

  /** The position of the first check the value fails, or the number of checks when it passes them all. */
  function FirstFailure(v: Value, checks: seq<Check>): (k: nat)
    ensures k <= |checks|
    ensures forall l :: 0 <= l < k ==> Passes(v, checks[l])
    ensures k < |checks| ==> !Passes(v, checks[k])
  {
    if checks == [] || !Passes(v, checks[0]) then 0
    else 1 + FirstFailure(v, checks[1..])
  }

  /** A chain of checks `assert(v).c0(...).c1(...)...`: the first failure throws. */
  function Chain(v: Value, checks: seq<Check>): (r: Result<Value>)
    ensures r.Ok? <==> forall k :: 0 <= k < |checks| ==> Passes(v, checks[k])
    ensures r.Ok? ==> r.value == v
    ensures r.Err? ==> FirstFailure(v, checks) < |checks| && r.message == Message(checks[FirstFailure(v, checks)])
  {
    if checks == [] then Ok(v)
    else
      match Run(v, checks[0])
      case Err(message) => Err(message)
      case Ok(next) =>
        assert FirstFailure(v, checks) == 1 + FirstFailure(v, checks[1..]);
        assert forall k :: 1 <= k < |checks| ==> checks[k] == checks[1..][k - 1];
        Chain(next, checks[1..])
  }


  // ---------------------------------------------------------------------
  // Properties
  // ---------------------------------------------------------------------

  /** What the type checks accept, once the nested checks are unfolded. */
  lemma PassesMeaning(v: Value)
    ensures Passes(v, IsDefined) <==> v != Undefined && v != Null
    ensures Passes(v, IsNumber) <==> v.Num? && v.x != NaN
    ensures Passes(v, IsString) <==> v.Str?
  {
  }

  /** What the range checks accept: numbers, never NaN, compared with bounds that are not NaN. */
  lemma RangeMeaning(v: Value, low: Number, high: Number)
    ensures Passes(v, IsMin(low)) <==> v.Num? && v.x.Finite? && low.Finite? && v.x.n >= low.n
    ensures Passes(v, IsMax(high)) <==> v.Num? && v.x.Finite? && high.Finite? && v.x.n <= high.n
    ensures Passes(v, IsBetween(low, high)) <==>
              v.Num? && v.x.Finite? && low.Finite? && high.Finite? && low.n <= v.x.n <= high.n
  {
  }

  /** Replacing skips a prefix in which the pattern cannot start. */
  lemma {:induction false} ReplaceSkips(a: string, b: string, pattern: string, replacement: string)
    requires pattern != [] && pattern[0] !in a
    ensures ReplaceFirst(a + b, pattern, replacement) == a + ReplaceFirst(b, pattern, replacement)
  {
    if a != [] {
      assert (a + b)[0] == a[0];
      assert (a + b)[1..] == a[1..] + b;
      ReplaceSkips(a[1..], b, pattern, replacement);
    } else {
      assert a + b == b;
    }
  }

  /** The first occurrence is replaced when the pattern cannot start before it. */
  lemma ReplacesFirst(a: string, b: string, pattern: string, replacement: string)
    requires pattern != [] && pattern[0] !in a
    ensures ReplaceFirst(a + (pattern + b), pattern, replacement) == a + (replacement + b)
  {
    ReplaceSkips(a, pattern + b, pattern, replacement);
    assert (pattern + b)[..|pattern|] == pattern && (pattern + b)[|pattern|..] == b;
  }

  /** A placeholder `%d` is passed over by a search for a different one. */
  lemma ReplacePassesPlaceholder(d: char, rest: string, pattern: string, replacement: string)
    requires |pattern| == 2 && pattern[0] == '%' && pattern[1] != d && d != '%'
    ensures ReplaceFirst(['%', d] + rest, pattern, replacement) == ['%', d] + ReplaceFirst(rest, pattern, replacement)
  {
    var s := ['%', d] + rest;
    assert s[..2] == ['%', d];
    assert s[1..] == [d] + rest;
    ReplaceSkips([d], rest, pattern, replacement);
  }

  /** A message with one placeholder `%d` is left alone by a search for a different placeholder. */
  lemma KeepsOne(a: string, d: char, b: string, pattern: string, replacement: string)
    requires '%' !in a && '%' !in b && d != '%'
    requires |pattern| == 2 && pattern[0] == '%' && pattern[1] != d
    ensures ReplaceFirst(a + (['%', d] + b), pattern, replacement) == a + (['%', d] + b)
  {
    ReplaceSkips(a, ['%', d] + b, pattern, replacement);
    ReplacePassesPlaceholder(d, b, pattern, replacement);
    ReplaceSkips(b, [], pattern, replacement);
    assert b + [] == b;
  }

  /** As written, a one-argument check's message keeps its `%1`. */
  lemma OneArgumentAsWritten(c: Check)
    requires c.IsMin? || c.IsMax?
    ensures MessageAsWritten(c) == Template(c)
  {
    var a := if c.IsMin? then "Value must be greater than " else "Value must be less than ";
    assert Template(c) == a + (['%', '1'] + ".");
    KeepsOne(a, '1', ".", "%i", ArgText(Args(c), 1));
  }

  /** As written, `isBetween`'s message keeps both `%1` and `%2`. */
  lemma BetweenAsWritten(low: Number, high: Number)
    ensures MessageAsWritten(IsBetween(low, high)) == Template(IsBetween(low, high))
  {
    var t := Template(IsBetween(low, high));
    var args := [low, high];
    BetweenKept(low, high, ArgText(args, 2));
    assert Substituted(t, args, 2, AsWritten) == Substituted(t, args, 1, AsWritten);
    BetweenKept(low, high, ArgText(args, 1));
    assert Substituted(t, args, 1, AsWritten) == Substituted(t, args, 0, AsWritten);
  }

  /** A search for `%i` finds nothing to replace in `isBetween`'s message. */
  lemma BetweenKept(low: Number, high: Number, r: string)
    ensures ReplaceFirst(Template(IsBetween(low, high)), "%i", r) == Template(IsBetween(low, high))
  {
    var a, b, e := "Value must be between ", " and ", ".";
    var mid := b + (['%', '2'] + e);
    var tail := ['%', '1'] + mid;
    assert Template(IsBetween(low, high)) == a + tail;
    assert '%' !in a;
    ReplaceSkips(a, tail, "%i", r);
    assert '%' !in b && '%' !in e;
    KeepsOne(b, '2', e, "%i", r);
    assert ReplaceFirst(mid, "%i", r) == mid;
    ReplacePassesPlaceholder('1', mid, "%i", r);
    assert ReplaceFirst(tail, "%i", r) == tail;
  }


  /** As written, no failure message has a placeholder substituted: `'%1'` and `'%2'` survive verbatim. */
  lemma MessagesAsWritten(c: Check)
    ensures MessageAsWritten(c) == Template(c)
  {
    match c
    case IsMin(_) => OneArgumentAsWritten(c);
    case IsMax(_) => OneArgumentAsWritten(c);
    case IsBetween(low, high) => BetweenAsWritten(low, high);
    case _ =>
  }

  lemma IntendedPlaceholders()
    ensures Placeholder(1, Intended) == ['%', '1'] && Placeholder(2, Intended) == ['%', '2']
  {
    assert Text.IntToString(1) == [Text.DigitChar(1)];
    assert Text.IntToString(2) == [Text.DigitChar(2)];
  }

  /** With its placeholder substituted, a one-argument check's message names the argument. */
  lemma OneArgumentIntended(c: Check)
    requires c.IsMin? || c.IsMax?
    ensures var m := if c.IsMin? then c.min else c.max;
      Message(c) == (if c.IsMin? then "Value must be greater than " else "Value must be less than ") + NumberToString(m) + "."
  {
    var m := if c.IsMin? then c.min else c.max;
    var a := if c.IsMin? then "Value must be greater than " else "Value must be less than ";
    assert Template(c) == a + (['%', '1'] + ".");
    assert Args(c) == [m];
    OnePlaceholder(Template(c), a, ".", m);
  }

  /** Substituting one argument into a message with one placeholder `%1`. */
  lemma OnePlaceholder(t: string, a: string, e: string, x: Number)
    requires '%' !in a && t == a + (['%', '1'] + e)
    ensures Substituted(t, [x], 1, Intended) == a + NumberToString(x) + e
  {
    IntendedPlaceholders();
    var xt := NumberToString(x);
    assert Replacement([x], 1, Intended) == xt;
    ReplacesFirst(a, e, ['%', '1'], xt);
    assert Substituted(t, [x], 1, Intended) == ReplaceFirst(t, ['%', '1'], xt);
    assert a + (xt + e) == a + xt + e;
  }


  /** Substituting two arguments into a message with `%1` and then `%2` and no other `%`. */
  lemma TwoPlaceholders(t: string, a: string, b: string, e: string, low: Number, high: Number)
    requires '%' !in a && '%' !in b
    requires t == a + (['%', '1'] + (b + (['%', '2'] + e)))
    ensures Substituted(t, [low, high], 2, Intended) == a + NumberToString(low) + b + NumberToString(high) + e
  {
    var lt, ht := NumberToString(low), NumberToString(high);
    var t2 := a + (['%', '1'] + (b + (ht + e)));
    SubstitutedTwo(t, [low, high]);
    SecondReplaced(a, b, e, ht);
    ReplacesFirst(a, b + (ht + e), ['%', '1'], lt);
    assert a + (lt + (b + (ht + e))) == a + lt + b + ht + e;
  }

  /** The loop for two arguments: `%2` is replaced by the second, then `%1` by the first. */
  lemma SubstitutedTwo(t: string, args: seq<Number>)
    requires |args| == 2
    ensures Substituted(t, args, 2, Intended) ==
            ReplaceFirst(ReplaceFirst(t, ['%', '2'], NumberToString(args[1])), ['%', '1'], NumberToString(args[0]))
  {
    IntendedPlaceholders();
  }


  /** The step for `%2` passes over `%1` and replaces `%2`. */
  lemma SecondReplaced(a: string, b: string, e: string, ht: string)
    requires '%' !in a && '%' !in b
    ensures ReplaceFirst(a + (['%', '1'] + (b + (['%', '2'] + e))), ['%', '2'], ht) == a + (['%', '1'] + (b + (ht + e)))
  {
    ReplaceSkips(a, ['%', '1'] + (b + (['%', '2'] + e)), ['%', '2'], ht);
    ReplacePassesPlaceholder('1', b + (['%', '2'] + e), ['%', '2'], ht);
    ReplacesFirst(b, e, ['%', '2'], ht);
  }


  /** With its placeholders substituted, `isBetween`'s message names both bounds. */
  lemma BetweenIntended(low: Number, high: Number)
    ensures Message(IsBetween(low, high))
            == "Value must be between " + NumberToString(low) + " and " + NumberToString(high) + "."
  {
    var a, b, e := "Value must be between ", " and ", ".";
    assert Template(IsBetween(low, high)) == a + (['%', '1'] + (b + (['%', '2'] + e)));
    TwoPlaceholders(Template(IsBetween(low, high)), a, b, e, low, high);
  }

  /** A failing check as written throws a message that differs from the intended one. */
  lemma PlaceholderSurvives(m: Number)
    ensures MessageAsWritten(IsMin(m)) != Message(IsMin(m))
  {
    OneArgumentAsWritten(IsMin(m));
    OneArgumentIntended(IsMin(m));
    var a := "Value must be greater than ";
    var mt := NumberToString(m);
    assert Template(IsMin(m))[|a|] == '%';
    assert Message(IsMin(m))[|a|] == mt[0];
    NumberStringChars(m, 0);
  }
}
