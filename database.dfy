/**
 * `Database.escapeSQLWord`: removing every run of characters outside
 * `[a-zA-Z0-9_$-]` from a word before it is spliced into a query.
 */
module Databases {

  /** The characters the escaping keeps. */
  predicate WordChar(c: char)
  {
    'a' <= c <= 'z' || 'A' <= c <= 'Z' || '0' <= c <= '9' || c == '_' || c == '$' || c == '-'
  }

  predicate IsWord(s: string)
  {
    forall k :: 0 <= k < |s| ==> WordChar(s[k])
  }

  /** `word.replace(/[^a-zA-Z0-9_$-]+/g, '')`. */
  function EscapeSQLWord(word: string): (r: string)
    ensures IsWord(r)
    ensures |r| <= |word|
    ensures |r| == |word| <==> IsWord(word)
  {
    if word == [] then []
    else if WordChar(word[0]) then [word[0]] + EscapeSQLWord(word[1..])
    else EscapeSQLWord(word[1..])
  }

  // ---------------------------------------------------------------------
  // Properties
  // ---------------------------------------------------------------------

  /** A word made only of allowed characters passes unchanged. */
  lemma {:induction false} EscapeKeepsWords(word: string)
    requires IsWord(word)
    ensures EscapeSQLWord(word) == word
  {
    if word != [] {
      EscapeKeepsWords(word[1..]);
    }
  }

  /** Escaping is idempotent. */
  lemma EscapeIdempotent(word: string)
    ensures EscapeSQLWord(EscapeSQLWord(word)) == EscapeSQLWord(word)
  {
    EscapeKeepsWords(EscapeSQLWord(word));
  }

  /** Escaping works character by character, so it distributes over concatenation. */
  lemma {:induction false} EscapeAppend(a: string, b: string)
    ensures EscapeSQLWord(a + b) == EscapeSQLWord(a) + EscapeSQLWord(b)
  {
    if a != [] {
      assert (a + b)[1..] == a[1..] + b;
      EscapeAppend(a[1..], b);
    } else {
      assert a + b == b;
    }
  }

  /**
   * Every allowed character is kept as often as it occurs and every other
   * character is dropped; with `EscapeAppend`, the kept ones stay in order.
   */
  lemma {:induction false} EscapeCounts(word: string, c: char)
    ensures multiset(EscapeSQLWord(word))[c] == if WordChar(c) then multiset(word)[c] else 0
  {
    if word != [] {
      EscapeCounts(word[1..], c);
      assert word == [word[0]] + word[1..];
    }
  }
}
