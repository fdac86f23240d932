/** The Python string operations the engine relies on. */
module Strings {

  /** str.lower() on ASCII letters. */
  function LowerChar(c: char): char {
    if 'A' <= c <= 'Z' then (c as int + 32) as char else c
  }

  function Lower(s: string): string {
    seq(|s|, i requires 0 <= i < |s| => LowerChar(s[i]))
  }

  lemma LowerIdempotent(s: string)
    ensures Lower(Lower(s)) == Lower(s)
  {
  }

  lemma LowerAppend(a: string, b: string)
    ensures Lower(a + b) == Lower(a) + Lower(b)
  {
  }

  /** `s.startswith(prefix)`. */
  function StartsWith(s: string, prefix: string): bool {
    |prefix| <= |s| && s[..|prefix|] == prefix
  }

  /** `key` occurs in `s` at position i. */
  ghost predicate OccursAt(s: string, key: string, i: nat) {
    i + |key| <= |s| && s[i..i + |key|] == key
  }

  /** Python's substring test `key in s`, as a left-to-right scan. */
  function Contains(s: string, key: string): bool
    decreases |s|
  {
    if |key| > |s| then false
    else if StartsWith(s, key) then true
    else Contains(s[1..], key)
  }

  lemma {:induction false} ContainsIff(s: string, key: string)
    ensures Contains(s, key) <==> exists i: nat :: OccursAt(s, key, i)
    decreases |s|
  {
    if |key| > |s| {
    } else if StartsWith(s, key) {
      assert OccursAt(s, key, 0);
    } else {
      ContainsIff(s[1..], key);
      if Contains(s[1..], key) {
        var i: nat :| OccursAt(s[1..], key, i);
        OccursAfterFirst(s, key, i);
      } else {
        forall i: nat | 0 < i && OccursAt(s, key, i) ensures false {
          OccursAfterFirst(s, key, i - 1);
        }
      }
    }
  }

  /** An occurrence past the first character is one in the rest of the string. */
  lemma OccursAfterFirst(s: string, key: string, i: nat)
    requires |s| > 0
    ensures OccursAt(s, key, i + 1) <==> OccursAt(s[1..], key, i)
  {
    if i + 1 + |key| <= |s| {
      assert s[1..][i..i + |key|] == s[i + 1..i + 1 + |key|];
    }
  }

  /** A key holding a character the string lacks does not occur in it. */
  lemma AbsentCharBlocks(s: string, key: string, c: char)
    requires c in key && c !in s
    ensures !Contains(s, key)
  {
    ContainsIff(s, key);
  }

  /** `s[:n]`: a slice that stops at the end of the string. */
  function Prefix(s: string, n: nat): (r: string)
    ensures |r| == if |s| <= n then |s| else n
    ensures r == s[..|r|]
  {
    if |s| <= n then s else s[..n]
  }
}
