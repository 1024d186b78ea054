/**
 * NUL-terminated strings: the text a `char *` designates, the fixed buffers
 * the C code writes into, and the `strchr`-style split at a character.
 */
module CStrings {
  import opened Wrappers

  /** The contents of a NUL-terminated C string: every character before the NUL. */
  type CString = s: string | '\0' !in s

  /** Splits at the first occurrence of c. */
  function SplitAt(s: string, c: char): (r: Option<(string, string)>)
    ensures r.Some? ==> s == r.value.0 + [c] + r.value.1 && c !in r.value.0
    ensures r.None? <==> c !in s
  {
    if s == [] then None
    else if s[0] == c then Some(([], s[1..]))
    else
      match SplitAt(s[1..], c)
      case None => None
      case Some((before, after)) => Some(([s[0]] + before, after))
  }

  lemma {:induction false} SplitAtFirst(a: string, c: char, b: string)
    requires c !in a
    ensures SplitAt(a + [c] + b, c) == Some((a, b))
  {
    if a != [] {
      assert (a + [c] + b)[1..] == a[1..] + [c] + b;
      SplitAtFirst(a[1..], c, b);
      assert [a[0]] + a[1..] == a;
    } else {
      assert (a + [c] + b)[1..] == b;
    }
  }

  /** A buffer holding a NUL somewhere. */
  predicate Terminated(b: seq<char>) {
    '\0' in b
  }

  /** `strlen`: the index of the first NUL. */
  function Strlen(b: seq<char>): (n: nat)
    requires Terminated(b)
    ensures n < |b| && b[n] == '\0' && '\0' !in b[..n]
  {
    if b[0] == '\0' then 0
    else
      assert '\0' in b[1..];
      var n := 1 + Strlen(b[1..]);
      assert b[..n] == [b[0]] + b[1..][..n - 1];
      n
  }

  /** The string a terminated buffer holds. */
  function CStr(b: seq<char>): (s: CString)
    requires Terminated(b)
    ensures s == b[..Strlen(b)]
  {
    b[..Strlen(b)]
  }

  /** A NUL with none before it ends the string. */
  lemma StrlenAt(b: seq<char>, p: nat)
    requires p < |b| && b[p] == '\0' && '\0' !in b[..p]
    ensures Terminated(b) && Strlen(b) == p && CStr(b) == b[..p]
  {
    assert b[p] in b;
  }
}
