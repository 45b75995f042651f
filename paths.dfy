/**
 * Path composition as sstow's `join` does it: the first operand, one '/',
 * the second operand, with no special case for an empty operand.
 *
 * `Join` is the value the C function produces.  `JoinBuffer` follows the C
 * code step by step: a buffer of strlen(s1) + strlen(s2) + 2 characters,
 * strcpy of s1, strcat of "/", strcat of s2.  Its contract shows that the
 * allocation is exactly large enough for the joined path and its NUL.
 */
module Paths {

  datatype Option<T> = None | Some(value: T)

  const Separator: char := '/'
  const Nul: char := '\0'

  /** The path `join(s1, s2)` returns. */
  function Join(s1: string, s2: string): (p: string)
    ensures |p| == |s1| + |s2| + 1
    ensures p[..|s1|] == s1 && p[|s1|] == Separator && p[|s1| + 1..] == s2
  {
    s1 + [Separator] + s2
  }

  /**
   * Splits a path at its last separator into the part before it and the
   * part after it; None when the path holds no separator.
   */
  function SplitLast(p: string): (r: Option<(string, string)>)
    ensures r.None? <==> Separator !in p
    ensures r.Some? ==> Separator !in r.value.1 && |r.value.0| + |r.value.1| + 1 == |p|
    decreases |p|
  {
    if p == [] then None
    else if p[|p| - 1] == Separator then Some((p[..|p| - 1], ""))
    else
      match SplitLast(p[..|p| - 1])
      case None => None
      case Some((dir, base)) => Some((dir, base + [p[|p| - 1]]))
  }

  /**
   * Joining a name that holds no separator onto a path can be undone:
   * splitting at the last separator gives back both operands.
   */
  lemma {:induction false} SplitLastJoin(s1: string, s2: string)
    requires Separator !in s2
    ensures SplitLast(Join(s1, s2)) == Some((s1, s2))
  {
    if s2 != [] {
      var init := s2[..|s2| - 1];
      var p := Join(s1, s2);
      assert p[..|p| - 1] == Join(s1, init);
      assert Separator !in init by {
        forall k | 0 <= k < |init| ensures init[k] != Separator {
          assert init[k] == s2[k];
        }
      }
      SplitLastJoin(s1, init);
      assert init + [s2[|s2| - 1]] == s2;
    } else {
      assert Join(s1, s2)[..|s1|] == s1;
    }
  }

  /** Two joins with separator-free names agree only when both operands agree. */
  lemma {:induction false} JoinInjective(a: string, b: string, c: string, d: string)
    requires Separator !in b && Separator !in d
    requires Join(a, b) == Join(c, d)
    ensures a == c && b == d
  {
    SplitLastJoin(a, b);
    SplitLastJoin(c, d);
  }

  /**
   * Empty operands are not special-cased: the separator is still inserted,
   * so joining never gives back an operand unchanged.
   */
  lemma JoinEmptyOperands(s: string)
    ensures Join("", s) == [Separator] + s
    ensures Join(s, "") == s + [Separator]
    ensures Join("", s) != s && Join(s, "") != s
    ensures Join("", "") == "/"
  {
  }

  /** `buf` holds the C string `s`: its characters followed by a NUL. */
  ghost predicate Holds(buf: seq<char>, s: string)
  {
    Nul !in s && |s| < |buf| && buf[..|s|] == s && buf[|s|] == Nul
  }

  /** strlen: the number of characters before the first NUL. */
  method StrLen(buf: array<char>, ghost s: string) returns (n: nat)
    requires Holds(buf[..], s)
    ensures n == |s|
  {
    assert forall k :: 0 <= k < |s| ==> buf[k] == buf[..|s|][k] == s[k];
    n := 0;
    while buf[n] != Nul
      invariant n <= |s|
      decreases |s| - n
    {
      n := n + 1;
    }
  }

  /** Writes `src` and a terminating NUL into `buf` from index `at` on. */
  method CopyAt(buf: array<char>, at: nat, src: string)
    requires Nul !in src
    requires at + |src| < buf.Length
    modifies buf
    ensures buf[at..at + |src| + 1] == src + [Nul]
    ensures buf[..at] == old(buf[..at])
    ensures buf[at + |src| + 1..] == old(buf[at + |src| + 1..])
  {
    var i := 0;
    while i < |src|
      invariant 0 <= i <= |src|
      invariant forall k :: 0 <= k < i ==> buf[at + k] == src[k]
      invariant forall k :: 0 <= k < at ==> buf[k] == old(buf[k])
      invariant forall k :: at + i <= k < buf.Length ==> buf[k] == old(buf[k])
    {
      buf[at + i] := src[i];
      i := i + 1;
    }
    buf[at + |src|] := Nul;
  }

  /** strcpy(buf, s). */
  method StrCpy(buf: array<char>, s: string)
    requires Nul !in s
    requires |s| < buf.Length
    modifies buf
    ensures Holds(buf[..], s)
    ensures buf[|s| + 1..] == old(buf[|s| + 1..])
  {
    CopyAt(buf, 0, s);
    assert buf[..|s|] == buf[0..|s| + 1][..|s|];
  }

  /** strcat(buf, src) on a buffer that currently holds the C string `cur`. */
  method StrCat(buf: array<char>, ghost cur: string, src: string)
    requires Holds(buf[..], cur)
    requires Nul !in src
    requires |cur| + |src| < buf.Length
    modifies buf
    ensures Holds(buf[..], cur + src)
    ensures buf[|cur| + |src| + 1..] == old(buf[|cur| + |src| + 1..])
  {
    var n := StrLen(buf, cur);
    ghost var before := buf[..n];
    CopyAt(buf, n, src);
    assert buf[..n] == before == cur;
    assert buf[..n + |src|] == buf[..n] + buf[n..n + |src| + 1][..|src|];
  }

  /**
   * `join` as the C code performs it: the buffer it allocates has room for
   * exactly the two operands, the separator and the terminating NUL, and
   * ends up holding the joined path.
   */
  method JoinBuffer(s1: string, s2: string) returns (buf: array<char>)
    requires Nul !in s1 && Nul !in s2
    ensures fresh(buf)
    ensures buf.Length == |s1| + |s2| + 2
    ensures buf[..] == Join(s1, s2) + [Nul]
  {
    var len := |s1| + |s2| + 2;
    buf := new char[len];
    StrCpy(buf, s1);
    StrCat(buf, s1, [Separator]);
    StrCat(buf, s1 + [Separator], s2);
    assert s1 + [Separator] + s2 == Join(s1, s2);
    assert buf[..] == buf[..len - 1] + [buf[len - 1]];
  }
}
