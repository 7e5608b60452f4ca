/** Byte strings as Go has them: the order of `<` on strings, `strings.HasPrefix`
    (written with Dafny's prefix operator `<=`), `TrimPrefix`, `Index` and `IndexByte`. */
module Strings {

  /** One byte, written as the character with that code. */
  type Byte = c: char | c as int < 256 witness 'a'

  type Bytes = seq<Byte>

  /** `a < b` on Go strings: byte-wise lexicographic order. */
  predicate Less(a: string, b: string) {
    |b| > 0 && (|a| == 0 || a[0] < b[0] || (a[0] == b[0] && Less(a[1..], b[1..])))
  }

  predicate AtMost(a: string, b: string) {
    a == b || Less(a, b)
  }

  function TrimPrefix(s: string, p: string): string {
    if p <= s then s[|p|..] else s
  }

  predicate Occurs(s: string, sub: string, i: nat) {
    i <= |s| && sub <= s[i..]
  }

  /** Position of the first occurrence of `sub` in `s`, or -1. */
  function Index(s: string, sub: string): (i: int)
    ensures -1 <= i <= |s|
    ensures i >= 0 ==> i + |sub| <= |s| && Occurs(s, sub, i)
    ensures forall j: nat :: j < i || i < 0 ==> !Occurs(s, sub, j)
  {
    if sub <= s then
      assert Occurs(s, sub, 0);
      0
    else if s == "" then
      -1
    else
      var r := Index(s[1..], sub);
      assert forall j: nat :: 1 <= j <= |s| ==> s[j..] == s[1..][j - 1..];
      assert forall j: nat :: 1 <= j ==> Occurs(s, sub, j) == Occurs(s[1..], sub, j - 1);
      if r < 0 then -1 else r + 1
  }

  /** Position of the first `c` in `s`, or -1. */
  function IndexByte(s: string, c: char): (i: int)
    ensures -1 <= i < |s|
    ensures i >= 0 ==> s[i] == c && c !in s[..i]
    ensures i < 0 ==> c !in s
  {
    if s == "" then
      -1
    else if s[0] == c then
      0
    else
      var r := IndexByte(s[1..], c);
      if r < 0 then
        assert s == [s[0]] + s[1..];
        -1
      else
        assert s[..r + 1] == [s[0]] + s[1..][..r];
        r + 1
  }

  // ---------------------------------------------------------------------------
  // The order
  // ---------------------------------------------------------------------------

  lemma LessIrreflexive(a: string)
    ensures !Less(a, a)
  {
    if a != "" { LessIrreflexive(a[1..]); }
  }

  lemma LessTransitive(a: string, b: string, c: string)
    requires Less(a, b) && Less(b, c)
    ensures Less(a, c)
  {
    if a != "" && a[0] == b[0] == c[0] {
      LessTransitive(a[1..], b[1..], c[1..]);
    }
  }

  lemma LessAsymmetric(a: string, b: string)
    requires Less(a, b)
    ensures !Less(b, a) && a != b
  {
    LessIrreflexive(a);
    if Less(b, a) { LessTransitive(a, b, a); }
  }

  lemma LessTotal(a: string, b: string)
    ensures Less(a, b) || a == b || Less(b, a)
  {
    if a != "" && b != "" && a[0] == b[0] {
      LessTotal(a[1..], b[1..]);
      assert a == [a[0]] + a[1..] && b == [b[0]] + b[1..];
    }
  }

  lemma {:induction false} FirstDifference(a: string, b: string) returns (i: nat)
    requires Less(a, b)
    ensures i <= |a| && i < |b| && a[..i] == b[..i] && (i == |a| || a[i] < b[i])
  {
    i := 0;
    if a != "" && a[0] == b[0] {
      var j := FirstDifference(a[1..], b[1..]);
      i := j + 1;
      assert a[..i] == [a[0]] + a[1..][..j] && b[..i] == [b[0]] + b[1..][..j];
    }
  }

  lemma {:induction false} LessAtDifference(a: string, b: string, i: nat)
    requires i <= |a| && i < |b| && a[..i] == b[..i] && (i == |a| || a[i] < b[i])
    ensures Less(a, b)
  {
    if i > 0 {
      assert a[0] == a[..i][0] && b[0] == b[..i][0];
      assert a[1..][..i - 1] == a[..i][1..] && b[1..][..i - 1] == b[..i][1..];
      LessAtDifference(a[1..], b[1..], i - 1);
    }
  }

  /** The order is that of Go: a string is less than those it begins, and else the
      first byte in which two strings differ decides. */
  lemma LessIsBytewise(a: string, b: string)
    ensures Less(a, b) <==>
              exists i: nat :: i <= |a| && i < |b| && a[..i] == b[..i] && (i == |a| || a[i] < b[i])
  {
    hide Less;
    if Less(a, b) {
      var i := FirstDifference(a, b);
    }
    if i: nat :| i <= |a| && i < |b| && a[..i] == b[..i] && (i == |a| || a[i] < b[i]) {
      LessAtDifference(a, b, i);
    }
  }

  /** A common prefix does not change the order of two strings. */
  lemma {:induction false} LessUnderPrefix(p: string, a: string, b: string)
    ensures Less(p + a, p + b) <==> Less(a, b)
  {
    if p == "" {
      assert p + a == a && p + b == b;
    } else {
      assert (p + a)[1..] == p[1..] + a && (p + b)[1..] == p[1..] + b;
      LessUnderPrefix(p[1..], a, b);
    }
  }

  lemma {:induction false} PrefixAtMost(p: string, s: string)
    requires p <= s
    ensures p == s || Less(p, s)
  {
    if p != "" { PrefixAtMost(p[1..], s[1..]); }
  }

  /** The strings that start with `g` are contiguous in byte order. */
  lemma {:induction false} PrefixContiguous(g: string, x: string, y: string, z: string)
    requires g <= x && g <= z
    requires AtMost(x, y) && AtMost(y, z)
    ensures g <= y
  {
    if g != "" && x != y && y != z {
      PrefixContiguous(g[1..], x[1..], y[1..], z[1..]);
    }
  }

  /** Two prefixes of one string are comparable. */
  lemma PrefixesOfOne(p: string, q: string, s: string)
    requires p <= s && q <= s
    ensures p <= q || q <= p
  {
    if |p| <= |q| {
      assert q[..|p|] == s[..|p|];
    } else {
      assert p[..|q|] == s[..|q|];
    }
  }

  /** Below incomparable prefixes the whole strings compare as the prefixes do. */
  lemma {:induction false} IncomparablePrefixesDecide(g: string, h: string, x: string, y: string)
    requires g <= x && h <= y && !(g <= h) && !(h <= g)
    ensures Less(g, h) <==> Less(x, y)
  {
    if g[0] == h[0] {
      IncomparablePrefixesDecide(g[1..], h[1..], x[1..], y[1..]);
    }
  }

  // ---------------------------------------------------------------------------
  // Cutting at a separator
  // ---------------------------------------------------------------------------

  /** A string is cut at its first `c` in only one way. */
  lemma {:induction false} FirstCutUnique(a: string, b: string, a': string, b': string, c: char)
    requires c !in a && c !in a'
    requires a + [c] + b == a' + [c] + b'
    ensures a == a' && b == b'
  {
    assert (a + [c] + b)[0] == (a' + [c] + b')[0];
    if a == "" || a' == "" {
      assert (a + [c] + b)[1..] == (a' + [c] + b')[1..];
      assert a == a';
    } else {
      assert (a + [c] + b)[1..] == a[1..] + [c] + b;
      assert (a' + [c] + b')[1..] == a'[1..] + [c] + b';
      FirstCutUnique(a[1..], b, a'[1..], b', c);
    }
  }

  /** A string is cut at its last `c` in only one way. */
  lemma {:induction false} LastCutUnique(a: string, b: string, a': string, b': string, c: char)
    requires c !in b && c !in b'
    requires a + [c] + b == a' + [c] + b'
    ensures a == a' && b == b'
  {
    var s, s' := a + [c] + b, a' + [c] + b';
    assert s[|s| - 1] == s'[|s'| - 1];
    if b == "" || b' == "" {
      assert b == b';
      assert s[..|s| - 1] == a && s'[..|s'| - 1] == a';
    } else {
      assert s[..|s| - 1] == a + [c] + b[..|b| - 1];
      assert s'[..|s'| - 1] == a' + [c] + b'[..|b'| - 1];
      LastCutUnique(a, b[..|b| - 1], a', b'[..|b'| - 1], c);
      assert b == b[..|b| - 1] + [b[|b| - 1]] && b' == b'[..|b'| - 1] + [b'[|b'| - 1]];
    }
  }
}
