/**
 * The handful of Python `str` operations the scanner relies on: `in` as a
 * substring test, `lower()`, and `strip()` with and without an explicit set
 * of characters.
 */
module Text {

  /** The characters below U+0100 that Python's `str.strip()` removes by default. */
  const Whitespace: set<char> :=
    {' ', '\t', '\n', '\U{b}', '\U{c}', '\r', '\U{1c}', '\U{1d}', '\U{1e}', '\U{1f}', '\U{85}', '\U{a0}'}

  predicate AllIn(s: string, cs: set<char>)
  {
    forall k :: 0 <= k < |s| ==> s[k] in cs
  }

  lemma AllInAppend(a: string, b: string, cs: set<char>)
    requires AllIn(a, cs) && AllIn(b, cs)
    ensures AllIn(a + b, cs)
  {
    forall k | 0 <= k < |a + b| ensures (a + b)[k] in cs {
      if k < |a| { assert (a + b)[k] == a[k]; } else { assert (a + b)[k] == b[k - |a|]; }
    }
  }

  // ---------------------------------------------------------------------------
  // Substring test: Python's `p in s` for two strings.
  // ---------------------------------------------------------------------------

  predicate OccursAt(s: string, p: string, i: int)
  {
    0 <= i && i + |p| <= |s| && s[i..i + |p|] == p
  }

  /** `p in s`: the pattern occurs at some position of the string. */
  function Contains(s: string, p: string): (b: bool)
    ensures b <==> exists i :: OccursAt(s, p, i)
    decreases |s|
  {
    if p <= s then
      assert OccursAt(s, p, 0);
      true
    else if s == [] then
      false
    else
      var rest := Contains(s[1..], p);
      assert forall i :: OccursAt(s[1..], p, i) ==> OccursAt(s, p, i + 1);
      assert forall i :: OccursAt(s, p, i) && i > 0 ==> OccursAt(s[1..], p, i - 1);
      rest
  }

  /** A string built around `p` contains `p`. */
  lemma ContainsInfix(a: string, p: string, b: string)
    ensures Contains(a + p + b, p)
  {
    assert (a + p + b)[|a|..|a| + |p|] == p;
    assert OccursAt(a + p + b, p, |a|);
  }

  /** A string that contains `p` contains each character of `p`. */
  lemma ContainsChars(s: string, p: string)
    ensures Contains(s, p) ==> forall k :: 0 <= k < |p| ==> p[k] in s
  {
    if Contains(s, p) {
      var i :| OccursAt(s, p, i);
      forall k | 0 <= k < |p| ensures p[k] in s {
        assert s[i..i + |p|][k] == s[i + k];
      }
    }
  }

  /** Substring containment is transitive: a string holding `q` holds every substring of `q`. */
  lemma {:induction false} ContainsTransitive(s: string, q: string, p: string)
    requires Contains(q, p) && Contains(s, q)
    ensures Contains(s, p)
  {
    var j :| OccursAt(q, p, j);
    var i :| OccursAt(s, q, i);
    forall k | 0 <= k < |p| ensures s[i + j..i + j + |p|][k] == p[k] {
      assert s[i..i + |q|][j + k] == q[j + k] == q[j..j + |p|][k];
    }
    assert OccursAt(s, p, i + j);
  }

  // ---------------------------------------------------------------------------
  // Case mapping: `str.lower()` and `str.upper()` on ASCII letters.
  // ---------------------------------------------------------------------------

  function LowerChar(c: char): char
  {
    if 'A' <= c <= 'Z' then (c as int + 32) as char else c
  }

  function UpperChar(c: char): char
  {
    if 'a' <= c <= 'z' then (c as int - 32) as char else c
  }

  /**
   * `s.lower()`: the result holds no capital letter, and position by position
   * it upper-cases to what the input upper-cases to.
   */
  function Lower(s: string): (r: string)
    ensures |r| == |s|
    ensures forall k :: 0 <= k < |r| ==> !('A' <= r[k] <= 'Z') && UpperChar(r[k]) == UpperChar(s[k])
  {
    seq(|s|, k requires 0 <= k < |s| => LowerChar(s[k]))
  }

  function Upper(s: string): (r: string)
    ensures |r| == |s|
  {
    seq(|s|, k requires 0 <= k < |s| => UpperChar(s[k]))
  }

  /** Lower-casing leaves whitespace alone and never turns a non-space into a space. */
  lemma LowerCharKeepsSpace(c: char)
    ensures (LowerChar(c) in Whitespace) == (c in Whitespace)
    ensures c in Whitespace ==> LowerChar(c) == c
  {
  }

  /** Lower-casing after upper-casing is the same as lower-casing. */
  lemma LowerOfUpper(s: string)
    ensures Lower(Upper(s)) == Lower(s)
  {
    forall k | 0 <= k < |s|
      ensures Lower(Upper(s))[k] == Lower(s)[k]
    {
    }
  }

  lemma LowerIdempotent(s: string)
    ensures Lower(Lower(s)) == Lower(s)
  {
  }

  lemma LowerAppend(a: string, b: string)
    ensures Lower(a + b) == Lower(a) + Lower(b)
  {
  }

  lemma LowerSlice(s: string, i: int, j: int)
    requires 0 <= i <= j <= |s|
    ensures Lower(s[i..j]) == Lower(s)[i..j]
  {
  }

  lemma LowerOfSpace(w: string)
    requires AllIn(w, Whitespace)
    ensures Lower(w) == w
  {
    forall k | 0 <= k < |w|
      ensures Lower(w)[k] == w[k]
    {
      LowerCharKeepsSpace(w[k]);
    }
  }

  // ---------------------------------------------------------------------------
  // Stripping: `str.lstrip(cs)`, `str.rstrip(cs)`, `str.strip(cs)`.
  // ---------------------------------------------------------------------------

  /** Drops the longest prefix made of characters in `cs`. */
  function LStrip(s: string, cs: set<char>): string
    decreases |s|
  {
    if s != [] && s[0] in cs then LStrip(s[1..], cs) else s
  }

  /** Drops the longest suffix made of characters in `cs`. */
  function RStrip(s: string, cs: set<char>): string
    decreases |s|
  {
    if s != [] && s[|s| - 1] in cs then RStrip(s[..|s| - 1], cs) else s
  }

  /** LStrip leaves a suffix of `s` that does not start with `cs`, having dropped only characters of `cs`. */
  lemma {:induction false} LStripSpec(s: string, cs: set<char>)
    ensures var r := LStrip(s, cs);
      && |r| <= |s| && r == s[|s| - |r|..]
      && (r == [] || r[0] !in cs)
      && AllIn(s[..|s| - |r|], cs)
    decreases |s|
  {
    if s != [] && s[0] in cs {
      LStripSpec(s[1..], cs);
      var r := LStrip(s, cs);
      assert r == s[1..][|s| - 1 - |r|..];
      var dropped := s[..|s| - |r|];
      forall k | 0 <= k < |dropped| ensures dropped[k] in cs {
        if k > 0 { assert dropped[k] == s[1..][..|s| - 1 - |r|][k - 1]; }
      }
    }
  }

  /** RStrip leaves a prefix of `s` that does not end with `cs`, having dropped only characters of `cs`. */
  lemma {:induction false} RStripSpec(s: string, cs: set<char>)
    ensures var r := RStrip(s, cs);
      && |r| <= |s| && r == s[..|r|]
      && (r == [] || r[|r| - 1] !in cs)
      && AllIn(s[|r|..], cs)
    decreases |s|
  {
    if s != [] && s[|s| - 1] in cs {
      var t := s[..|s| - 1];
      RStripSpec(t, cs);
      var r := RStrip(s, cs);
      assert r == t[..|r|];
      var dropped := s[|r|..];
      forall k | 0 <= k < |dropped| ensures dropped[k] in cs {
        if k < |s| - 1 - |r| { assert dropped[k] == t[|r|..][k]; }
      }
    }
  }

  /**
   * `r` is what remains of `s` once every leading and trailing character in
   * `cs` is removed: a slice of `s` starting at `i`, bordered only by
   * characters of `cs`, and itself neither starting nor ending with one.
   */
  predicate IsStripOf(r: string, s: string, cs: set<char>, i: int)
  {
    && 0 <= i <= |s| - |r|
    && r == s[i..i + |r|]
    && AllIn(s[..i], cs)
    && AllIn(s[i + |r|..], cs)
    && (r == [] || (r[0] !in cs && r[|r| - 1] !in cs))
  }

  /** Python's `s.strip(cs)`. */
  function StripChars(s: string, cs: set<char>): (r: string)
    ensures |r| <= |s|
    ensures r == [] || (r[0] !in cs && r[|r| - 1] !in cs)
  {
    LStripSpec(s, cs);
    RStripSpec(LStrip(s, cs), cs);
    assert RStrip(LStrip(s, cs), cs) == [] || RStrip(LStrip(s, cs), cs)[0] == LStrip(s, cs)[0];
    RStrip(LStrip(s, cs), cs)
  }

  /** Where the strip of `s` starts. */
  function StripStart(s: string, cs: set<char>): nat
  {
    LStripSpec(s, cs);
    |s| - |LStrip(s, cs)|
  }

  /** The strip is a slice of `s` bordered only by characters of `cs` and not itself starting or ending with one. */
  lemma StripCharsSlice(s: string, cs: set<char>)
    ensures IsStripOf(StripChars(s, cs), s, cs, StripStart(s, cs))
  {
    var l := LStrip(s, cs);
    var r := RStrip(l, cs);
    LStripSpec(s, cs);
    RStripSpec(l, cs);
    assert s[|s| - |l|..][..|r|] == s[|s| - |l|..|s| - |l| + |r|];
    assert s[|s| - |l| + |r|..] == l[|r|..];
    assert r == [] || r[0] == l[0];
  }

  /** Python's `s.strip()`. */
  function Strip(s: string): (r: string)
    ensures |r| <= |s|
    ensures r == [] || (r[0] !in Whitespace && r[|r| - 1] !in Whitespace)
  {
    StripChars(s, Whitespace)
  }

  /** Once the first `i` characters are all in `cs` and the next is not, LStrip drops exactly those. */
  lemma {:induction false} LStripDrops(s: string, cs: set<char>, i: int)
    requires 0 <= i <= |s| && AllIn(s[..i], cs) && (i == |s| || s[i] !in cs)
    ensures LStrip(s, cs) == s[i..]
    decreases i
  {
    if i > 0 {
      assert s[..i][0] == s[0];
      assert s[1..][..i - 1] == s[..i][1..];
      LStripDrops(s[1..], cs, i - 1);
      assert s[1..][i - 1..] == s[i..];
    }
  }

  /** Once the characters from `j` on are all in `cs` and the one before is not, RStrip keeps `s[..j]`. */
  lemma {:induction false} RStripKeeps(s: string, cs: set<char>, j: int)
    requires 0 <= j <= |s| && AllIn(s[j..], cs) && (j == 0 || s[j - 1] !in cs)
    ensures RStrip(s, cs) == s[..j]
    decreases |s| - j
  {
    if j < |s| {
      var t := s[..|s| - 1];
      assert s[j..][|s| - 1 - j] == s[|s| - 1];
      assert t[j..] == s[j..][..|s| - 1 - j];
      RStripKeeps(t, cs, j);
      assert t[..j] == s[..j];
    }
  }

  /**
   * IsStripOf determines the strip completely: any slice of `s` with the
   * stated borders is the result of StripChars.
   */
  lemma {:induction false} StripCharsComplete(r: string, s: string, cs: set<char>, i: int)
    requires IsStripOf(r, s, cs, i)
    ensures StripChars(s, cs) == r
  {
    if r == [] {
      forall k | 0 <= k < |s| ensures s[..|s|][k] in cs {
        if k < i { assert s[..i][k] == s[k]; } else { assert s[i..][k - i] == s[k]; }
      }
      LStripDrops(s, cs, |s|);
      assert LStrip(s, cs) == [];
    } else {
      assert s[i] == r[0];
      LStripDrops(s, cs, i);
      var l := s[i..];
      assert l[|r|..] == s[i + |r|..];
      assert l[|r| - 1] == r[|r| - 1];
      RStripKeeps(l, cs, |r|);
      assert l[..|r|] == r;
    }
  }

  /** Stripping an already stripped string changes nothing. */
  lemma StripCharsIdempotent(s: string, cs: set<char>)
    ensures StripChars(StripChars(s, cs), cs) == StripChars(s, cs)
  {
    var r := StripChars(s, cs);
    StripCharsSlice(s, cs);
    assert r[..0] == [] && r[|r|..] == [] && r[0..|r|] == r;
    StripCharsComplete(r, r, cs, 0);
  }

  lemma IsStripOfPadded(r: string, s: string, cs: set<char>, i: int, w1: string, w2: string)
    requires IsStripOf(r, s, cs, i) && AllIn(w1, cs) && AllIn(w2, cs)
    ensures IsStripOf(r, w1 + s + w2, cs, |w1| + i)
  {
    var t := w1 + s + w2;
    var e := i + |r|;
    var j := |w1| + i;
    assert t[..j] == w1 + s[..i] by {
      assert s[..i] == s[..e][..i];
    }
    assert t[j..j + |r|] == r;
    assert t[j + |r|..] == s[e..] + w2;
    AllInAppend(w1, s[..i], cs);
    AllInAppend(s[e..], w2, cs);
  }

  /** Extra characters of `cs` around a string do not change its strip. */
  lemma StripCharsIgnoresPadding(w1: string, s: string, w2: string, cs: set<char>)
    requires AllIn(w1, cs) && AllIn(w2, cs)
    ensures StripChars(w1 + s + w2, cs) == StripChars(s, cs)
  {
    var i := StripStart(s, cs);
    StripCharsSlice(s, cs);
    IsStripOfPadded(StripChars(s, cs), s, cs, i, w1, w2);
    StripCharsComplete(StripChars(s, cs), w1 + s + w2, cs, |w1| + i);
  }

  lemma IsStripOfLower(r: string, s: string, i: int)
    requires IsStripOf(r, s, Whitespace, i)
    ensures IsStripOf(Lower(r), Lower(s), Whitespace, i)
  {
    var e := i + |r|;
    var ls := Lower(s);
    LowerSlice(s, i, e);
    LowerSlice(s, 0, i);
    LowerSlice(s, e, |s|);
    LowerOfSpace(s[..i]);
    LowerOfSpace(s[e..]);
    assert ls[..i] == s[..i] by { assert ls[0..i] == ls[..i] && s[0..i] == s[..i]; }
    assert ls[e..] == s[e..] by { assert ls[e..|s|] == ls[e..] && s[e..|s|] == s[e..]; }
    if r != [] {
      LowerCharKeepsSpace(r[0]);
      LowerCharKeepsSpace(r[|r| - 1]);
    }
  }

  /** Stripping a lower-cased string leaves no capital letter. */
  lemma LowerStripNoCapitals(s: string)
    ensures forall k :: 0 <= k < |Strip(Lower(s))| ==> !('A' <= Strip(Lower(s))[k] <= 'Z')
  {
    var l := Lower(s);
    StripCharsSlice(l, Whitespace);
    var i := StripStart(l, Whitespace);
    forall k | 0 <= k < |Strip(l)| ensures !('A' <= Strip(l)[k] <= 'Z') {
      assert Strip(l)[k] == l[i + k];
    }
  }

  /** Lower-casing and whitespace stripping commute. */
  lemma LowerStripCommute(s: string)
    ensures Lower(Strip(s)) == Strip(Lower(s))
  {
    var i := StripStart(s, Whitespace);
    StripCharsSlice(s, Whitespace);
    IsStripOfLower(Strip(s), s, i);
    StripCharsComplete(Lower(Strip(s)), Lower(s), Whitespace, i);
  }

  /**
   * Stripping `a` and then `b` leaves a slice of the original string whose
   * borders hold only characters of `a` or `b`.
   */
  lemma StripTwice(s: string, a: set<char>, b: set<char>)
    ensures var t := StripChars(s, a);
      var r := StripChars(t, b);
      var i := StripStart(s, a) + StripStart(t, b);
      && 0 <= i <= |s| - |r|
      && r == s[i..i + |r|]
      && AllIn(s[..i], a + b)
      && AllIn(s[i + |r|..], a + b)
  {
    var t := StripChars(s, a);
    var r := StripChars(t, b);
    var i1, i2 := StripStart(s, a), StripStart(t, b);
    StripCharsSlice(s, a);
    StripCharsSlice(t, b);
    var i := i1 + i2;
    forall k | 0 <= k < |r| ensures r[k] == s[i + k] {
      assert r[k] == t[i2 + k] == s[i1 + i2 + k];
    }
    var head := s[..i];
    forall k | 0 <= k < |head| ensures head[k] in a + b {
      if k < i1 { assert s[..i1][k] == s[k]; } else { assert t[..i2][k - i1] == t[k - i1] == s[k]; }
    }
    var tail := s[i + |r|..];
    forall k | 0 <= k < |tail| ensures tail[k] in a + b {
      var p := i + |r| + k;
      if p < i1 + |t| {
        assert t[i2 + |r|..][p - i1 - i2 - |r|] == t[p - i1] == s[p];
      } else {
        assert s[i1 + |t|..][p - i1 - |t|] == s[p];
      }
    }
  }
}
