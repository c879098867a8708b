/**
 * Loading the wordlist for option 3: the typed path is cleaned of
 * surrounding whitespace and quotes, and each line of the file becomes a
 * candidate password once stripped, blank lines being dropped.
 */
module Wordlist {
  import opened Text

  /** The quote characters removed from both ends of the typed path. */
  const Quotes: set<char> := {'"', '\''}

  /**
   * `typed.strip().strip('"\'')`. The result is a slice of what was typed,
   * preceded only by whitespace and quotes, followed only by quotes and
   * whitespace, and neither starting nor ending with a quote. More exactly,
   * it is the quote strip of the whitespace strip of what was typed.
   */
  function CleanPath(typed: string): (path: string)
    ensures exists t, i, j :: IsStripOf(t, typed, Whitespace, i) && IsStripOf(path, t, Quotes, j)
    ensures exists i :: (0 <= i <= |typed| - |path| && path == typed[i..i + |path|] &&
      AllIn(typed[..i], Whitespace + Quotes) && AllIn(typed[i + |path|..], Whitespace + Quotes))
    ensures path == [] || (path[0] !in Quotes && path[|path| - 1] !in Quotes)
  {
    CleanPathSteps(typed);
    CleanPathSlice(typed);
    StripChars(Strip(typed), Quotes)
  }

  /** The two strips, each described by IsStripOf. */
  lemma CleanPathSteps(typed: string)
    ensures var t := Strip(typed);
      && IsStripOf(t, typed, Whitespace, StripStart(typed, Whitespace))
      && IsStripOf(StripChars(t, Quotes), t, Quotes, StripStart(t, Quotes))
  {
    StripCharsSlice(typed, Whitespace);
    StripCharsSlice(Strip(typed), Quotes);
  }

  /** Together the two strips leave a slice bordered by whitespace and quotes only. */
  lemma CleanPathSlice(typed: string)
    ensures var path := StripChars(Strip(typed), Quotes);
      var i := StripStart(typed, Whitespace) + StripStart(Strip(typed), Quotes);
      0 <= i <= |typed| - |path| && path == typed[i..i + |path|] &&
      AllIn(typed[..i], Whitespace + Quotes) && AllIn(typed[i + |path|..], Whitespace + Quotes)
  {
    StripTwice(typed, Whitespace, Quotes);
  }

  /**
   * The two-step description in CleanPath's contract admits one path only:
   * any string obtained by a whitespace strip followed by a quote strip is
   * the cleaned path.
   */
  lemma CleanPathDetermined(typed: string, t: string, i: int, path: string, j: int)
    requires IsStripOf(t, typed, Whitespace, i) && IsStripOf(path, t, Quotes, j)
    ensures path == CleanPath(typed)
  {
    StripCharsComplete(t, typed, Whitespace, i);
    StripCharsComplete(path, t, Quotes, j);
  }

  /**
   * A path typed in quotes, with whitespace around it (as a terminal pastes
   * a dragged file), comes out as the bare path.
   */
  lemma CleanPathUnquotes(before: string, open: string, p: string, close: string, after: string)
    requires AllIn(before, Whitespace) && AllIn(after, Whitespace)
    requires AllIn(open, Quotes) && AllIn(close, Quotes)
    requires p != [] && p[0] !in Whitespace + Quotes && p[|p| - 1] !in Whitespace + Quotes
    ensures CleanPath(before + open + p + close + after) == p
  {
    var quoted := open + p + close;
    assert before + open + p + close + after == before + quoted + after;
    StripCharsIgnoresPadding(before, quoted, after, Whitespace);
    assert quoted[0] !in Whitespace && quoted[|quoted| - 1] !in Whitespace by {
      if open != [] { assert quoted[0] == open[0]; } else { assert quoted[0] == p[0]; }
      if close != [] {
        assert quoted[|quoted| - 1] == close[|close| - 1];
      } else {
        assert quoted[|quoted| - 1] == p[|p| - 1];
      }
    }
    Unpadded(quoted, Whitespace);
    StripCharsIgnoresPadding(open, p, close, Quotes);
    Unpadded(p, Quotes);
  }

  /** A string with no character of `cs` at either end is its own strip. */
  lemma Unpadded(s: string, cs: set<char>)
    requires s != [] && s[0] !in cs && s[|s| - 1] !in cs
    ensures StripChars(s, cs) == s
  {
    assert s[..0] == [] && s[|s|..] == [] && s[0..|s|] == s;
    StripCharsComplete(s, s, cs, 0);
  }

  /**
   * Whitespace inside the quotes survives: the cleaned path may still start
   * with a space, so cleaning is not idempotent.
   */
  lemma CleanPathKeepsInnerSpace(typed: string)
    requires typed == "\" a.txt\""
    ensures CleanPath(typed) == " a.txt"
    ensures CleanPath(CleanPath(typed)) == "a.txt"
  {
    assert typed[0] == '"' && typed[|typed| - 1] == '"';
    Unpadded(typed, Whitespace);
    var inner := " a.txt";
    assert typed == ['"'] + inner + ['"'];
    assert inner[|inner| - 1] == 't';
    StripCharsIgnoresPadding(['"'], inner, ['"'], Quotes);
    Unpadded(inner, Quotes);
    assert inner == [' '] + "a.txt" + [];
    var bare := "a.txt";
    assert bare[0] == 'a' && bare[|bare| - 1] == 't';
    StripCharsIgnoresPadding([' '], bare, [], Whitespace);
    Unpadded(bare, Whitespace);
    Unpadded(bare, Quotes);
  }

  // ---------------------------------------------------------------------------
  // `[line.strip() for line in f if line.strip()]`
  // ---------------------------------------------------------------------------

  /** The candidates taken from the lines at `from` and after. */
  function LoadFrom(lines: seq<string>, from: nat): seq<string>
    decreases |lines| - from
  {
    if from >= |lines| then []
    else (if Strip(lines[from]) != "" then [Strip(lines[from])] else []) + LoadFrom(lines, from + 1)
  }

  /** The password list built from the wordlist's lines. */
  function LoadPasswords(lines: seq<string>): (passwords: seq<string>)
    ensures |passwords| <= |lines|
    ensures forall k :: 0 <= k < |passwords| ==> passwords[k] != ""
  {
    LoadFromBounds(lines, 0);
    LoadFrom(lines, 0)
  }

  /** From `from` on, there are no more candidates than lines, and none is empty. */
  lemma {:induction false} LoadFromBounds(lines: seq<string>, from: nat)
    ensures from <= |lines| ==> |LoadFrom(lines, from)| <= |lines| - from
    ensures forall k :: 0 <= k < |LoadFrom(lines, from)| ==> LoadFrom(lines, from)[k] != ""
    decreases |lines| - from
  {
    if from < |lines| {
      LoadFromBounds(lines, from + 1);
      var head := if Strip(lines[from]) != "" then [Strip(lines[from])] else [];
      assert LoadFrom(lines, from) == head + LoadFrom(lines, from + 1);
    }
  }

  /** The positions, from `from` on, of the lines that are not blank once stripped. */
  function KeptFrom(lines: seq<string>, from: nat): (kept: seq<nat>)
    ensures forall k :: 0 <= k < |kept| ==> from <= kept[k] < |lines|
    ensures forall k, l :: 0 <= k < l < |kept| ==> kept[k] < kept[l]
    decreases |lines| - from
  {
    if from >= |lines| then []
    else (if Strip(lines[from]) != "" then [from] else []) + KeptFrom(lines, from + 1)
  }

  /**
   * The candidates from `from` on are the stripped lines at the kept
   * positions, in order, and a position is kept exactly when its line is not
   * blank once stripped.
   */
  lemma {:induction false} LoadFromSelects(lines: seq<string>, from: nat)
    ensures |LoadFrom(lines, from)| == |KeptFrom(lines, from)|
    ensures forall k :: 0 <= k < |KeptFrom(lines, from)| ==>
      LoadFrom(lines, from)[k] == Strip(lines[KeptFrom(lines, from)[k]])
    ensures forall i :: from <= i < |lines| ==> (i in KeptFrom(lines, from) <==> Strip(lines[i]) != "")
    decreases |lines| - from
  {
    if from < |lines| {
      LoadFromSelects(lines, from + 1);
      var s := Strip(lines[from]);
      var rest, later := LoadFrom(lines, from + 1), KeptFrom(lines, from + 1);
      var load, kept := LoadFrom(lines, from), KeptFrom(lines, from);
      assert from !in later;
      if s != "" {
        assert load == [s] + rest && kept == [from] + later;
        forall k | 0 <= k < |kept| ensures load[k] == Strip(lines[kept[k]]) {
          if k > 0 { assert load[k] == rest[k - 1] && kept[k] == later[k - 1]; }
        }
      } else {
        assert load == rest && kept == later;
      }
    }
  }

  /** The positions of the wordlist lines that become candidates. */
  function KeptLines(lines: seq<string>): seq<nat>
  {
    KeptFrom(lines, 0)
  }

  /**
   * The password list is the stripped non-blank lines in file order: it is
   * indexed by strictly increasing line positions, each candidate is its
   * line stripped, and every line that is not blank once stripped is there.
   */
  lemma LoadPasswordsSelectsInOrder(lines: seq<string>)
    ensures |LoadPasswords(lines)| == |KeptLines(lines)| <= |lines|
    ensures forall k :: 0 <= k < |KeptLines(lines)| ==> LoadPasswords(lines)[k] == Strip(lines[KeptLines(lines)[k]])
    ensures forall k, l :: 0 <= k < l < |KeptLines(lines)| ==> KeptLines(lines)[k] < KeptLines(lines)[l]
    ensures forall i :: 0 <= i < |lines| ==> (i in KeptLines(lines) <==> Strip(lines[i]) != "")
  {
    LoadFromSelects(lines, 0);
    IncreasingBounded(KeptLines(lines), |lines|);
  }

  /** A strictly increasing sequence of positions below `n` has at most `n` elements. */
  lemma {:induction false} IncreasingBounded(s: seq<nat>, n: nat)
    requires forall k :: 0 <= k < |s| ==> s[k] < n
    requires forall k, l :: 0 <= k < l < |s| ==> s[k] < s[l]
    ensures |s| <= n
  {
    if s != [] {
      var m := s[|s| - 1];
      IncreasingBounded(s[..|s| - 1], m);
    }
  }

  /** Every candidate is non-empty and already stripped, so stripping it again changes nothing. */
  lemma PasswordsAreStripped(lines: seq<string>)
    ensures forall k :: 0 <= k < |LoadPasswords(lines)| ==>
      LoadPasswords(lines)[k] != "" && Strip(LoadPasswords(lines)[k]) == LoadPasswords(lines)[k]
  {
    LoadFromSelects(lines, 0);
    forall k | 0 <= k < |LoadPasswords(lines)|
      ensures LoadPasswords(lines)[k] != "" && Strip(LoadPasswords(lines)[k]) == LoadPasswords(lines)[k]
    {
      var i := KeptLines(lines)[k];
      assert i in KeptLines(lines);
      StripCharsIdempotent(lines[i], Whitespace);
    }
  }
}
