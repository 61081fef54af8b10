/**
 * The string helpers of main.go: `chomp` (three nested calls of Go's `strings.Trim`) and
 * the expansion of the two-byte escape `\n` into a line feed that is applied, with Go's
 * `strings.Replace` and no limit on the count, to the rendered description.
 *
 * Every cutset used by the handler is ASCII, and Go trims ASCII cutsets byte by byte,
 * so trimming is modelled on bytes.
 */
module Text {
  import opened ByteStrings

  const LINE_BREAKS: set<byte> := {CARRIAGE_RETURN, LINE_FEED}

  // ---------------------------------------------------------------------------
  // strings.Trim
  // ---------------------------------------------------------------------------

  /** `strings.TrimLeft`: drop the longest prefix made of bytes in `cut`. */
  function TrimLeft(s: Bytes, cut: set<byte>): Bytes {
    if |s| > 0 && s[0] in cut then TrimLeft(s[1..], cut) else s
  }

  /** `strings.TrimRight`: drop the longest suffix made of bytes in `cut`. */
  function TrimRight(s: Bytes, cut: set<byte>): Bytes {
    if |s| > 0 && s[|s| - 1] in cut then TrimRight(s[..|s| - 1], cut) else s
  }

  /** The left trim keeps a suffix, drops only bytes of `cut`, and stops at the first other byte. */
  lemma {:induction false} TrimLeftKeepsSuffix(s: Bytes, cut: set<byte>)
    ensures var r := TrimLeft(s, cut);
      && |r| <= |s| && r == s[|s| - |r|..]
      && (forall i :: 0 <= i < |s| - |r| ==> s[i] in cut)
      && (|r| > 0 ==> r[0] !in cut)
  {
    if |s| > 0 && s[0] in cut {
      TrimLeftKeepsSuffix(s[1..], cut);
      var r := TrimLeft(s, cut);
      forall i | 0 <= i < |s| - |r| ensures s[i] in cut {
        if i > 0 { assert s[i] == s[1..][i - 1]; }
      }
    }
  }

  /** The right trim keeps a prefix, drops only bytes of `cut`, and stops at the last other byte. */
  lemma {:induction false} TrimRightKeepsPrefix(s: Bytes, cut: set<byte>)
    ensures var r := TrimRight(s, cut);
      && |r| <= |s| && r == s[..|r|]
      && (forall i :: |r| <= i < |s| ==> s[i] in cut)
      && (|r| > 0 ==> r[|r| - 1] !in cut)
  {
    if |s| > 0 && s[|s| - 1] in cut {
      TrimRightKeepsPrefix(s[..|s| - 1], cut);
      var r := TrimRight(s, cut);
      forall i | |r| <= i < |s| ensures s[i] in cut {
        if i < |s| - 1 { assert s[i] == s[..|s| - 1][i]; }
      }
    }
  }

  /**
   * `s[lo..hi]` is what is left of `s` once every leading and trailing byte in `cut`
   * is removed: everything outside is in `cut`, and the kept part neither starts nor
   * ends with a byte of `cut`.
   */
  ghost predicate TrimBounds(s: Bytes, cut: set<byte>, lo: int, hi: int) {
    && 0 <= lo <= hi <= |s|
    && (forall i :: 0 <= i < lo ==> s[i] in cut)
    && (forall i :: hi <= i < |s| ==> s[i] in cut)
    && (lo < hi ==> s[lo] !in cut && s[hi - 1] !in cut)
  }

  /** `r` is `s` with its leading and trailing bytes from `cut` removed. */
  ghost predicate IsTrimOf(r: Bytes, s: Bytes, cut: set<byte>) {
    exists lo, hi :: TrimBounds(s, cut, lo, hi) && r == s[lo..hi]
  }

  /** `strings.Trim(s, cut)`, which Go computes as a left trim followed by a right trim. */
  function Trim(s: Bytes, cut: set<byte>): (r: Bytes)
    ensures IsTrimOf(r, s, cut)
  {
    var t := TrimLeft(s, cut);
    var r := TrimRight(t, cut);
    TrimLeftKeepsSuffix(s, cut);
    TrimRightKeepsPrefix(t, cut);
    var lo := |s| - |t|;
    assert r == s[lo..lo + |r|];
    assert TrimBounds(s, cut, lo, lo + |r|) by {
      forall i | lo + |r| <= i < |s| ensures s[i] in cut {
        assert s[i] == t[i - lo];
      }
      if |r| > 0 {
        assert s[lo] == t[0] == r[0];
      }
    }
    r
  }

  /** Trimming has exactly one outcome. */
  lemma TrimUnique(r1: Bytes, r2: Bytes, s: Bytes, cut: set<byte>)
    requires IsTrimOf(r1, s, cut) && IsTrimOf(r2, s, cut)
    ensures r1 == r2
  {
    var lo1, hi1 :| TrimBounds(s, cut, lo1, hi1) && r1 == s[lo1..hi1];
    var lo2, hi2 :| TrimBounds(s, cut, lo2, hi2) && r2 == s[lo2..hi2];
    // The first and last kept bytes are outside the cutset, so neither trim can keep
    // a byte the other one drops.
    if lo1 < hi1 { assert s[lo1] !in cut && s[hi1 - 1] !in cut; }
    if lo2 < hi2 { assert s[lo2] !in cut && s[hi2 - 1] !in cut; }
  }

  /**
   * Trimming a trim with a larger cutset is the same as trimming the original with
   * that larger cutset.
   */
  lemma TrimCompose(r: Bytes, t: Bytes, s: Bytes, inner: set<byte>, outer: set<byte>)
    requires inner <= outer
    requires IsTrimOf(t, s, inner) && IsTrimOf(r, t, outer)
    ensures IsTrimOf(r, s, outer)
  {
    var lo1, hi1 :| TrimBounds(s, inner, lo1, hi1) && t == s[lo1..hi1];
    var lo2, hi2 :| TrimBounds(t, outer, lo2, hi2) && r == t[lo2..hi2];
    TrimBoundsCompose(s, inner, outer, lo1, hi1, lo2, hi2);
    SliceOfSlice(s, lo1, hi1, lo2, hi2);
  }

  lemma SliceOfSlice(s: Bytes, lo1: int, hi1: int, lo2: int, hi2: int)
    requires 0 <= lo1 <= hi1 <= |s| && 0 <= lo2 <= hi2 <= hi1 - lo1
    ensures s[lo1..hi1][lo2..hi2] == s[lo1 + lo2..lo1 + hi2]
  {
    var t := s[lo1..hi1];
    forall k | 0 <= k < hi2 - lo2 ensures t[lo2..hi2][k] == s[lo1 + lo2..lo1 + hi2][k] {
      assert t[lo2..hi2][k] == t[lo2 + k] == s[lo1 + lo2 + k];
    }
  }

  lemma TrimBoundsCompose(s: Bytes, inner: set<byte>, outer: set<byte>, lo1: int, hi1: int, lo2: int, hi2: int)
    requires inner <= outer
    requires TrimBounds(s, inner, lo1, hi1) && TrimBounds(s[lo1..hi1], outer, lo2, hi2)
    ensures TrimBounds(s, outer, lo1 + lo2, lo1 + hi2)
  {
    var t := s[lo1..hi1];
    forall i | 0 <= i < lo1 + lo2 ensures s[i] in outer {
      if i >= lo1 { assert s[i] == t[i - lo1]; }
    }
    forall i | lo1 + hi2 <= i < |s| ensures s[i] in outer {
      if i < hi1 { assert s[i] == t[i - lo1]; }
    }
    if lo2 < hi2 {
      assert s[lo1 + lo2] == t[lo2] && s[lo1 + hi2 - 1] == t[hi2 - 1];
    }
  }

  /** A string that neither starts nor ends with a byte of `cut` is its own trim. */
  lemma TrimOfClean(s: Bytes, cut: set<byte>)
    requires |s| > 0 ==> s[0] !in cut && s[|s| - 1] !in cut
    ensures IsTrimOf(s, s, cut)
  {
    assert TrimBounds(s, cut, 0, |s|) && s == s[0..|s|];
  }

  // ---------------------------------------------------------------------------
  // chomp (main.go:128-130)
  // ---------------------------------------------------------------------------

  /**
   * `chomp` trims line feeds, then carriage returns, then both: together the three trims
   * remove every leading and trailing carriage return and line feed.
   */
  function Chomp(s: Bytes): (r: Bytes)
    ensures IsTrimOf(r, s, LINE_BREAKS)
  {
    var t1 := Trim(s, {LINE_FEED});
    var t2 := Trim(t1, {CARRIAGE_RETURN});
    var r := Trim(t2, LINE_BREAKS);
    TrimCompose(r, t2, t1, {CARRIAGE_RETURN}, LINE_BREAKS);
    TrimCompose(r, t1, s, {LINE_FEED}, LINE_BREAKS);
    r
  }

  /** The nested trims of `chomp` amount to a single trim with the cutset "\r\n". */
  lemma ChompIsTrim(s: Bytes)
    ensures Chomp(s) == Trim(s, LINE_BREAKS)
  {
    TrimUnique(Chomp(s), Trim(s, LINE_BREAKS), s, LINE_BREAKS);
  }

  /**
   * A trim keeps one contiguous piece of its input, unchanged; all it drops are bytes
   * of the cutset, and the piece it keeps neither starts nor ends with one.
   */
  lemma TrimShape(r: Bytes, s: Bytes, cut: set<byte>)
    requires IsTrimOf(r, s, cut)
    ensures |r| <= |s|
    ensures exists lo, hi :: 0 <= lo <= hi <= |s| && r == s[lo..hi]
    ensures |r| > 0 ==> r[0] !in cut && r[|r| - 1] !in cut
    ensures r == [] <==> forall i :: 0 <= i < |s| ==> s[i] in cut
  {
    var lo, hi :| TrimBounds(s, cut, lo, hi) && r == s[lo..hi];
    if r == [] {
      assert lo == hi;
    } else {
      assert r[0] == s[lo] && r[|r| - 1] == s[hi - 1];
    }
  }

  /** `chomp` keeps a contiguous piece of its input and drops only line breaks around it. */
  lemma ChompShape(s: Bytes)
    ensures |Chomp(s)| <= |s|
    ensures exists lo, hi :: 0 <= lo <= hi <= |s| && Chomp(s) == s[lo..hi]
    ensures |Chomp(s)| > 0 ==> Chomp(s)[0] !in LINE_BREAKS && Chomp(s)[|Chomp(s)| - 1] !in LINE_BREAKS
    ensures Chomp(s) == [] <==> forall i :: 0 <= i < |s| ==> s[i] in LINE_BREAKS
  {
    TrimShape(Chomp(s), s, LINE_BREAKS);
  }

  /** `chomp` leaves a string without leading or trailing line breaks untouched. */
  lemma ChompClean(s: Bytes)
    requires |s| > 0 ==> s[0] !in LINE_BREAKS && s[|s| - 1] !in LINE_BREAKS
    ensures Chomp(s) == s
  {
    TrimOfClean(s, LINE_BREAKS);
    TrimUnique(Chomp(s), s, s, LINE_BREAKS);
  }

  /** `chomp(chomp(s)) == chomp(s)`. */
  lemma ChompIdempotent(s: Bytes)
    ensures Chomp(Chomp(s)) == Chomp(s)
  {
    ChompShape(s);
    ChompClean(Chomp(s));
  }

  // ---------------------------------------------------------------------------
  // The `\n` escape expansion (main.go:180)
  // ---------------------------------------------------------------------------

  /** The two bytes `\` `n` start at index i of s. */
  predicate EscapeAt(s: Bytes, i: int)
    requires 0 <= i
  {
    i + 1 < |s| && s[i] == BACKSLASH && s[i + 1] == LOWER_N
  }

  /** s contains no `\` `n` pair anywhere. */
  predicate NoEscapes(s: Bytes) {
    forall i :: 0 <= i < |s| ==> !EscapeAt(s, i)
  }

  /** The number of positions where a `\` `n` pair starts, counted independently of any scan. */
  function EscapeCount(s: Bytes): (n: nat)
    ensures n == 0 <==> NoEscapes(s)
  {
    if |s| < 2 then 0
    else
      NoEscapesUncons(s);
      (if EscapeAt(s, 0) then 1 else 0) + EscapeCount(s[1..])
  }

  lemma NoEscapesUncons(s: Bytes)
    requires |s| > 0
    ensures NoEscapes(s) <==> !EscapeAt(s, 0) && NoEscapes(s[1..])
  {
    if NoEscapes(s) {
      forall j | 0 <= j < |s[1..]| ensures !EscapeAt(s[1..], j) {
        assert !EscapeAt(s, j + 1);
      }
    }
    if !EscapeAt(s, 0) && NoEscapes(s[1..]) {
      forall i | 0 <= i < |s| ensures !EscapeAt(s, i) {
        if i > 0 { assert !EscapeAt(s[1..], i - 1); }
      }
    }
  }

  /**
   * The expansion of `\n` escapes: scanning from the left, every non-overlapping `\` `n`
   * pair becomes one line feed; every other byte is copied.
   */
  function ExpandNewlineEscapes(s: Bytes): (r: Bytes)
    ensures |r| <= |s|
  {
    if |s| < 2 then s
    else if EscapeAt(s, 0) then [LINE_FEED] + ExpandNewlineEscapes(s[2..])
    else [s[0]] + ExpandNewlineEscapes(s[1..])
  }

  /** The first byte of the expansion: a line feed for a leading pair, else the first byte. */
  lemma ExpandHead(s: Bytes)
    requires |s| > 0
    ensures |ExpandNewlineEscapes(s)| > 0
    ensures ExpandNewlineEscapes(s)[0] == if EscapeAt(s, 0) then LINE_FEED else s[0]
  {
  }

  /** A pair at the front is not also counted one byte later: `n` cannot start a pair. */
  lemma EscapeCountAfterPair(s: Bytes)
    requires |s| >= 2 && EscapeAt(s, 0)
    ensures EscapeCount(s) == 1 + EscapeCount(s[2..])
  {
    assert !EscapeAt(s[1..], 0);
    assert s[1..][1..] == s[2..];
  }

  /** Each replacement shortens the string by one byte. */
  lemma {:induction false} ExpandLength(s: Bytes)
    ensures |ExpandNewlineEscapes(s)| == |s| - EscapeCount(s)
  {
    if |s| < 2 {
    } else if EscapeAt(s, 0) {
      EscapeCountAfterPair(s);
      ExpandLength(s[2..]);
    } else {
      ExpandLength(s[1..]);
    }
  }

  /** Each replacement adds exactly one line feed. */
  lemma {:induction false} ExpandLineFeeds(s: Bytes)
    ensures Count(ExpandNewlineEscapes(s), LINE_FEED) == Count(s, LINE_FEED) + EscapeCount(s)
  {
    if |s| < 2 {
    } else if EscapeAt(s, 0) {
      EscapeCountAfterPair(s);
      ExpandLineFeeds(s[2..]);
      assert ([LINE_FEED] + ExpandNewlineEscapes(s[2..]))[1..] == ExpandNewlineEscapes(s[2..]);
      assert s[1..][1..] == s[2..];
    } else {
      ExpandLineFeeds(s[1..]);
      assert ([s[0]] + ExpandNewlineEscapes(s[1..]))[1..] == ExpandNewlineEscapes(s[1..]);
    }
  }

  /** Each replacement removes exactly one backslash. */
  lemma {:induction false} ExpandBackslashes(s: Bytes)
    ensures Count(ExpandNewlineEscapes(s), BACKSLASH) == Count(s, BACKSLASH) - EscapeCount(s)
  {
    if |s| < 2 {
    } else if EscapeAt(s, 0) {
      EscapeCountAfterPair(s);
      ExpandBackslashes(s[2..]);
      assert ([LINE_FEED] + ExpandNewlineEscapes(s[2..]))[1..] == ExpandNewlineEscapes(s[2..]);
      assert s[1..][1..] == s[2..];
    } else {
      ExpandBackslashes(s[1..]);
      assert ([s[0]] + ExpandNewlineEscapes(s[1..]))[1..] == ExpandNewlineEscapes(s[1..]);
    }
  }

  /** No `\` `n` pair survives the expansion, not even one formed across a replacement. */
  lemma {:induction false} ExpandLeavesNoEscapes(s: Bytes)
    ensures NoEscapes(ExpandNewlineEscapes(s))
  {
    var r := ExpandNewlineEscapes(s);
    if |s| < 2 {
      assert r == s;
      if |s| == 1 { assert !EscapeAt(r, 0); }
    } else if EscapeAt(s, 0) {
      var rest := ExpandNewlineEscapes(s[2..]);
      ExpandLeavesNoEscapes(s[2..]);
      forall i | 0 <= i < |r| ensures !EscapeAt(r, i) {
        if i > 0 { assert EscapeAt(r, i) ==> EscapeAt(rest, i - 1); }
      }
    } else {
      var rest := ExpandNewlineEscapes(s[1..]);
      ExpandLeavesNoEscapes(s[1..]);
      ExpandHead(s[1..]);
      assert !EscapeAt(s[1..], 0) || s[1] != LOWER_N;
      forall i | 0 <= i < |r| ensures !EscapeAt(r, i) {
        if i > 0 { assert EscapeAt(r, i) ==> EscapeAt(rest, i - 1); }
      }
    }
  }

  /** The expansion changes a string exactly when it holds a `\` `n` pair. */
  lemma ExpandUnchangedIff(s: Bytes)
    ensures ExpandNewlineEscapes(s) == s <==> NoEscapes(s)
  {
    ExpandLength(s);
    ExpandLeavesNoEscapes(s);
  }

  /** Expanding twice is expanding once. */
  lemma ExpandIdempotent(s: Bytes)
    ensures ExpandNewlineEscapes(ExpandNewlineEscapes(s)) == ExpandNewlineEscapes(s)
  {
    ExpandLeavesNoEscapes(s);
    ExpandUnchangedIff(ExpandNewlineEscapes(s));
  }

  /** How a template author writes a line break: every line feed as the two bytes `\` `n`. */
  function EscapeNewlines(t: Bytes): (s: Bytes)
    ensures |s| == |t| + Count(t, LINE_FEED)
    ensures LINE_FEED !in s
  {
    if t == [] then []
    else if t[0] == LINE_FEED then [BACKSLASH, LOWER_N] + EscapeNewlines(t[1..])
    else [t[0]] + EscapeNewlines(t[1..])
  }

  /**
   * The expansion undoes `EscapeNewlines` on every text that does not itself contain a
   * literal `\` `n` pair.
   */
  lemma {:induction false} ExpandUndoesEscape(t: Bytes)
    requires NoEscapes(t)
    ensures ExpandNewlineEscapes(EscapeNewlines(t)) == t
  {
    if t != [] {
      var rest := EscapeNewlines(t[1..]);
      assert NoEscapes(t[1..]) by {
        forall i | 0 <= i < |t[1..]| ensures !EscapeAt(t[1..], i) {
          assert !EscapeAt(t, i + 1);
        }
      }
      ExpandUndoesEscape(t[1..]);
      if t[0] == LINE_FEED {
        assert ([BACKSLASH, LOWER_N] + rest)[2..] == rest;
      } else {
        var s := [t[0]] + rest;
        assert s[1..] == rest;
        if |s| >= 2 {
          assert s[1] == rest[0];
          assert rest[0] == LOWER_N ==> t[1] == LOWER_N;
          assert !EscapeAt(t, 0);
        } else {
          assert t[1..] == [];
        }
      }
    }
  }
}
