/** The string operations the pipeline relies on, with Python's meaning:
    `str.isspace`, `str.strip`, `str.split()` without arguments,
    `str.replace(pat, "")` and the substring test `in`. */
module Text {
  import opened Wrappers

  /** A present, non-empty text: Python's truthiness of a string or `None`. */
  predicate NonEmpty(text: Option<string>) {
    text.Some? && text.value != ""
  }

  /** Python's `str.isspace` for one character: the ASCII separators
      and control whitespace, and the Unicode space separators. */
  predicate IsSpace(c: char) {
    var n := c as int;
    || 9 <= n <= 13
    || 28 <= n <= 32
    || n == 0x85 || n == 0xA0 || n == 0x1680
    || 0x2000 <= n <= 0x200A
    || n == 0x2028 || n == 0x2029 || n == 0x202F || n == 0x205F
    || n == 0x3000
  }

  predicate AllSpace(s: string) {
    forall k :: 0 <= k < |s| ==> IsSpace(s[k])
  }

  predicate NoSpace(s: string) {
    forall k :: 0 <= k < |s| ==> !IsSpace(s[k])
  }

  /** The index of the first non-space character of `s` at or after `i`
      (or `|s|` when there is none). */
  function SkipSpaces(s: string, i: nat): (j: nat)
    requires i <= |s|
    ensures i <= j <= |s|
    ensures forall k :: i <= k < j ==> IsSpace(s[k])
    ensures j == |s| || !IsSpace(s[j])
    decreases |s| - i
  {
    if i < |s| && IsSpace(s[i]) then SkipSpaces(s, i + 1) else i
  }

  /** The index just past the last non-space character of `s` that lies at
      or after `lo` (or `lo` when there is none before `j`). */
  function SkipSpacesBack(s: string, lo: nat, j: nat): (e: nat)
    requires lo <= j <= |s|
    ensures lo <= e <= j
    ensures forall k :: e <= k < j ==> IsSpace(s[k])
    ensures e == lo || !IsSpace(s[e - 1])
    decreases j - lo
  {
    if lo < j && IsSpace(s[j - 1]) then SkipSpacesBack(s, lo, j - 1) else j
  }

  /** Python's `s.strip()`: the slice of `s` left once the leading and the
      trailing whitespace are cut off. */
  function Strip(s: string): (r: string)
    ensures exists i, j {:trigger s[i..j]} ::
              && 0 <= i <= j <= |s| && r == s[i..j]
              && (forall k :: 0 <= k < i ==> IsSpace(s[k]))
              && (forall k :: j <= k < |s| ==> IsSpace(s[k]))
    ensures r == [] || (!IsSpace(r[0]) && !IsSpace(r[|r| - 1]))
    ensures (s == [] || (!IsSpace(s[0]) && !IsSpace(s[|s| - 1]))) ==> r == s
    ensures r == [] <==> AllSpace(s)
  {
    var i := SkipSpaces(s, 0);
    var j := SkipSpacesBack(s, i, |s|);
    assert i < j ==> s[i..j][0] == s[i] && s[i..j][j - i - 1] == s[j - 1];
    assert s != [] && !IsSpace(s[0]) && !IsSpace(s[|s| - 1]) ==> i == 0 && j == |s|;
    s[i..j]
  }

  /** `s` begins with `p`. */
  predicate StartsWith(s: string, p: string) {
    |p| <= |s| && s[..|p|] == p
  }

  /** Python's `p in s`: `p` occurs somewhere in `s`. */
  predicate Contains(s: string, p: string)
    decreases |s|
  {
    StartsWith(s, p) || (|s| > 0 && Contains(s[1..], p))
  }

  /** Python's `s.replace(p, "")`: occurrences are found left to right and do
      not overlap. */
  function RemoveAll(s: string, p: string): string
    requires |p| > 0
    decreases |s|
  {
    if |s| < |p| then s
    else if s[..|p|] == p then RemoveAll(s[|p|..], p)
    else [s[0]] + RemoveAll(s[1..], p)
  }

  /** Text in which `p` does not occur is left as it is. */
  lemma {:induction false} RemoveAllAbsent(s: string, p: string)
    requires |p| > 0 && !Contains(s, p)
    ensures RemoveAll(s, p) == s
    decreases |s|
  {
    if |s| >= |p| {
      assert !StartsWith(s, p);
      RemoveAllAbsent(s[1..], p);
    }
  }

  const Fence: string := "```"

  /** A first character that is not a backtick survives the removal of
      fences. */
  lemma HeadSurvives(t: string)
    requires |t| > 0 && t[0] != '`'
    ensures var r := RemoveAll(t, Fence); |r| > 0 && r[0] == t[0]
  {
    if |t| >= 3 {
      assert t[..3] != Fence by { assert t[..3][0] != Fence[0]; }
    }
  }

  lemma {:induction false} ShortNoContains(s: string, p: string)
    requires |s| < |p|
    ensures !Contains(s, p)
    decreases |s|
  {
    if |s| > 0 {
      ShortNoContains(s[1..], p);
    }
  }

  /** After removing every fence, no fence is left: a removal never glues two
      backtick runs into a new fence, because the character kept just before
      a removed fence is never a backtick. */
  lemma {:induction false} RemoveFencesLeavesNone(s: string)
    ensures !Contains(RemoveAll(s, Fence), Fence)
    decreases |s|
  {
    var r := RemoveAll(s, Fence);
    if |s| < 3 {
      ShortNoContains(s, Fence);
    } else if s[..3] == Fence {
      RemoveFencesLeavesNone(s[3..]);
    } else {
      var t := s[1..];
      var r' := RemoveAll(t, Fence);
      assert r == [s[0]] + r';
      RemoveFencesLeavesNone(t);
      assert r[1..] == r';
      if s[0] == '`' {
        if t[0] != '`' {
          HeadSurvives(t);
        } else {
          assert s[..3] == [s[0], s[1], s[2]];
          assert t[1] != '`';
          if |t| >= 3 {
            assert t[..3] != Fence by { assert t[..3][1] != Fence[1]; }
            assert r' == [t[0]] + RemoveAll(t[1..], Fence);
            HeadSurvives(t[1..]);
          }
          assert r'[1] != '`';
        }
      }
      assert !StartsWith(r, Fence);
    }
  }

  /** The length of the run of non-space characters that starts `s`. */
  function WordLength(s: string): (n: nat)
    ensures n <= |s| && NoSpace(s[..n])
    ensures n == |s| || IsSpace(s[n])
    decreases |s|
  {
    if |s| == 0 || IsSpace(s[0]) then 0
    else
      var n := 1 + WordLength(s[1..]);
      assert s[..n] == [s[0]] + s[1..][..n - 1];
      n
  }

  /** Python's `s.split()`: the maximal runs of non-space characters, in
      order; runs of whitespace of any length separate them. */
  function Words(s: string): (ws: seq<string>)
    ensures forall i :: 0 <= i < |ws| ==> |ws[i]| > 0 && NoSpace(ws[i])
    decreases |s|
  {
    if s == [] then []
    else if IsSpace(s[0]) then Words(s[1..])
    else
      var n := WordLength(s);
      [s[..n]] + Words(s[n..])
  }

  /** A single run of non-space characters is one word, itself. */
  lemma {:induction false} WordsOfWord(w: string)
    requires w != [] && NoSpace(w)
    ensures Words(w) == [w]
  {
    WordLengthOfWord(w);
    assert !IsSpace(w[0]);
    assert w[..|w|] == w && w[|w|..] == [];
    assert Words(w) == [w[..|w|]] + Words(w[|w|..]);
  }

  lemma {:induction false} WordLengthOfWord(w: string)
    requires NoSpace(w)
    ensures WordLength(w) == |w|
    decreases |w|
  {
    if w != [] {
      assert NoSpace(w[1..]) by {
        forall k | 0 <= k < |w[1..]| ensures !IsSpace(w[1..][k]) { assert w[1..][k] == w[k + 1]; }
      }
      WordLengthOfWord(w[1..]);
    }
  }

  /** The words joined with single spaces, `" ".join(ws)`. */
  function JoinWords(ws: seq<string>): string
    decreases |ws|
  {
    if ws == [] then ""
    else if |ws| == 1 then ws[0]
    else ws[0] + " " + JoinWords(ws[1..])
  }

  /** Splitting words joined by single spaces gives those words back. */
  lemma {:induction false} WordsOfJoinWords(ws: seq<string>)
    requires forall i :: 0 <= i < |ws| ==> ws[i] != [] && NoSpace(ws[i])
    ensures Words(JoinWords(ws)) == ws
    decreases |ws|
  {
    if |ws| == 1 {
      WordsOfWord(ws[0]);
    } else if |ws| > 1 {
      WordsOfWord(ws[0]);
      WordsOfJoinWords(ws[1..]);
      WordsOfJoin(ws[0], JoinWords(ws[1..]));
      assert ws == [ws[0]] + ws[1..];
    }
  }

  /** No words at all exactly when the text is blank. */
  lemma {:induction false} WordsEmptyIffBlank(s: string)
    ensures Words(s) == [] <==> AllSpace(s)
    decreases |s|
  {
    if s != [] {
      if IsSpace(s[0]) {
        WordsEmptyIffBlank(s[1..]);
        assert AllSpace(s) <==> AllSpace(s[1..]) by {
          if AllSpace(s[1..]) {
            forall k | 0 <= k < |s| ensures IsSpace(s[k]) {
              if k > 0 { assert s[k] == s[1..][k - 1]; }
            }
          }
        }
      }
    }
  }

  lemma {:induction false} WordLengthStopsAtSpace(a: string, t: string)
    requires |t| > 0 && IsSpace(t[0])
    ensures WordLength(a + t) == WordLength(a)
    decreases |a|
  {
    if |a| == 0 {
      assert a + t == t;
    } else if !IsSpace(a[0]) {
      assert (a + t)[1..] == a[1..] + t;
      WordLengthStopsAtSpace(a[1..], t);
    }
  }

  /** Splitting two texts joined by a space yields the words of the first
      followed by the words of the second. */
  lemma {:induction false} WordsOfJoin(a: string, b: string)
    ensures Words(a + " " + b) == Words(a) + Words(b)
    decreases |a|
  {
    var s := a + " " + b;
    if a == [] {
      assert s == [' '] + b;
      assert s[1..] == b;
    } else if IsSpace(a[0]) {
      assert s[1..] == a[1..] + " " + b;
      WordsOfJoin(a[1..], b);
    } else {
      assert a + " " + b == a + (" " + b);
      WordLengthStopsAtSpace(a, " " + b);
      var n := WordLength(a);
      assert s[..n] == a[..n];
      assert s[n..] == a[n..] + " " + b;
      WordsOfJoin(a[n..], b);
    }
  }
}
