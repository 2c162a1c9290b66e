/** The JavaScript string operations the analysis endpoint relies on:
    `trim()` and `split(/\s+/)`. Both use the same notion of white space:
    the WhiteSpace and LineTerminator code points of ECMAScript. */
module Words {

  predicate IsSpace(c: char) {
    var n := c as int;
    (9 <= n <= 13) || n == 32 || n == 160 || n == 5760 || (8192 <= n <= 8202)
    || n == 8232 || n == 8233 || n == 8239 || n == 8287 || n == 12288 || n == 65279
  }

  predicate NoSpace(s: string) {
    forall i :: 0 <= i < |s| ==> !IsSpace(s[i])
  }

  predicate AllSpace(s: string) {
    forall i :: 0 <= i < |s| ==> IsSpace(s[i])
  }

  /** Neither end of `s` is white space. */
  predicate Trimmed(s: string) {
    s == [] || (!IsSpace(s[0]) && !IsSpace(s[|s| - 1]))
  }

  /** Index of the first white-space character at or after `i`, or |s|. */
  function SpaceFrom(s: string, i: nat): (j: nat)
    requires i <= |s|
    ensures i <= j <= |s|
    ensures NoSpace(s[i..j])
    ensures j < |s| ==> IsSpace(s[j])
    decreases |s| - i
  {
    if i == |s| || IsSpace(s[i]) then i else SpaceFrom(s, i + 1)
  }

  /** Index of the first non-white-space character at or after `i`, or |s|. */
  function NonSpaceFrom(s: string, i: nat): (j: nat)
    requires i <= |s|
    ensures i <= j <= |s|
    ensures AllSpace(s[i..j])
    ensures j < |s| ==> !IsSpace(s[j])
    decreases |s| - i
  {
    if i == |s| || !IsSpace(s[i]) then i else NonSpaceFrom(s, i + 1)
  }

  /** Index just past the last non-white-space character before `j`, or 0. */
  function NonSpaceEnd(s: string, j: nat): (k: nat)
    requires j <= |s|
    ensures k <= j
    ensures AllSpace(s[k..j])
    ensures k > 0 ==> !IsSpace(s[k - 1])
    decreases j
  {
    if j == 0 || !IsSpace(s[j - 1]) then j
    else
      var k := NonSpaceEnd(s, j - 1);
      assert s[k..j] == s[k..j - 1] + [s[j - 1]];
      k
  }

  /** A non-space character before `k` stays before the cut `NonSpaceEnd`
      makes at `k`. */
  lemma {:induction false} NonSpaceEndPast(s: string, i: nat, k: nat)
    requires i < k <= |s| && !IsSpace(s[i])
    ensures i < NonSpaceEnd(s, k)
    decreases k
  {
    if IsSpace(s[k - 1]) {
      NonSpaceEndPast(s, i, k - 1);
    }
  }

  /** The leading run `Trim` cuts ends at `NonSpaceFrom(s, 0)`; it is the
      whole text exactly when the text is all white space. */
  lemma LeadingRun(s: string)
    ensures var i := NonSpaceFrom(s, 0);
            AllSpace(s[..i]) && (i == |s| <==> AllSpace(s))
  {
    var i := NonSpaceFrom(s, 0);
    assert s[..i] == s[0..i];
    assert s[0..|s|] == s;
  }

  /** The trailing run `Trim` cuts starts at `NonSpaceEnd(s, |s|)`. */
  lemma TrailingRun(s: string)
    ensures AllSpace(s[NonSpaceEnd(s, |s|)..])
  {
    var j := NonSpaceEnd(s, |s|);
    assert s[j..] == s[j..|s|];
  }

  /** Unless the text is all white space, the two cuts leave a non-space
      character at each end of what lies between them. */
  lemma TrimBounds(s: string)
    ensures var i, j := NonSpaceFrom(s, 0), NonSpaceEnd(s, |s|);
            AllSpace(s[..i]) && AllSpace(s[j..])
            && (i == |s| <==> AllSpace(s))
            && (i < |s| ==> i < j && !IsSpace(s[i]) && !IsSpace(s[j - 1]))
  {
    LeadingRun(s);
    TrailingRun(s);
    var i := NonSpaceFrom(s, 0);
    if i < |s| {
      NonSpaceEndPast(s, i, |s|);
    }
  }

  /** `s.trim()`: white space is removed at both ends and nowhere else. */
  function Trim(s: string): (r: string)
    ensures exists i, j :: 0 <= i <= j <= |s| && r == s[i..j] && AllSpace(s[..i]) && AllSpace(s[j..])
    ensures Trimmed(r)
    ensures r == [] <==> AllSpace(s)
  {
    var i, j := NonSpaceFrom(s, 0), NonSpaceEnd(s, |s|);
    TrimBounds(s);
    if i == |s| then
      assert [] == s[i..i] && s[i..] == [];
      []
    else
      var r := s[i..j];
      assert r[0] == s[i] && r[|r| - 1] == s[j - 1];
      r
  }

  /** Text that is already trimmed is left as it is. */
  lemma TrimOfTrimmed(s: string)
    requires Trimmed(s)
    ensures Trim(s) == s
  {
    if s != [] {
      assert NonSpaceFrom(s, 0) == 0;
      assert NonSpaceEnd(s, |s|) == |s|;
    }
  }

  /** `s.split(/\s+/)`: the pieces between maximal runs of white space.
      Like JavaScript, "" gives [""] and a leading or trailing run gives an
      empty piece at that end. */
  function Split(s: string): (pieces: seq<string>)
    ensures |pieces| >= 1
    ensures NoSpace(s) ==> pieces == [s]
    decreases |s|
  {
    var i := SpaceFrom(s, 0);
    if i == |s| then [s]
    else [s[..i]] + Split(s[NonSpaceFrom(s, i)..])
  }

  /** The characters of `s` that are not white space, in order. */
  function Visible(s: string): (r: string)
    ensures NoSpace(r)
  {
    if s == [] then [] else (if IsSpace(s[0]) then [] else [s[0]]) + Visible(s[1..])
  }

  function Concat(pieces: seq<string>): string {
    if pieces == [] then [] else pieces[0] + Concat(pieces[1..])
  }

  lemma {:induction false} VisibleAppend(a: string, b: string)
    ensures Visible(a + b) == Visible(a) + Visible(b)
    decreases |a|
  {
    if a != [] {
      assert (a + b)[0] == a[0];
      assert (a + b)[1..] == a[1..] + b;
      VisibleAppend(a[1..], b);
    } else {
      assert a + b == b;
    }
  }

  lemma {:induction false} VisibleOfNoSpace(s: string)
    requires NoSpace(s)
    ensures Visible(s) == s
    decreases |s|
  {
    if s != [] { VisibleOfNoSpace(s[1..]); }
  }

  lemma {:induction false} VisibleOfAllSpace(s: string)
    requires AllSpace(s)
    ensures Visible(s) == []
    decreases |s|
  {
    if s != [] { VisibleOfAllSpace(s[1..]); }
  }

  /** Splitting loses exactly the white space: gluing the pieces back
      together gives the visible characters of the input. */
  lemma {:induction false} SplitKeepsVisible(s: string)
    ensures Concat(Split(s)) == Visible(s)
    decreases |s|
  {
    var i := SpaceFrom(s, 0);
    if i == |s| {
      assert s[0..i] == s;
      VisibleOfNoSpace(s);
    } else {
      var j := NonSpaceFrom(s, i);
      assert s == s[..i] + s[i..j] + s[j..];
      assert s[..i] == s[0..i];
      VisibleAppend(s[..i] + s[i..j], s[j..]);
      VisibleAppend(s[..i], s[i..j]);
      VisibleOfNoSpace(s[..i]);
      VisibleOfAllSpace(s[i..j]);
      SplitKeepsVisible(s[j..]);
      assert Split(s)[1..] == Split(s[j..]);
    }
  }

  /** The white-space run `NonSpaceFrom` skips stops at a non-space
      character that lies ahead of it. */
  lemma {:induction false} NonSpaceFromBefore(s: string, i: nat, k: nat)
    requires i <= k < |s| && !IsSpace(s[k])
    ensures NonSpaceFrom(s, i) <= k
    decreases |s| - i
  {
    if IsSpace(s[i]) {
      NonSpaceFromBefore(s, i + 1, k);
    }
  }

  /** On a trimmed text, the first white-space run lies strictly inside. */
  lemma TrimmedRunInside(s: string)
    requires s != [] && Trimmed(s) && SpaceFrom(s, 0) < |s|
    ensures 0 < SpaceFrom(s, 0) && NonSpaceFrom(s, SpaceFrom(s, 0)) < |s|
  {
    NonSpaceFromBefore(s, SpaceFrom(s, 0), |s| - 1);
  }

  /** What follows the first run of a trimmed text is trimmed and non-empty. */
  lemma TrimmedRest(s: string, j: nat)
    requires s != [] && Trimmed(s) && j < |s| && !IsSpace(s[j])
    ensures s[j..] != [] && Trimmed(s[j..])
  {
    var rest := s[j..];
    assert rest[0] == s[j] && rest[|rest| - 1] == s[|s| - 1];
  }

  /** On a trimmed text, the first piece `Split` cuts off and the text it
      goes on with. */
  lemma SplitTrimmedStep(s: string)
    requires s != [] && Trimmed(s) && SpaceFrom(s, 0) < |s|
    ensures var i := SpaceFrom(s, 0);
            var j := NonSpaceFrom(s, i);
            0 < i && j < |s| && NoSpace(s[..i])
            && Trimmed(s[j..]) && s[j..] != []
            && Split(s) == [s[..i]] + Split(s[j..])
  {
    var i := SpaceFrom(s, 0);
    TrimmedRunInside(s);
    var j := NonSpaceFrom(s, i);
    assert s[..i] == s[0..i];
    TrimmedRest(s, j);
  }

  /** On a trimmed, non-empty text every piece is a word: non-empty and
      free of white space. */
  lemma {:induction false} SplitTrimmedIntoWords(s: string)
    requires s != [] && Trimmed(s)
    ensures forall k :: 0 <= k < |Split(s)| ==> Split(s)[k] != [] && NoSpace(Split(s)[k])
    decreases |s|
  {
    var i := SpaceFrom(s, 0);
    if i == |s| {
      assert s[0..i] == s;
    } else {
      SplitTrimmedStep(s);
      var rest := s[NonSpaceFrom(s, i)..];
      SplitTrimmedIntoWords(rest);
      var pieces, tail := Split(s), Split(rest);
      forall k | 1 <= k < |pieces| ensures pieces[k] == tail[k - 1] { }
    }
  }

  /** `SpaceFrom` finds the first white space: no other index qualifies. */
  lemma {:induction false} SpaceFromIsFirst(s: string, i: nat, k: nat)
    requires i <= k <= |s|
    requires NoSpace(s[i..k]) && (k < |s| ==> IsSpace(s[k]))
    ensures SpaceFrom(s, i) == k
    decreases k - i
  {
    if i < k {
      var run := s[i..k];
      assert !IsSpace(run[0]) && run[0] == s[i];
      assert s[i + 1..k] == run[1..];
      SpaceFromIsFirst(s, i + 1, k);
    }
  }

  /** `NonSpaceFrom` finds the end of the white-space run: no other index qualifies. */
  lemma {:induction false} NonSpaceFromIsFirst(s: string, i: nat, k: nat)
    requires i <= k <= |s|
    requires AllSpace(s[i..k]) && (k < |s| ==> !IsSpace(s[k]))
    ensures NonSpaceFrom(s, i) == k
    decreases k - i
  {
    if i < k {
      var run := s[i..k];
      assert IsSpace(run[0]) && run[0] == s[i];
      assert s[i + 1..k] == run[1..];
      NonSpaceFromIsFirst(s, i + 1, k);
    }
  }

  /** `NonSpaceEnd` finds the start of the trailing white-space run. */
  lemma {:induction false} NonSpaceEndIsLast(s: string, k: nat, j: nat)
    requires k <= j <= |s|
    requires AllSpace(s[k..j]) && (k > 0 ==> !IsSpace(s[k - 1]))
    ensures NonSpaceEnd(s, j) == k
    decreases j - k
  {
    if k < j {
      var run := s[k..j];
      assert IsSpace(run[|run| - 1]) && run[|run| - 1] == s[j - 1];
      assert s[k..j - 1] == run[..|run| - 1];
      NonSpaceEndIsLast(s, k, j - 1);
    }
  }

  /** Trimming removes exactly the white space around a trimmed text. */
  lemma {:induction false} TrimPadded(lead: string, m: string, trail: string)
    requires AllSpace(lead) && AllSpace(trail) && m != [] && Trimmed(m)
    ensures Trim(lead + m + trail) == m
  {
    var s := lead + m + trail;
    var a, b := |lead|, |lead| + |m|;
    assert s[0..a] == lead && s[a..b] == m && s[b..|s|] == trail;
    assert s[a] == m[0] && s[b - 1] == m[|m| - 1];
    NonSpaceFromIsFirst(s, 0, a);
    NonSpaceEndIsLast(s, b, |s|);
  }

  /** A word, a non-empty run of white space, and text that starts with a
      non-space: the word is the first piece and the split goes on after
      the run. */
  lemma {:induction false} SplitAtRun(x: string, w: string, rest: string)
    requires NoSpace(x) && w != [] && AllSpace(w) && (rest == [] || !IsSpace(rest[0]))
    ensures Split(x + w + rest) == [x] + Split(rest)
  {
    var s := x + w + rest;
    var a, b := |x|, |x| + |w|;
    assert s[0..a] == x && s[a..b] == w && s[b..] == rest && s[..a] == x;
    assert s[a] == w[0];
    SpaceFromIsFirst(s, 0, a);
    assert b < |s| ==> s[b] == rest[0];
    NonSpaceFromIsFirst(s, a, b);
  }

  /** Words joined by runs of white space. */
  function Interleave(words: seq<string>, gaps: seq<string>): (s: string)
    requires |words| == |gaps| + 1
    ensures words[0] <= s
    ensures |words[|words| - 1]| <= |s| && s[|s| - |words[|words| - 1]|..] == words[|words| - 1]
    decreases |gaps|
  {
    if gaps == [] then
      assert words[0][0..] == words[0];
      words[0]
    else
      var rest := Interleave(words[1..], gaps[1..]);
      var last := words[|words| - 1];
      assert words[1..][|words[1..]| - 1] == last;
      var s := words[0] + gaps[0] + rest;
      assert s[|s| - |last|..] == rest[|rest| - |last|..];
      s
  }

  /** Non-empty words joined by white space form a trimmed, non-empty text. */
  lemma InterleaveTrimmed(words: seq<string>, gaps: seq<string>)
    requires |words| == |gaps| + 1
    requires forall k :: 0 <= k < |words| ==> words[k] != [] && NoSpace(words[k])
    ensures Interleave(words, gaps) != [] && Trimmed(Interleave(words, gaps))
  {
    var s := Interleave(words, gaps);
    var first, last := words[0], words[|words| - 1];
    assert s[0] == first[0];
    assert s[|s| - 1] == s[|s| - |last|..][|last| - 1] == last[|last| - 1];
  }

  /** Splitting words joined by white space gives back exactly the words:
      the split counts the whitespace-separated tokens. */
  lemma {:induction false} SplitInterleave(words: seq<string>, gaps: seq<string>)
    requires |words| == |gaps| + 1
    requires forall k :: 0 <= k < |words| ==> words[k] != [] && NoSpace(words[k])
    requires forall k :: 0 <= k < |gaps| ==> gaps[k] != [] && AllSpace(gaps[k])
    ensures Split(Interleave(words, gaps)) == words
    decreases |gaps|
  {
    if gaps != [] {
      var rest := Interleave(words[1..], gaps[1..]);
      assert words[1..][0] == words[1];
      assert rest[0] == words[1][0];
      SplitAtRun(words[0], gaps[0], rest);
      SplitInterleave(words[1..], gaps[1..]);
      assert words == [words[0]] + words[1..];
    }
  }
}
