/** The string operations the stores and the server apply: JavaScript's `\s`
    class, `toLowerCase` (on ASCII letters), `replace(/\s+/g, '_')`,
    `replace(/<literal>/g, '')` and `trim`. */
module Text {

  /** JavaScript's white space and line terminators: what `\s` matches and what
      `trim` removes. */
  predicate IsSpace(c: char) {
    var n := c as int;
    (9 <= n <= 13) || n == 32 || n == 0xA0 || n == 0x1680 || (0x2000 <= n <= 0x200A)
    || n == 0x2028 || n == 0x2029 || n == 0x202F || n == 0x205F || n == 0x3000 || n == 0xFEFF
  }

  predicate NoSpace(s: string) {
    forall i :: 0 <= i < |s| ==> !IsSpace(s[i])
  }

  // ---------------------------------------------------------------------------
  // Case folding

  function LowerChar(c: char): char {
    if 'A' <= c <= 'Z' then (c as int - 'A' as int + 'a' as int) as char else c
  }

  function Lower(s: string): (r: string)
    ensures |r| == |s|
    ensures forall i :: 0 <= i < |s| ==> r[i] == LowerChar(s[i])
  {
    seq(|s|, i requires 0 <= i < |s| => LowerChar(s[i]))
  }

  /** `a.toLowerCase() === b.toLowerCase()`, folding ASCII letters only: the
      two texts have the same length and agree letter by letter up to case. */
  function SameIgnoringCase(a: string, b: string): (r: bool)
    ensures r <==> |a| == |b| && forall i :: 0 <= i < |a| ==> LowerChar(a[i]) == LowerChar(b[i])
    ensures a == b ==> r
  {
    assert |a| == |b| && (forall i :: 0 <= i < |a| ==> LowerChar(a[i]) == LowerChar(b[i]))
           ==> Lower(a) == Lower(b) by {
      if |a| == |b| && forall i :: 0 <= i < |a| ==> LowerChar(a[i]) == LowerChar(b[i]) {
        assert forall i :: 0 <= i < |a| ==> Lower(a)[i] == Lower(b)[i];
      }
    }
    Lower(a) == Lower(b)
  }

  // ---------------------------------------------------------------------------
  // `replace(/\s+/g, '_')`

  /** How many white-space characters `s` starts with. */
  function LeadingSpaces(s: string): (n: nat)
    ensures n <= |s|
    ensures forall i :: 0 <= i < n ==> IsSpace(s[i])
    ensures n == |s| || !IsSpace(s[n])
  {
    if s != [] && IsSpace(s[0]) then 1 + LeadingSpaces(s[1..]) else 0
  }

  /** The contract of `LeadingSpaces` determines it. */
  lemma LeadingSpacesUnique(s: string, n: nat)
    requires n <= |s|
    requires forall i :: 0 <= i < n ==> IsSpace(s[i])
    requires n == |s| || !IsSpace(s[n])
    ensures LeadingSpaces(s) == n
  {
  }

  /** The text after its leading white space (`trimStart`). */
  function TrimStart(s: string): string {
    s[LeadingSpaces(s)..]
  }

  /** Replaces each maximal run of white space by one underscore, scanning left
      to right as the global regular expression `/\s+/g` does. */
  function ReplaceSpaceRuns(s: string): (r: string)
    ensures |r| <= |s|
    ensures r == [] <==> s == []
    decreases |s|
  {
    if s == [] then []
    else if IsSpace(s[0]) then "_" + ReplaceSpaceRuns(TrimStart(s[1..]))
    else [s[0]] + ReplaceSpaceRuns(s[1..])
  }

  /** Reference definition of the same replacement, one character at a time:
      a non-space is kept, a space that starts a run becomes `_`, and a space
      that continues a run disappears. `afterSpace` says whether the previous
      character was a space. */
  function CollapseRuns(s: string, afterSpace: bool): string {
    if s == [] then []
    else
      (if !IsSpace(s[0]) then [s[0]] else if afterSpace then [] else "_")
      + CollapseRuns(s[1..], IsSpace(s[0]))
  }

  /** The characters of `s` that are not white space, in order. */
  function NonSpaces(s: string): string {
    if s == [] then []
    else if IsSpace(s[0]) then NonSpaces(s[1..])
    else [s[0]] + NonSpaces(s[1..])
  }

  /** `a` can be obtained from `b` by deleting characters. */
  predicate IsSubsequence(a: string, b: string) {
    if a == [] then true
    else if b == [] then false
    else (a[0] == b[0] && IsSubsequence(a[1..], b[1..])) || IsSubsequence(a, b[1..])
  }

  lemma {:induction false} ReplaceSpaceRunsHasNoSpace(s: string)
    ensures NoSpace(ReplaceSpaceRuns(s))
    decreases |s|
  {
    if s == [] {
    } else if IsSpace(s[0]) {
      ReplaceSpaceRunsHasNoSpace(TrimStart(s[1..]));
    } else {
      ReplaceSpaceRunsHasNoSpace(s[1..]);
    }
  }

  lemma {:induction false} ReplaceSpaceRunsKeepsNonSpaces(s: string)
    ensures IsSubsequence(NonSpaces(s), ReplaceSpaceRuns(s))
    decreases |s|
  {
    if s == [] {
    } else if IsSpace(s[0]) {
      var t := TrimStart(s[1..]);
      NonSpacesSkipsSpaces(s[1..]);
      ReplaceSpaceRunsKeepsNonSpaces(t);
      assert NonSpaces(s) == NonSpaces(t);
      SubsequenceOfLonger(NonSpaces(t), ReplaceSpaceRuns(t), '_');
    } else {
      ReplaceSpaceRunsKeepsNonSpaces(s[1..]);
    }
  }

  lemma {:induction false} NonSpacesSkipsSpaces(s: string)
    ensures NonSpaces(TrimStart(s)) == NonSpaces(s)
    decreases |s|
  {
    if s != [] && IsSpace(s[0]) {
      NonSpacesSkipsSpaces(s[1..]);
      assert TrimStart(s) == TrimStart(s[1..]);
    }
  }

  lemma SubsequenceOfLonger(a: string, b: string, c: char)
    requires IsSubsequence(a, b)
    ensures IsSubsequence(a, [c] + b)
  {
    assert ([c] + b)[1..] == b;
  }

  /** Text without white space comes through the replacement unchanged. */
  lemma {:induction false} ReplaceSpaceRunsIdentity(s: string)
    requires NoSpace(s)
    ensures ReplaceSpaceRuns(s) == s
    decreases |s|
  {
    if s != [] {
      ReplaceSpaceRunsIdentity(s[1..]);
    }
  }

  /** The run-by-run replacement agrees with the character-by-character
      reference definition. */
  lemma {:induction false} ReplaceSpaceRunsIsCollapse(s: string)
    ensures ReplaceSpaceRuns(s) == CollapseRuns(s, false)
    decreases |s|
  {
    if s == [] {
    } else if IsSpace(s[0]) {
      var t := TrimStart(s[1..]);
      ReplaceSpaceRunsIsCollapse(t);
      CollapseSkipsRun(s[1..]);
      CollapseFlagIrrelevant(t);
    } else {
      ReplaceSpaceRunsIsCollapse(s[1..]);
    }
  }

  lemma {:induction false} CollapseSkipsRun(s: string)
    ensures CollapseRuns(s, true) == CollapseRuns(TrimStart(s), true)
    decreases |s|
  {
    if s != [] && IsSpace(s[0]) {
      CollapseSkipsRun(s[1..]);
      assert TrimStart(s) == TrimStart(s[1..]);
    }
  }

  lemma CollapseFlagIrrelevant(s: string)
    requires s == [] || !IsSpace(s[0])
    ensures CollapseRuns(s, true) == CollapseRuns(s, false)
  {
  }

  // ---------------------------------------------------------------------------
  // `replace(/<literal>/g, '')`

  /** `p` occurs in `s` starting at index `k`. */
  predicate OccursAt(s: string, p: string, k: nat) {
    k + |p| <= |s| && s[k..k + |p|] == p
  }

  predicate Occurs(s: string, p: string) {
    exists k: nat | k <= |s| :: OccursAt(s, p, k)
  }

  /** Deletes every occurrence of the literal `p`, matching leftmost first and
      without overlap, as `replace` with a global regular expression does. */
  function RemoveAll(s: string, p: string): (r: string)
    requires |p| > 0
    ensures |r| <= |s|
    decreases |s|
  {
    if |s| < |p| then s
    else if s[..|p|] == p then RemoveAll(s[|p|..], p)
    else [s[0]] + RemoveAll(s[1..], p)
  }

  /** A character that is not where `p` matches is copied to the output. */
  lemma RemoveAllKeepsHead(s: string, p: string)
    requires |p| > 0 && |s| > 0 && !OccursAt(s, p, 0)
    ensures RemoveAll(s, p) == [s[0]] + RemoveAll(s[1..], p)
  {
  }

  /** A prefix in which the first character of `p` never appears is copied. */
  lemma {:induction false} RemoveAllKeepsPlainPrefix(u: string, t: string, p: string)
    requires |p| > 0 && p[0] !in u
    ensures RemoveAll(u + t, p) == u + RemoveAll(t, p)
    decreases |u|
  {
    if u != [] {
      assert (u + t)[1..] == u[1..] + t;
      assert (u + t)[0] == u[0] != p[0];
      if |p| <= |u + t| {
        assert (u + t)[0..|p|][0] == u[0];
      }
      RemoveAllKeepsHead(u + t, p);
      RemoveAllKeepsPlainPrefix(u[1..], t, p);
      assert u == [u[0]] + u[1..];
    } else {
      assert u + t == t;
    }
  }

  const Fence := "```"

  /** Three backticks start at index `k` of `r`. */
  predicate BackticksAt(r: string, k: nat) {
    k + 3 <= |r| && r[k] == '`' && r[k + 1] == '`' && r[k + 2] == '`'
  }

  lemma FenceIsBackticks(r: string, k: nat)
    ensures OccursAt(r, Fence, k) <==> BackticksAt(r, k)
  {
    if k + 3 <= |r| {
      assert r[k..k + 3] == [r[k], r[k + 1], r[k + 2]];
    }
  }

  /** After a backtick that is copied, the output does not hold two more
      backticks in a row: the copy means the input did not continue "``" there. */
  lemma CopiedBacktickBreaksRun(s: string)
    requires |s| >= 3 && s[..3] != Fence
    ensures !BackticksAt([s[0]] + RemoveAll(s[1..], Fence), 0)
  {
    assert s[..3] == [s[0], s[1], s[2]];
    if s[0] == '`' {
      FenceIsBackticks(s[1..], 0);
      RemoveAllKeepsHead(s[1..], Fence);
      if s[1] == '`' {
        FenceIsBackticks(s[2..], 0);
        RemoveAllKeepsHead(s[2..], Fence);
      }
    }
  }

  lemma {:induction false} RemoveFenceNoBackticks(s: string)
    ensures forall k: nat :: !BackticksAt(RemoveAll(s, Fence), k)
    decreases |s|
  {
    if |s| < 3 {
    } else if s[..3] == Fence {
      RemoveFenceNoBackticks(s[3..]);
    } else {
      var rest := RemoveAll(s[1..], Fence);
      RemoveFenceNoBackticks(s[1..]);
      var r := [s[0]] + rest;
      assert RemoveAll(s, Fence) == r;
      forall k: nat
        ensures !BackticksAt(r, k)
      {
        if k == 0 {
          CopiedBacktickBreaksRun(s);
        } else {
          assert !BackticksAt(rest, k - 1);
        }
      }
    }
  }

  /** Deleting every "```" leaves no "```": a backtick that is copied is never
      the start of a match, so at most two backticks are ever copied in a row. */
  lemma RemoveAllFenceLeavesNoFence(s: string)
    ensures !Occurs(RemoveAll(s, Fence), Fence)
  {
    var r := RemoveAll(s, Fence);
    RemoveFenceNoBackticks(s);
    forall k: nat | k <= |r|
      ensures !OccursAt(r, Fence, k)
    {
      FenceIsBackticks(r, k);
    }
  }

  // ---------------------------------------------------------------------------
  // `trim`

  /** The length of `s` without its trailing white space. */
  function TrimmedLength(s: string): (n: nat)
    ensures n <= |s|
    ensures forall i :: n <= i < |s| ==> IsSpace(s[i])
    ensures n == 0 || !IsSpace(s[n - 1])
  {
    if s != [] && IsSpace(s[|s| - 1]) then TrimmedLength(s[..|s| - 1]) else |s|
  }

  /** `trim`: the text between the leading and the trailing white space. */
  function Trim(s: string): (r: string)
    ensures |r| <= |s|
    ensures r == [] || (!IsSpace(r[0]) && !IsSpace(r[|r| - 1]))
  {
    var t := TrimStart(s);
    assert t != [] ==> t[0] == s[LeadingSpaces(s)];
    var r := t[..TrimmedLength(t)];
    assert r != [] ==> r[0] == t[0] && r[|r| - 1] == t[|r| - 1];
    r
  }

  /** What `trim` removes is white space, and what it keeps is one piece of the
      text. */
  lemma TrimIsSlice(s: string)
    ensures var r, i := Trim(s), LeadingSpaces(s);
      i + |r| <= |s| && r == s[i..i + |r|]
      && (forall k :: 0 <= k < i ==> IsSpace(s[k]))
      && (forall k :: i + |r| <= k < |s| ==> IsSpace(s[k]))
  {
    var i := LeadingSpaces(s);
    var t := TrimStart(s);
    var n := TrimmedLength(t);
    assert Trim(s) == s[i..i + n];
    forall k | i + n <= k < |s|
      ensures IsSpace(s[k])
    {
      assert t[k - i] == s[k];
    }
  }

  /** A substring of a slice is a substring of the whole. */
  lemma NoOccurrenceInSlice(s: string, p: string, i: nat, j: nat)
    requires i <= j <= |s| && !Occurs(s, p)
    ensures !Occurs(s[i..j], p)
  {
    forall k: nat | OccursAt(s[i..j], p, k)
      ensures false
    {
      forall m | 0 <= m < |p|
        ensures s[i + k..i + k + |p|][m] == p[m]
      {
        assert s[i..j][k..k + |p|][m] == p[m];
      }
      assert s[i + k..i + k + |p|] == p;
      assert OccursAt(s, p, i + k);
    }
  }

  /** `trim` cannot create an occurrence of a pattern. */
  lemma TrimKeepsAbsence(s: string, p: string)
    requires !Occurs(s, p)
    ensures !Occurs(Trim(s), p)
  {
    TrimIsSlice(s);
    var i := LeadingSpaces(s);
    NoOccurrenceInSlice(s, p, i, i + |Trim(s)|);
  }

  lemma TrimStartAppend(x: string, t: string)
    ensures TrimStart(x + t) == if TrimStart(x) == [] then TrimStart(t) else TrimStart(x) + t
  {
    var n := LeadingSpaces(x);
    if n == |x| {
      var m := LeadingSpaces(t);
      forall i | 0 <= i < n + m
        ensures IsSpace((x + t)[i])
      {
        if i >= n {
          assert (x + t)[i] == t[i - n];
        }
      }
      assert n + m < |x + t| ==> (x + t)[n + m] == t[m];
      LeadingSpacesUnique(x + t, n + m);
      assert (x + t)[n + m..] == t[m..];
    } else {
      assert (x + t)[n] == x[n];
      LeadingSpacesUnique(x + t, n);
      assert (x + t)[n..] == x[n..] + t;
    }
  }

  lemma TrimStartSkipsSpace(a: char, y: string)
    requires IsSpace(a)
    ensures TrimStart([a] + y) == TrimStart(y)
  {
    assert ([a] + y)[1..] == y;
    assert ([a] + y)[1 + LeadingSpaces(y)..] == y[LeadingSpaces(y)..];
  }

  lemma TrimEndSkipsSpace(t: string, b: char)
    requires IsSpace(b)
    ensures (t + [b])[..TrimmedLength(t + [b])] == t[..TrimmedLength(t)]
  {
    assert (t + [b])[..|t|] == t;
  }

  /** White space added around a text does not survive `trim`. */
  lemma TrimIgnoresPadding(x: string, a: char, b: char)
    requires IsSpace(a) && IsSpace(b)
    ensures Trim([a] + x + [b]) == Trim(x)
  {
    assert [a] + x + [b] == [a] + (x + [b]);
    TrimStartSkipsSpace(a, x + [b]);
    TrimStartAppend(x, [b]);
    if TrimStart(x) == [] {
      TrimStartSkipsSpace(b, []);
      assert [b] + [] == [b];
    } else {
      TrimEndSkipsSpace(TrimStart(x), b);
    }
  }
}
