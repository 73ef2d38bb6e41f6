/** The parts of Go's `strings` package the email step relies on: Replace with
    n = -1, Split, Join, Trim with a cut set and TrimSpace. Strings are sequences
    of Unicode scalar values, so a Go string is read here as its decoded runes. */
module Strs {

  /** `pat` occurs in `s` starting at index `i`. */
  predicate OccursAt(s: string, pat: string, i: nat) {
    i + |pat| <= |s| && s[i..i + |pat|] == pat
  }

  /** Go's strings.Contains. */
  ghost predicate Contains(s: string, pat: string) {
    exists i: nat :: OccursAt(s, pat, i)
  }

  /* ---------------- Replace ---------------- */

  /** Go's strings.Replace(s, pat, repl, -1): the leftmost occurrence of `pat` is
      replaced, scanning resumes just after it, and replaced text is never
      re-scanned. An empty `pat` matches before every rune and at the end. */
  function ReplaceAll(s: string, pat: string, repl: string): (r: string)
    ensures |pat| > 0 && |repl| == |pat| ==> |r| == |s|
    ensures |pat| > 0 && repl == pat ==> r == s
    decreases |s|
  {
    if |pat| == 0 then ReplaceEmpty(s, repl)
    else if |s| < |pat| then s
    else if s[..|pat|] == pat then
      assert s == s[..|pat|] + s[|pat|..];
      repl + ReplaceAll(s[|pat|..], pat, repl)
    else
      assert s == [s[0]] + s[1..];
      [s[0]] + ReplaceAll(s[1..], pat, repl)
  }

  /** The empty-pattern case of Replace: `repl` before every rune and at the end. */
  function ReplaceEmpty(s: string, repl: string): (r: string)
    ensures |r| == |s| + (|s| + 1) * |repl|
  {
    if |s| == 0 then repl else repl + [s[0]] + ReplaceEmpty(s[1..], repl)
  }

  /** A string with no occurrence of `pat` comes back unchanged. */
  lemma {:induction false} ReplaceAbsent(s: string, pat: string, repl: string)
    requires |pat| > 0
    requires !Contains(s, pat)
    ensures ReplaceAll(s, pat, repl) == s
    decreases |s|
  {
    if |s| < |pat| {
    } else {
      assert !OccursAt(s, pat, 0);
      if !Contains(s[1..], pat) {
        ReplaceAbsent(s[1..], pat, repl);
      } else {
        var i: nat :| OccursAt(s[1..], pat, i);
        assert s[i + 1..i + 1 + |pat|] == s[1..][i..i + |pat|];
        assert OccursAt(s, pat, i + 1);
        assert false;
      }
    }
  }

  /** Replacing a pattern in the pattern itself yields the replacement. */
  lemma ReplaceWhole(pat: string, repl: string)
    requires |pat| > 0
    ensures ReplaceAll(pat, pat, repl) == repl
  {
    assert pat[..|pat|] == pat;
    assert ReplaceAll(pat[|pat|..], pat, repl) == [];
  }

  /** Replace agrees with the independent "split at every separator, join with
      the replacement" reading of Go's documentation. */
  lemma {:induction false} ReplaceIsJoinOfSplit(s: string, pat: string, repl: string)
    requires |pat| > 0
    ensures ReplaceAll(s, pat, repl) == Join(Split(s, pat), repl)
    decreases |s|
  {
    if |s| < |pat| {
    } else if s[..|pat|] == pat {
      var rest := Split(s[|pat|..], pat);
      ReplaceIsJoinOfSplit(s[|pat|..], pat, repl);
      JoinAfterEmpty(rest, repl);
    } else {
      var rest := Split(s[1..], pat);
      ReplaceIsJoinOfSplit(s[1..], pat, repl);
      JoinConsHead(s[0], rest, repl);
    }
  }

  /* ---------------- Split and Join ---------------- */

  /** Go's strings.Split(s, sep) for a non-empty separator: the pieces between
      leftmost non-overlapping occurrences of `sep`; there is always one more
      piece than separators found, so the empty string gives [""]. */
  function Split(s: string, sep: string): (parts: seq<string>)
    requires |sep| > 0
    ensures |parts| >= 1
    decreases |s|
  {
    if |s| < |sep| then [s]
    else if s[..|sep|] == sep then [""] + Split(s[|sep|..], sep)
    else
      var rest := Split(s[1..], sep);
      [[s[0]] + rest[0]] + rest[1..]
  }

  /** Go's strings.Join. */
  function Join(parts: seq<string>, sep: string): string
  {
    if |parts| == 0 then ""
    else if |parts| == 1 then parts[0]
    else parts[0] + sep + Join(parts[1..], sep)
  }

  lemma JoinConsHead(c: char, parts: seq<string>, sep: string)
    requires |parts| >= 1
    ensures Join([[c] + parts[0]] + parts[1..], sep) == [c] + Join(parts, sep)
  {
    var ps := [[c] + parts[0]] + parts[1..];
    assert ps[1..] == parts[1..];
  }

  lemma JoinAfterEmpty(parts: seq<string>, sep: string)
    requires |parts| >= 1
    ensures Join([""] + parts, sep) == sep + Join(parts, sep)
  {
    assert ([""] + parts)[1..] == parts;
  }

  /** Joining the pieces with the separator gives back the original string. */
  lemma {:induction false} JoinSplit(s: string, sep: string)
    requires |sep| > 0
    ensures Join(Split(s, sep), sep) == s
    decreases |s|
  {
    if |s| < |sep| {
    } else if s[..|sep|] == sep {
      JoinSplit(s[|sep|..], sep);
      JoinAfterEmpty(Split(s[|sep|..], sep), sep);
      assert s == s[..|sep|] + s[|sep|..];
    } else {
      JoinSplit(s[1..], sep);
      JoinConsHead(s[0], Split(s[1..], sep), sep);
      assert s == [s[0]] + s[1..];
    }
  }

  /** The first piece is a prefix of the text, and no occurrence of the
      separator starts inside it. */
  lemma {:induction false} PrefixOfSplitHead(s: string, sep: string)
    requires |sep| > 0
    ensures |Split(s, sep)[0]| <= |s| && Split(s, sep)[0] == s[..|Split(s, sep)[0]|]
    ensures forall i :: 0 <= i < |Split(s, sep)[0]| ==> !OccursAt(s, sep, i)
    decreases |s|
  {
    if |s| < |sep| {
    } else if s[..|sep|] == sep {
    } else {
      PrefixOfSplitHead(s[1..], sep);
      var r0 := Split(s[1..], sep)[0];
      assert Split(s, sep)[0] == [s[0]] + r0;
      ConsPrefixHoldsNoSep(s, sep, r0);
    }
  }

  /** Putting back a rune where no separator starts keeps a prefix free of
      separator starts. */
  lemma {:induction false} ConsPrefixHoldsNoSep(s: string, sep: string, r0: string)
    requires |s| >= |sep| > 0 && s[..|sep|] != sep
    requires |r0| <= |s| - 1 && r0 == s[1..][..|r0|]
    requires forall i :: 0 <= i < |r0| ==> !OccursAt(s[1..], sep, i)
    ensures [s[0]] + r0 == s[..|r0| + 1]
    ensures forall i :: 0 <= i < |r0| + 1 ==> !OccursAt(s, sep, i)
  {
    forall i | 0 <= i < |r0| + 1
      ensures !OccursAt(s, sep, i)
    {
      if i > 0 {
        OccursShift(s, sep, i);
      }
    }
  }

  /** An occurrence past the first rune is an occurrence in the rest. */
  lemma {:induction false} OccursShift(s: string, pat: string, i: nat)
    requires |s| > 0 && i >= 1
    ensures OccursAt(s, pat, i) <==> OccursAt(s[1..], pat, i - 1)
  {
    if i + |pat| <= |s| {
      var a := s[i..i + |pat|];
      var b := s[1..][i - 1..i - 1 + |pat|];
      assert |a| == |b|;
      forall k | 0 <= k < |a|
        ensures a[k] == b[k]
      {
        assert a[k] == s[i + k];
        assert b[k] == s[1..][i - 1 + k];
      }
      assert a == b;
    }
  }

  /** No piece of a split contains the separator: every occurrence of `sep`
      in the text falls between two pieces. */
  lemma {:induction false} SplitPiecesHoldNoSep(s: string, sep: string)
    requires |sep| > 0
    ensures forall i :: 0 <= i < |Split(s, sep)| ==> !Contains(Split(s, sep)[i], sep)
    decreases |s|
  {
    var parts := Split(s, sep);
    if |s| < |sep| {
      assert parts == [s];
      assert forall i: nat :: !OccursAt(s, sep, i);
    } else if s[..|sep|] == sep {
      SplitPiecesHoldNoSep(s[|sep|..], sep);
      assert parts == [""] + Split(s[|sep|..], sep);
      assert forall i: nat :: !OccursAt("", sep, i);
      forall i | 0 <= i < |parts|
        ensures !Contains(parts[i], sep)
      {
        if i > 0 {
          assert parts[i] == Split(s[|sep|..], sep)[i - 1];
        }
      }
    } else {
      SplitPiecesHoldNoSep(s[1..], sep);
      PrefixOfSplitHead(s, sep);
      var rest := Split(s[1..], sep);
      assert parts == [[s[0]] + rest[0]] + rest[1..];
      forall i | 0 <= i < |parts|
        ensures !Contains(parts[i], sep)
      {
        if i > 0 {
          assert parts[i] == rest[i];
        } else {
          HeadHoldsNoSep(s, sep);
        }
      }
    }
  }

  lemma {:induction false} HeadHoldsNoSep(s: string, sep: string)
    requires |sep| > 0
    ensures !Contains(Split(s, sep)[0], sep)
  {
    var p0 := Split(s, sep)[0];
    PrefixOfSplitHead(s, sep);
    forall i: nat
      ensures !OccursAt(p0, sep, i)
    {
      if OccursAt(p0, sep, i) {
        assert s[i..i + |sep|] == p0[i..i + |sep|];
        assert OccursAt(s, sep, i);
      }
    }
  }

  /** strings.Replace with n = -1 replaces every occurrence: the text is its
      pattern-free pieces joined by the pattern, and the result is the same
      pieces joined by the replacement. */
  lemma {:induction false} ReplacesEveryOccurrence(s: string, pat: string, repl: string)
    requires |pat| > 0
    ensures s == Join(Split(s, pat), pat)
    ensures ReplaceAll(s, pat, repl) == Join(Split(s, pat), repl)
    ensures forall i :: 0 <= i < |Split(s, pat)| ==> !Contains(Split(s, pat)[i], pat)
  {
    JoinSplit(s, pat);
    ReplaceIsJoinOfSplit(s, pat, repl);
    SplitPiecesHoldNoSep(s, pat);
  }

  /** Splitting on a one-rune separator gives one piece more than the number of
      separators, and no piece contains the separator. */
  lemma {:induction false} SplitOnRune(s: string, c: char)
    ensures |Split(s, [c])| == multiset(s)[c] + 1
    ensures forall i :: 0 <= i < |Split(s, [c])| ==> c !in Split(s, [c])[i]
    decreases |s|
  {
    if |s| < 1 {
    } else {
      assert s == [s[0]] + s[1..];
      assert multiset(s) == multiset{s[0]} + multiset(s[1..]);
      SplitOnRune(s[1..], c);
      var rest := Split(s[1..], [c]);
      if s[..1] == [c] {
        assert s[0] == c;
        assert s[1..] == s[|[c]|..];
      } else {
        assert s[0] != c;
        var parts := Split(s, [c]);
        assert parts == [[s[0]] + rest[0]] + rest[1..];
        forall i | 0 <= i < |parts|
          ensures c !in parts[i]
        {
          if i > 0 {
            assert parts[i] == rest[i];
          }
        }
      }
    }
  }

  /** A string without the separator rune is a single piece. */
  lemma {:induction false} SplitWithoutRune(s: string, c: char)
    requires c !in s
    ensures Split(s, [c]) == [s]
    decreases |s|
  {
    if |s| >= 1 {
      assert s[0] != c;
      SplitWithoutRune(s[1..], c);
      assert [s[0]] + s[1..] == s;
    }
  }

  /** Splitting at the first separator rune: the text before it is the first piece. */
  lemma {:induction false} SplitAtFirstRune(a: string, c: char, b: string)
    requires c !in a
    ensures Split(a + [c] + b, [c]) == [a] + Split(b, [c])
    decreases |a|
  {
    var s := a + [c] + b;
    if |a| == 0 {
      assert s[..1] == [c];
      assert s[1..] == b;
    } else {
      assert s[0] == a[0] != c;
      assert s[..1] != [c];
      assert s[1..] == a[1..] + [c] + b;
      SplitAtFirstRune(a[1..], c, b);
      assert [a[0]] + a[1..] == a;
    }
  }

  /** Every rune of every piece comes from the split string. */
  lemma {:induction false} SplitPiecesFromSource(s: string, sep: string)
    requires |sep| > 0
    ensures forall i, c :: 0 <= i < |Split(s, sep)| && c in Split(s, sep)[i] ==> c in s
    decreases |s|
  {
    var parts := Split(s, sep);
    if |s| < |sep| {
    } else if s[..|sep|] == sep {
      var tail := s[|sep|..];
      SplitPiecesFromSource(tail, sep);
      forall i, c | 0 <= i < |parts| && c in parts[i]
        ensures c in s
      {
        assert parts[0] == "";
        assert i > 0;
        assert parts[i] == Split(tail, sep)[i - 1];
        assert c in tail;
        var j :| 0 <= j < |tail| && tail[j] == c;
        assert s[|sep| + j] == c;
      }
    } else {
      var tail := s[1..];
      var rest := Split(tail, sep);
      SplitPiecesFromSource(tail, sep);
      assert parts == [[s[0]] + rest[0]] + rest[1..];
      forall i, c | 0 <= i < |parts| && c in parts[i]
        ensures c in s
      {
        if c != s[0] {
          if i == 0 {
            assert c in rest[0];
          } else {
            assert parts[i] == rest[i];
          }
          assert c in tail;
          var j :| 0 <= j < |tail| && tail[j] == c;
          assert s[1 + j] == c;
        }
      }
    }
  }

  /* ---------------- Trim ---------------- */

  /** Go's strings.TrimLeftFunc: drop the leading runes `cut` selects. */
  function TrimLeft(s: string, cut: char -> bool): (r: string)
    ensures |r| <= |s| && r == s[|s| - |r|..]
    ensures forall i :: 0 <= i < |s| - |r| ==> cut(s[i])
    ensures |r| > 0 ==> !cut(r[0])
  {
    if |s| > 0 && cut(s[0]) then
      var r := TrimLeft(s[1..], cut);
      assert forall i :: 1 <= i < |s| - |r| ==> s[i] == s[1..][i - 1];
      r
    else s
  }

  /** Go's strings.TrimRightFunc: drop the trailing runes `cut` selects. */
  function TrimRight(s: string, cut: char -> bool): (r: string)
    ensures |r| <= |s| && r == s[..|r|]
    ensures forall i :: |r| <= i < |s| ==> cut(s[i])
    ensures |r| > 0 ==> !cut(r[|r| - 1])
  {
    if |s| > 0 && cut(s[|s| - 1]) then TrimRight(s[..|s| - 1], cut) else s
  }

  /** Go's strings.TrimFunc: the infix of `s` left after dropping every leading
      and trailing rune that `cut` selects. */
  function Trim(s: string, cut: char -> bool): (r: string)
    ensures |r| > 0 ==> !cut(r[0]) && !cut(r[|r| - 1])
  {
    TrimRight(TrimLeft(s, cut), cut)
  }

  /** What Trim keeps is exactly `s` minus a cut-only prefix and a cut-only suffix. */
  lemma {:induction false} TrimIsInfix(s: string, cut: char -> bool, lead: nat)
    ensures lead == |s| - |TrimLeft(s, cut)| ==>
              && lead + |Trim(s, cut)| <= |s|
              && Trim(s, cut) == s[lead..lead + |Trim(s, cut)|]
              && (forall i :: 0 <= i < lead ==> cut(s[i]))
              && (forall i :: lead + |Trim(s, cut)| <= i < |s| ==> cut(s[i]))
  {
    if lead == |s| - |TrimLeft(s, cut)| {
      SliceOfSuffix(s, TrimLeft(s, cut), Trim(s, cut), lead, cut);
    }
  }

  /** Slicing facts behind TrimIsInfix, kept apart from the trim functions:
      a cut-only prefix, then `l`, whose cut-only tail follows `r`. */
  lemma {:induction false} SliceOfSuffix(s: string, l: string, r: string, lead: nat, cut: char -> bool)
    requires |l| <= |s| && l == s[|s| - |l|..] && lead == |s| - |l|
    requires forall i :: 0 <= i < |s| - |l| ==> cut(s[i])
    requires |r| <= |l| && r == l[..|r|]
    requires forall i :: |r| <= i < |l| ==> cut(l[i])
    ensures lead + |r| <= |s|
    ensures r == s[lead..lead + |r|]
    ensures forall i :: 0 <= i < lead ==> cut(s[i])
    ensures forall i :: lead + |r| <= i < |s| ==> cut(s[i])
  {
    forall i | lead + |r| <= i < |s|
      ensures cut(s[i])
    {
      assert s[i] == l[i - lead];
    }
  }

  /** Trimming only removes runes. */
  lemma TrimWithin(s: string, cut: char -> bool)
    ensures forall c :: c in Trim(s, cut) ==> c in s
  {
    var lead := |s| - |TrimLeft(s, cut)|;
    TrimIsInfix(s, cut, lead);
    var r := Trim(s, cut);
    forall c | c in r
      ensures c in s
    {
      var j :| 0 <= j < |r| && r[j] == c;
      assert s[lead + j] == c;
    }
  }

  /** A string that neither starts nor ends with a cut rune is left alone. */
  lemma TrimKeeps(s: string, cut: char -> bool)
    requires |s| > 0 ==> !cut(s[0]) && !cut(s[|s| - 1])
    ensures Trim(s, cut) == s
  {
  }

  /** Trimming is idempotent. */
  lemma TrimIdempotent(s: string, cut: char -> bool)
    ensures Trim(Trim(s, cut), cut) == Trim(s, cut)
  {
    TrimKeeps(Trim(s, cut), cut);
  }

  /** Go's unicode.IsSpace: the Latin-1 spaces and the White_Space property. */
  predicate IsSpace(c: char) {
    || c == '\t' || c == '\n' || c == '\U{000B}' || c == '\U{000C}' || c == '\r' || c == ' '
    || c == '\U{0085}' || c == '\U{00A0}' || c == '\U{1680}'
    || ('\U{2000}' <= c <= '\U{200A}')
    || c == '\U{2028}' || c == '\U{2029}' || c == '\U{202F}' || c == '\U{205F}' || c == '\U{3000}'
  }

  predicate IsNewline(c: char) {
    c == '\n'
  }

  /** Go's strings.TrimSpace. */
  function TrimSpace(s: string): string {
    Trim(s, IsSpace)
  }

  /** Go's strings.Trim(s, "\n"). */
  function TrimNewlines(s: string): (r: string)
    ensures |r| > 0 ==> r[0] != '\n' && r[|r| - 1] != '\n'
  {
    Trim(s, IsNewline)
  }
}
