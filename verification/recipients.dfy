/** The recipient assembler (out/out.go lines 118-130): addresses read from the
    params.to file are appended, in file order, after the static source.to list. */
module Recipients {
  import opened Wrappers
  import opened Errors
  import opened Strs
  import opened Resolve
  import opened Tokens

  /** One address as the assembler leaves it: no comma, no surrounding space. */
  predicate Trimmed(addr: string) {
    ',' !in addr && (|addr| > 0 ==> !IsSpace(addr[0]) && !IsSpace(addr[|addr| - 1]))
  }

  function TrimEach(pieces: seq<string>): (r: seq<string>)
    ensures |r| == |pieces|
    ensures forall i :: 0 <= i < |r| ==> r[i] == TrimSpace(pieces[i])
  {
    seq(|pieces|, i requires 0 <= i < |pieces| => TrimSpace(pieces[i]))
  }

  /** Lines 124-129: non-empty file content is split on every comma and each
      piece, trimmed, is appended; empty content appends nothing. */
  function AppendRecipients(fixed: seq<string>, content: string): (r: seq<string>)
    ensures |r| >= |fixed| && r[..|fixed|] == fixed
    ensures |content| == 0 ==> r == fixed
    ensures |content| > 0 ==> |r| == |fixed| + multiset(content)[','] + 1 == |fixed| + |Split(content, ",")|
    ensures |content| > 0 ==> forall i :: |fixed| <= i < |r| ==> r[i] == TrimSpace(Split(content, ",")[i - |fixed|])
    ensures forall i :: |fixed| <= i < |r| ==> Trimmed(r[i])
  {
    if |content| > 0 then
      var pieces := Split(content, ",");
      SplitOnRune(content, ',');
      assert forall i :: 0 <= i < |pieces| ==> ',' !in pieces[i];
      TrimmedPieces(pieces);
      fixed + TrimEach(pieces)
    else
      fixed
  }

  lemma TrimmedPieces(pieces: seq<string>)
    requires forall i :: 0 <= i < |pieces| ==> ',' !in pieces[i]
    ensures forall i :: 0 <= i < |pieces| ==> Trimmed(TrimSpace(pieces[i]))
  {
    forall i | 0 <= i < |pieces|
      ensures Trimmed(TrimSpace(pieces[i]))
    {
      TrimWithin(pieces[i], IsSpace);
    }
  }

  /** When the file holds no white space, the appended addresses joined with
      commas give back the file content exactly. */
  lemma AppendedJoinToContent(fixed: seq<string>, content: string)
    requires |content| > 0
    requires forall c :: c in content ==> !IsSpace(c)
    ensures Join(AppendRecipients(fixed, content)[|fixed|..], ",") == content
  {
    var pieces := Split(content, ",");
    SplitPiecesFromSource(content, ",");
    forall i | 0 <= i < |pieces|
      ensures TrimSpace(pieces[i]) == pieces[i]
    {
      var p := pieces[i];
      if |p| > 0 {
        assert p[0] in p && p[|p| - 1] in p;
        assert p[0] in content && p[|p| - 1] in content;
      }
      TrimKeeps(p, IsSpace);
    }
    assert AppendRecipients(fixed, content)[|fixed|..] == TrimEach(pieces) == pieces;
    JoinSplit(content, ",");
  }

  lemma TrimLeadingSpace(addr: string)
    requires forall c :: c in addr ==> !IsSpace(c)
    ensures TrimSpace(" " + addr) == addr
  {
    var s := " " + addr;
    assert IsSpace(s[0]) && s[1..] == addr;
    if |addr| > 0 {
      assert addr[0] in addr && addr[|addr| - 1] in addr;
    }
    assert TrimLeft(s, IsSpace) == TrimLeft(addr, IsSpace) == addr;
  }

  /** A static list [a] and file content " b, c" give [a, b, c]: the spaces
      after the commas are trimmed away, so ["a@x.com"] and " b@x.com, c@x.com"
      give ["a@x.com", "b@x.com", "c@x.com"]. */
  lemma AppendSpacedPair(a: string, b: string, c: string)
    requires ',' !in b && ',' !in c
    requires forall ch :: ch in b ==> !IsSpace(ch)
    requires forall ch :: ch in c ==> !IsSpace(ch)
    ensures AppendRecipients([a], " " + b + ", " + c) == [a, b, c]
  {
    var content := " " + b + ", " + c;
    var r := AppendRecipients([a], content);
    assert |r| == 3 && r[0] == a by {
      ExampleSplitSpacedPair(b, c);
      assert r[..1] == [a];
    }
    assert r[1] == b by {
      ExampleSplitSpacedPair(b, c);
      TrimLeadingSpace(b);
    }
    assert r[2] == c by {
      ExampleSplitSpacedPair(b, c);
      TrimLeadingSpace(c);
    }
  }

  /** Helper for the AppendSpacedPair example: how its content splits. */
  lemma ExampleSplitSpacedPair(b: string, c: string)
    requires ',' !in b && ',' !in c
    ensures Split(" " + b + ", " + c, ",") == [" " + b, " " + c]
  {
    assert " " + b + ", " + c == (" " + b) + [','] + (" " + c);
    SplitAtFirstRune(" " + b, ',', " " + c);
    SplitWithoutRune(" " + c, ',');
  }

  /** Lines 118-130: the recipient list after reading params.to, if set. */
  function LoadRecipients(fixed: seq<string>, toPath: string, sourceRoot: string, fs: FileSystem,
                          tokens: map<string, string>, order: seq<string>): (r: Result<seq<string>, Error>)
    ensures toPath == "" ==> r == Success(fixed)
    ensures toPath != "" ==> (r.Success? <==> Locate(sourceRoot, toPath) in fs)
    ensures toPath != "" && r.Success? ==>
              r.value == AppendRecipients(fixed, ReplaceTokens(fs[Locate(sourceRoot, toPath)], tokens, order))
    ensures r.Failure? ==> r.error == ReadFailed(Locate(sourceRoot, toPath), "no such file or directory")
    ensures r.Success? ==> fixed <= r.value
  {
    if toPath == "" then Success(fixed)
    else
      var content :- ReadSource(sourceRoot, toPath, fs, tokens, order);
      Success(AppendRecipients(fixed, content))
  }
}
