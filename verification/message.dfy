/** The message builder (out/out.go lines 148-157): To, From, the optional raw
    header block, Subject, an empty line, then the body. */
module Message {
  import opened Wrappers
  import opened Strs

  /** The header fields as the source appends them, up to the newline that
      ends the Subject line. */
  function Fields(to: seq<string>, from: string, headers: string, subject: string): string {
    "To: " + Join(to, ", ") + "\n"
    + "From: " + from + "\n"
    + (if headers != "" then headers + "\n" else "")
    + "Subject: " + subject
  }

  /** The bytes the source appends, in the order it appends them. The message
      starts with the To field, and the body is everything after the first
      empty line that closes the header fields. */
  function Build(to: seq<string>, from: string, headers: string, subject: string, body: string): (m: string)
    ensures |m| >= |body| + 6 && m[..4] == "To: "
    ensures m[|m| - |body| - 2..|m| - |body|] == "\n\n" && m[|m| - |body|..] == body
  {
    var fields := Fields(to, from, headers, subject);
    assert fields[..4] == "To: ";
    var m := fields + "\n" + "\n" + body;
    assert m[..|fields|] == fields && m[|fields|..|fields| + 2] == "\n\n" && m[|fields| + 2..] == body;
    m
  }

  /** The header lines of the message, in order; the header block only when non-empty. */
  function HeaderLines(to: seq<string>, from: string, headers: string, subject: string): seq<string> {
    ["To: " + Join(to, ", "), "From: " + from] + (if headers != "" then [headers] else []) + ["Subject: " + subject]
  }

  /** The message is its header lines joined by newlines, an empty line, and the body. */
  lemma BuildIsHeaderLinesThenBody(to: seq<string>, from: string, headers: string, subject: string, body: string)
    ensures Build(to, from, headers, subject, body) == Join(HeaderLines(to, from, headers, subject), "\n") + "\n\n" + body
  {
    FieldsAreHeaderLines(to, from, headers, subject);
  }

  lemma FieldsAreHeaderLines(to: seq<string>, from: string, headers: string, subject: string)
    ensures Fields(to, from, headers, subject) == Join(HeaderLines(to, from, headers, subject), "\n")
  {
    var t := "To: " + Join(to, ", ");
    var f := "From: " + from;
    var s := "Subject: " + subject;
    if headers != "" {
      assert HeaderLines(to, from, headers, subject) == [t, f, headers, s];
      assert [t, f, headers, s][1..] == [f, headers, s];
      assert [f, headers, s][1..] == [headers, s];
      assert [headers, s][1..] == [s];
      assert Join([headers, s], "\n") == headers + "\n" + s;
      assert Join([f, headers, s], "\n") == f + "\n" + (headers + "\n" + s);
      assert Join([t, f, headers, s], "\n") == t + "\n" + (f + "\n" + (headers + "\n" + s));
    } else {
      assert HeaderLines(to, from, headers, subject) == [t, f, s];
      assert [t, f, s][1..] == [f, s];
      assert [f, s][1..] == [s];
      assert Join([f, s], "\n") == f + "\n" + s;
      assert Join([t, f, s], "\n") == t + "\n" + (f + "\n" + s);
    }
  }

  /** No two consecutive newlines, i.e. no empty line inside. */
  predicate NoBlankLine(s: string) {
    forall k :: 0 <= k < |s| - 1 ==> !(s[k] == '\n' && s[k + 1] == '\n')
  }

  /** Text that can stand between two newlines without making an empty line. */
  predicate Solid(s: string) {
    |s| > 0 && NoBlankLine(s) && s[0] != '\n' && s[|s| - 1] != '\n'
  }

  /** The first empty line at or after position i: where a reader of the
      message stops reading header fields and starts reading the body. */
  function FindBlank(m: string, i: nat): (r: Option<nat>)
    ensures r.Some? ==> i <= r.value && r.value + 1 < |m| && m[r.value] == '\n' && m[r.value + 1] == '\n'
    ensures r.Some? ==> forall k :: i <= k < r.value ==> !(m[k] == '\n' && m[k + 1] == '\n')
    ensures r.None? ==> forall k :: i <= k < |m| - 1 ==> !(m[k] == '\n' && m[k + 1] == '\n')
    decreases |m| - i
  {
    if i + 1 >= |m| then None
    else if m[i] == '\n' && m[i + 1] == '\n' then Some(i)
    else FindBlank(m, i + 1)
  }

  /** Split a message into its header block and its body. */
  function SplitMessage(m: string): (r: Option<(string, string)>)
    ensures r.Some? ==> m == r.value.0 + "\n\n" + r.value.1 && NoBlankLine(r.value.0)
  {
    match FindBlank(m, 0)
    case None => None
    case Some(k) =>
      assert m == m[..k] + "\n\n" + m[k + 2..];
      Some((m[..k], m[k + 2..]))
  }

  lemma SolidConcat(a: string, b: string)
    requires Solid(a) && Solid(b)
    ensures Solid(a + "\n" + b)
  {
    var s := a + "\n" + b;
    forall k | 0 <= k < |s| - 1
      ensures !(s[k] == '\n' && s[k + 1] == '\n')
    {
      if k < |a| - 1 {
        assert s[k] == a[k] && s[k + 1] == a[k + 1];
      } else if k == |a| - 1 {
        assert s[k] == a[|a| - 1];
      } else if k == |a| {
        assert s[k + 1] == b[0];
      } else {
        assert s[k] == b[k - |a| - 1] && s[k + 1] == b[k - |a|];
      }
    }
  }

  lemma {:induction false} JoinSolid(lines: seq<string>)
    requires |lines| > 0
    requires forall i :: 0 <= i < |lines| ==> Solid(lines[i])
    ensures Solid(Join(lines, "\n"))
  {
    if |lines| > 1 {
      JoinSolid(lines[1..]);
      SolidConcat(lines[0], Join(lines[1..], "\n"));
    }
  }

  lemma SingleLineSolid(prefix: string, field: string)
    requires |prefix| > 0 && '\n' !in prefix && '\n' !in field
    ensures Solid(prefix + field)
  {
    var s := prefix + field;
    forall k | 0 <= k < |s|
      ensures s[k] != '\n'
    {
      if k < |prefix| {
        assert s[k] in prefix;
      } else {
        assert s[k] == field[k - |prefix|];
      }
    }
  }

  /** Round trip: when the To, From and Subject values hold no newline and the
      header block holds no empty line (the source trims its newlines at both
      ends), reading the built message back splits it into exactly the header
      lines and the body, whatever the body holds. */
  lemma {:induction false} SplitBuild(to: seq<string>, from: string, headers: string, subject: string, body: string)
    requires '\n' !in Join(to, ", ") && '\n' !in from && '\n' !in subject
    requires NoBlankLine(headers)
    requires |headers| > 0 ==> headers[0] != '\n' && headers[|headers| - 1] != '\n'
    ensures SplitMessage(Build(to, from, headers, subject, body))
         == Some((Join(HeaderLines(to, from, headers, subject), "\n"), body))
  {
    var lines := HeaderLines(to, from, headers, subject);
    SingleLineSolid("To: ", Join(to, ", "));
    SingleLineSolid("From: ", from);
    SingleLineSolid("Subject: ", subject);
    forall i | 0 <= i < |lines|
      ensures Solid(lines[i])
    {
    }
    JoinSolid(lines);
    BuildIsHeaderLinesThenBody(to, from, headers, subject, body);
    SplitSolidBlock(Join(lines, "\n"), body);
  }

  /** A header block without empty lines, the blank line, then any body: the
      reader stops at that blank line. */
  lemma SplitSolidBlock(h: string, body: string)
    requires Solid(h)
    ensures SplitMessage(h + "\n\n" + body) == Some((h, body))
  {
    var m := h + "\n\n" + body;
    forall k | 0 <= k < |h|
      ensures !(m[k] == '\n' && m[k + 1] == '\n')
    {
      if k < |h| - 1 {
        assert m[k] == h[k] && m[k + 1] == h[k + 1];
      } else {
        assert m[k] == h[|h| - 1];
      }
    }
    assert FindBlank(m, 0) == Some(|h|) by {
      NoEarlierBlank(m, 0, |h|);
    }
    assert m[..|h|] == h;
    assert m[|h| + 2..] == body;
  }

  lemma {:induction false} NoEarlierBlank(m: string, i: nat, j: nat)
    requires i <= j && j + 1 < |m| && m[j] == '\n' && m[j + 1] == '\n'
    requires forall k :: i <= k < j ==> !(m[k] == '\n' && m[k + 1] == '\n')
    ensures FindBlank(m, i) == Some(j)
    decreases j - i
  {
    if i < j {
      NoEarlierBlank(m, i + 1, j);
    }
  }

  /** One recipient and no extra headers: the exact text written after DATA. */
  lemma BuildExample()
    ensures Build(["a@x.com"], "f@x.com", "", "Hi", "Hello") == "To: a@x.com\nFrom: f@x.com\nSubject: Hi\n\nHello"
  {
    assert Join(["a@x.com"], ", ") == "a@x.com";
    assert Fields(["a@x.com"], "f@x.com", "", "Hi") == "To: a@x.com\nFrom: f@x.com\nSubject: Hi";
  }
}
