/** Build-token substitution (out/out.go lines 20-27 and 70-75): six `${NAME}`
    placeholders are replaced by the values of the identically named environment
    variables. The source ranges over a Go map, whose iteration order is
    unspecified and may differ on every call, so the key order is a parameter. */
module Tokens {
  import opened Strs

  /** The environment variables whose placeholders are recognised. */
  const Names: seq<string> :=
    ["BUILD_ID", "BUILD_NAME", "BUILD_JOB_NAME", "BUILD_PIPELINE_NAME", "ATC_EXTERNAL_URL", "BUILD_TEAM_NAME"]

  /** The placeholders, in the same order as Names. */
  const Keys: seq<string> :=
    ["${BUILD_ID}", "${BUILD_NAME}", "${BUILD_JOB_NAME}", "${BUILD_PIPELINE_NAME}", "${ATC_EXTERNAL_URL}", "${BUILD_TEAM_NAME}"]

  function Placeholder(name: string): string {
    "${" + name + "}"
  }

  /** A name that cannot end a placeholder early or start another one inside it. */
  predicate Plain(name: string) {
    '$' !in name && '}' !in name
  }

  /** os.Getenv: an unset variable reads as the empty string. */
  function Getenv(env: map<string, string>, name: string): string {
    if name in env then env[name] else ""
  }

  /** The token table the source builds once per invocation. */
  function BuildTokens(env: map<string, string>): (tokens: map<string, string>)
    ensures tokens.Keys == set k | k in Keys
    ensures forall i :: 0 <= i < |Keys| ==> tokens[Keys[i]] == Getenv(env, Names[i])
  {
    map[
      "${BUILD_ID}" := Getenv(env, "BUILD_ID"),
      "${BUILD_NAME}" := Getenv(env, "BUILD_NAME"),
      "${BUILD_JOB_NAME}" := Getenv(env, "BUILD_JOB_NAME"),
      "${BUILD_PIPELINE_NAME}" := Getenv(env, "BUILD_PIPELINE_NAME"),
      "${ATC_EXTERNAL_URL}" := Getenv(env, "ATC_EXTERNAL_URL"),
      "${BUILD_TEAM_NAME}" := Getenv(env, "BUILD_TEAM_NAME")
    ]
  }

  /** One possible iteration order of the token table: each key exactly once. */
  predicate IsKeyOrder(order: seq<string>) {
    multiset(order) == multiset(Keys)
  }

  /** The closure replaceTokens: each key in `order`, in turn, is replaced
      everywhere in the text produced by the previous keys. Text in which none
      of the applied keys occurs comes back unchanged. */
  function ReplaceTokens(s: string, tokens: map<string, string>, order: seq<string>): (r: string)
    ensures (forall k :: k in order ==> !Contains(s, k)) ==> r == s
    decreases |order|
  {
    if |order| == 0 then s
    else
      var k := order[0];
      var t := if k in tokens then ReplaceAll(s, k, tokens[k]) else s;
      AbsentKeyKeeps(s, k, if k in tokens then tokens[k] else "");
      ReplaceTokens(t, tokens, order[1..])
  }

  /** Replacing a key that does not occur changes nothing. */
  lemma AbsentKeyKeeps(s: string, k: string, repl: string)
    ensures !Contains(s, k) ==> ReplaceAll(s, k, repl) == s
  {
    if !Contains(s, k) {
      assert OccursAt(s, k, 0) ==> Contains(s, k);
      ReplaceAbsent(s, k, repl);
    }
  }

  /** Whatever order the map is iterated in, text containing none of the six
      placeholders comes back unchanged. */
  lemma KeyFreeUnchangedInAnyOrder(s: string, env: map<string, string>, order: seq<string>)
    requires IsKeyOrder(order)
    requires forall i :: 0 <= i < |Keys| ==> !Contains(s, Keys[i])
    ensures ReplaceTokens(s, BuildTokens(env), order) == s
  {
    forall k | k in order
      ensures !Contains(s, k)
    {
      assert k in multiset(Keys);
      var i :| 0 <= i < |Keys| && Keys[i] == k;
    }
  }

  /** No placeholder occurs inside a different one. */
  lemma PlaceholdersDisjoint(n1: string, n2: string)
    requires Plain(n1) && Plain(n2) && n1 != n2
    ensures !Contains(Placeholder(n1), Placeholder(n2))
  {
    var a := Placeholder(n1);
    var b := Placeholder(n2);
    assert a[2..|a| - 1] == n1 && b[2..|b| - 1] == n2;
    forall i: nat
      ensures !OccursAt(a, b, i)
    {
      if i + |b| > |a| {
      } else if i == 0 {
        if |b| == |a| {
          assert a[2..|a| - 1] != b[2..|b| - 1];
        } else {
          assert a[|b| - 1] == n1[|b| - 3];
          assert a[i..i + |b|][|b| - 1] != b[|b| - 1];
        }
      } else {
        if i == 1 {
          assert a[i] == '{';
        } else {
          assert a[i] == n1[i - 2];
        }
        assert a[i..i + |b|][0] != b[0];
      }
    }
  }

  lemma NamesArePlain()
    ensures forall i :: 0 <= i < |Names| ==> Plain(Names[i])
  {
  }

  lemma KeysArePlaceholders()
    ensures |Keys| == |Names|
    ensures forall i :: 0 <= i < |Keys| ==> Keys[i] == Placeholder(Names[i])
  {
  }

  /** The six placeholders are pairwise disjoint: none occurs inside another. */
  lemma KeysDisjoint()
    ensures forall i, j :: 0 <= i < |Keys| && 0 <= j < |Keys| && i != j ==> !Contains(Keys[i], Keys[j])
  {
    forall i, j | 0 <= i < |Keys| && 0 <= j < |Keys| && i != j
      ensures !Contains(Keys[i], Keys[j])
    {
      NamesArePlain();
      KeysArePlaceholders();
      assert Names[i] != Names[j];
      PlaceholdersDisjoint(Names[i], Names[j]);
    }
  }

  lemma {:induction false} PlaceholderReplaced(p: string, tokens: map<string, string>, order: seq<string>)
    requires p in Keys && p in tokens && p in order
    requires forall k :: k in order ==> k in Keys
    requires forall k :: k in Keys ==> !Contains(tokens[p], k)
    ensures ReplaceTokens(p, tokens, order) == tokens[p]
    decreases |order|
  {
    var k := order[0];
    assert k in Keys;
    if k == p {
      assert |p| > 0;
      ReplaceWhole(p, tokens[p]);
    } else {
      KeysDisjoint();
      var a :| 0 <= a < |Keys| && Keys[a] == p;
      var b :| 0 <= b < |Keys| && Keys[b] == k;
      assert !Contains(p, k);
      if k in tokens {
        ReplaceAbsent(p, k, tokens[k]);
      }
      assert p in order[1..];
      PlaceholderReplaced(p, tokens, order[1..]);
    }
  }

  /** A lone placeholder becomes its variable's value, in every iteration
      order, provided that value holds no placeholder itself. */
  lemma PlaceholderBecomesValue(env: map<string, string>, order: seq<string>, i: nat)
    requires IsKeyOrder(order)
    requires i < |Keys|
    requires forall j :: 0 <= j < |Keys| ==> !Contains(Getenv(env, Names[i]), Keys[j])
    ensures ReplaceTokens(Keys[i], BuildTokens(env), order) == Getenv(env, Names[i])
  {
    var tokens := BuildTokens(env);
    assert Keys[i] in multiset(order);
    forall k | k in order
      ensures k in Keys
    {
      assert k in multiset(Keys);
    }
    PlaceholderReplaced(Keys[i], tokens, order);
  }

  lemma ReplaceTokensStep(s: string, tokens: map<string, string>, k: string, rest: seq<string>)
    requires k in tokens
    ensures ReplaceTokens(s, tokens, [k] + rest) == ReplaceTokens(ReplaceAll(s, k, tokens[k]), tokens, rest)
  {
    assert ([k] + rest)[1..] == rest;
  }

  /** Helper for the order examples below: the keys after the first two
      leave "7" and "${BUILD_ID}" alone. */
  lemma ExampleRestKeysAbsent(s: string, tokens: map<string, string>)
    requires s == "7" || s == Keys[0]
    ensures ReplaceTokens(s, tokens, Keys[2..]) == s
  {
    KeysDisjoint();
    forall k | k in Keys[2..]
      ensures !Contains(s, k)
    {
      var j :| 2 <= j < |Keys| && Keys[j] == k;
      if s == "7" {
        assert forall i: nat :: !OccursAt(s, k, i);
      }
    }
  }

  /** Helper for OrderIsObservable: both orders it compares are valid. */
  lemma ExampleOrdersAreKeyOrders()
    ensures IsKeyOrder([Keys[1], Keys[0]] + Keys[2..])
    ensures IsKeyOrder([Keys[0], Keys[1]] + Keys[2..])
  {
    var rest := Keys[2..];
    assert Keys == [Keys[0], Keys[1]] + rest;
    assert multiset([Keys[1], Keys[0]] + rest) == multiset([Keys[0], Keys[1]] + rest);
  }

  /** BUILD_NAME first: "${BUILD_NAME}" -> "${BUILD_ID}" -> "7". */
  lemma NameBeforeId(tokens: map<string, string>)
    requires Keys[0] in tokens && Keys[1] in tokens
    requires tokens[Keys[0]] == "7" && tokens[Keys[1]] == Keys[0]
    ensures ReplaceTokens(Keys[1], tokens, [Keys[1], Keys[0]] + Keys[2..]) == "7"
  {
    var rest := Keys[2..];
    ReplaceTokensStep(Keys[1], tokens, Keys[1], [Keys[0]] + rest);
    ReplaceWhole(Keys[1], Keys[0]);
    ReplaceTokensStep(Keys[0], tokens, Keys[0], rest);
    ReplaceWhole(Keys[0], "7");
    ExampleRestKeysAbsent("7", tokens);
    assert [Keys[1], Keys[0]] + rest == [Keys[1]] + ([Keys[0]] + rest);
  }

  /** BUILD_ID first: it does not occur, then "${BUILD_NAME}" -> "${BUILD_ID}". */
  lemma IdBeforeName(tokens: map<string, string>)
    requires Keys[0] in tokens && Keys[1] in tokens
    requires tokens[Keys[0]] == "7" && tokens[Keys[1]] == Keys[0]
    ensures ReplaceTokens(Keys[1], tokens, [Keys[0], Keys[1]] + Keys[2..]) == Keys[0]
  {
    var rest := Keys[2..];
    KeysDisjoint();
    ReplaceTokensStep(Keys[1], tokens, Keys[0], [Keys[1]] + rest);
    ReplaceAbsent(Keys[1], Keys[0], "7");
    ReplaceTokensStep(Keys[1], tokens, Keys[1], rest);
    ReplaceWhole(Keys[1], Keys[0]);
    ExampleRestKeysAbsent(Keys[0], tokens);
    assert [Keys[0], Keys[1]] + rest == [Keys[0]] + ([Keys[1]] + rest);
  }

  /** The iteration order is observable when a value holds another
      placeholder: with BUILD_NAME set to "${BUILD_ID}" and BUILD_ID to "7", the
      text "${BUILD_NAME}" becomes "7" when BUILD_NAME is applied first and stays
      "${BUILD_ID}" when BUILD_ID is applied first. */
  lemma OrderIsObservable(env: map<string, string>)
    requires env == map["BUILD_ID" := "7", "BUILD_NAME" := "${BUILD_ID}"]
    ensures IsKeyOrder([Keys[1], Keys[0]] + Keys[2..])
    ensures IsKeyOrder([Keys[0], Keys[1]] + Keys[2..])
    ensures ReplaceTokens(Keys[1], BuildTokens(env), [Keys[1], Keys[0]] + Keys[2..]) == "7"
    ensures ReplaceTokens(Keys[1], BuildTokens(env), [Keys[0], Keys[1]] + Keys[2..]) == Keys[0]
  {
    var tokens := BuildTokens(env);
    assert tokens[Keys[0]] == "7";
    assert tokens[Keys[1]] == Keys[0];
    ExampleOrdersAreKeyOrders();
    NameBeforeId(tokens);
    IdBeforeName(tokens);
  }
}
