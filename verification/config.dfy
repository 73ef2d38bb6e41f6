/** The decoded configuration and its validator (out/out.go lines 40-68). */
module Config {
  import opened Wrappers
  import opened Errors

  datatype SmtpSettings = SmtpSettings(
    host: string,
    port: string,
    username: string,
    password: string,
    anonymous: bool,
    skipSslValidation: bool,
    caCert: string)

  datatype Source = Source(smtp: SmtpSettings, from: string, to: seq<string>)

  /** File paths (subject, body, headers, to) and inline texts of the step. */
  datatype Params = Params(
    subject: string,
    subjectText: string,
    body: string,
    bodyText: string,
    headers: string,
    to: string,
    sendEmptyBody: bool)

  datatype Input = Input(source: Source, params: Params)

  /** Position of a field in the order the checks run. */
  function Rank(f: Field): nat {
    match f
    case Host => 0
    case Port => 1
    case From => 2
    case To => 3
    case Subject => 4
    case Username => 5
    case Password => 6
  }

  /** The requirement on `input` that the check for `f` enforces. */
  predicate Satisfies(input: Input, f: Field) {
    var smtp := input.source.smtp;
    match f
    case Host => smtp.host != ""
    case Port => smtp.port != ""
    case From => input.source.from != ""
    case To => |input.source.to| != 0 || input.params.to != ""
    case Subject => input.params.subject != "" || input.params.subjectText != ""
    case Username => smtp.anonymous || smtp.username != ""
    case Password => smtp.anonymous || smtp.password != ""
  }

  /** Fail-fast validation: None when the input is complete, otherwise the
      first field, in check order, whose requirement fails. */
  function Validate(input: Input): (r: Option<Field>)
    ensures r.Some? ==> !Satisfies(input, r.value)
    ensures r.None? <==> forall f :: Satisfies(input, f)
    ensures r.Some? ==> forall f :: Rank(f) < Rank(r.value) ==> Satisfies(input, f)
  {
    var smtp := input.source.smtp;
    if smtp.host == "" then Some(Host)
    else if smtp.port == "" then Some(Port)
    else if input.source.from == "" then Some(From)
    else if |input.source.to| == 0 && |input.params.to| == 0 then Some(To)
    else if input.params.subject == "" && input.params.subjectText == "" then Some(Subject)
    else if !smtp.anonymous then
      if smtp.username == "" then Some(Username)
      else if smtp.password == "" then Some(Password)
      else None
    else None
  }

  /** An anonymous configuration is judged without looking at its credentials:
      blanking them changes nothing, and it is never rejected for them. */
  lemma AnonymousIgnoresCredentials(input: Input)
    requires input.source.smtp.anonymous
    ensures Validate(input) !in {Some(Username), Some(Password)}
    ensures Validate(input) ==
            Validate(input.(source := input.source.(smtp := input.source.smtp.(username := "", password := ""))))
  {
  }
}
