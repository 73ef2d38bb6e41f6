/** The errors the email step can return, and the texts the source gives them. */
module Errors {

  /** A configuration field the validator can find missing, in check order. */
  datatype Field = Host | Port | From | To | Subject | Username | Password

  datatype Error =
    | NoSourceRoot
    | Decode(reason: string)            // the JSON decoder's own error
    | Missing(field: Field)
    | ReadFailed(path: string, reason: string)
    | Transport(reason: string)         // an error from the SMTP client

  /** The error text the source produces (out/out.go lines 30-66); for errors
      raised by collaborators, the collaborator's text. */
  function Text(e: Error): string {
    match e
    case NoSourceRoot => "expected path to build sources as first argument"
    case Decode(reason) => reason
    case Missing(f) => MissingText(f)
    case ReadFailed(path, reason) => "open " + path + ": " + reason
    case Transport(reason) => reason
  }

  function MissingText(f: Field): string {
    match f
    case Host => "missing required field \"source.smtp.host\""
    case Port => "missing required field \"source.smtp.port\""
    case From => "missing required field \"source.from\""
    case To => "missing required field \"source.to\" or \"params.to\". Must specify at least one"
    case Subject => "missing required field \"params.subject\" or \"params.subject_text\". Must specify at least one"
    case Username => "missing required field \"source.smtp.username\" if anonymous specify anonymous: true"
    case Password => "missing required field \"source.smtp.password\" if anonymous specify anonymous: true"
  }
}
