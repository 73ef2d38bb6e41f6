/** The out step, Execute (out/out.go lines 19-214): resolve and validate the
    configuration, assemble the message and hand it to the SMTP session. Every
    effect of the source is a parameter here: the environment, the JSON decoder's
    verdict, the file system, the clock, the server's replies and the order in
    which each replaceTokens call walks the token map. */
module Out {
  import opened Wrappers
  import opened Strs
  import opened Tokens
  import opened Errors
  import opened Config
  import opened Resolve
  import opened Recipients
  import opened Message
  import opened Tls
  import opened Smtp

  datatype MetadataItem = MetadataItem(name: string, value: string)

  /** The JSON document written on success: a version stamped with the time,
      and three metadata items. */
  datatype Output = Output(time: nat, metadata: seq<MetadataItem>)

  /** How Execute ends: a result on stdout; an error with the string the source
      returns next to it ("dial", "auth", "mail", "rcpt" or empty); or the
      process exiting with status 1 after printing the error (lines 106-108). */
  datatype Reported =
    | Emitted(output: Output)
    | Halted(slot: string, err: Error)
    | Exited(err: Error)

  /** The SMTP commands issued and how the step ended. */
  datatype Invocation = Invocation(commands: seq<Command>, reported: Reported)

  /** One iteration order of the token map for each replaceTokens call. */
  datatype KeyOrders = KeyOrders(subject: seq<string>, headers: seq<string>, body: seq<string>, to: seq<string>)

  /** Everything the checks and reads produce before the message is built. */
  datatype Prepared = Prepared(input: Input, subject: string, headers: string, body: string, to: seq<string>)

  /** An error from a read that the source returns with an empty first result. */
  function Halt<T>(r: Result<T, Error>): (h: Result<T, Reported>)
    ensures r.Success? <==> h.Success?
    ensures r.Success? ==> h.value == r.value
    ensures r.Failure? ==> h.error == Halted("", r.error)
  {
    match r
    case Success(v) => Success(v)
    case Failure(e) => Failure(Halted("", e))
  }

  /** Neither starts nor ends with a newline, as strings.Trim(s, "\n") leaves it. */
  predicate Unpadded(s: string) {
    |s| > 0 ==> s[0] != '\n' && s[|s| - 1] != '\n'
  }

  /** A path is named but its located file cannot be read. */
  predicate Unreadable(sourceRoot: string, path: string, fs: FileSystem) {
    path != "" && Locate(sourceRoot, path) !in fs
  }

  /** Lines 97-101: the subject, from text or file, trimmed of newlines. */
  function Subject(p: Params, sourceRoot: string, fs: FileSystem, tokens: map<string, string>, order: seq<string>)
    : (r: Result<string, Reported>)
    ensures r.Success? ==> Unpadded(r.value)
    ensures r.Success? && p.subjectText != "" ==> r.value == TrimNewlines(ReplaceTokens(p.subjectText, tokens, order))
    ensures p.subjectText == "" && p.subject == "" ==> r == Success("")
    ensures p.subjectText == "" && p.subject != "" ==> (r.Success? <==> Locate(sourceRoot, p.subject) in fs)
    ensures p.subjectText == "" && p.subject != "" && r.Success? ==>
              r.value == TrimNewlines(ReplaceTokens(fs[Locate(sourceRoot, p.subject)], tokens, order))
    ensures r.Failure? ==> p.subjectText == "" && r.error == Halted("", ReadFailed(Locate(sourceRoot, p.subject), "no such file or directory"))
  {
    var subject :- Halt(FromTextOrFile(p.subjectText, p.subject, sourceRoot, fs, tokens, order));
    Success(TrimNewlines(subject))
  }

  /** Lines 103-111: the extra header lines, read only when named and trimmed
      of newlines; a failed read exits the process. */
  function Headers(p: Params, sourceRoot: string, fs: FileSystem, tokens: map<string, string>, order: seq<string>)
    : (r: Result<string, Reported>)
    ensures p.headers == "" ==> r == Success("")
    ensures r.Success? ==> Unpadded(r.value)
    ensures r.Failure? <==> p.headers != "" && Locate(sourceRoot, p.headers) !in fs
    ensures p.headers != "" && r.Success? ==>
              r.value == TrimNewlines(ReplaceTokens(fs[Locate(sourceRoot, p.headers)], tokens, order))
    ensures r.Failure? ==> r.error.Exited? && r.error.err == ReadFailed(Locate(sourceRoot, p.headers), "no such file or directory")
  {
    if p.headers == "" then Success("")
    else
      match ReadSource(sourceRoot, p.headers, fs, tokens, order)
      case Success(headers) => Success(TrimNewlines(headers))
      case Failure(e) => Failure(Exited(e))
  }

  /** Lines 113-116: the body, from text or file, untrimmed. */
  function Body(p: Params, sourceRoot: string, fs: FileSystem, tokens: map<string, string>, order: seq<string>)
    : (r: Result<string, Reported>)
    ensures p.bodyText != "" ==> r == Success(ReplaceTokens(p.bodyText, tokens, order))
    ensures p.bodyText == "" && p.body == "" ==> r == Success("")
    ensures p.bodyText == "" && p.body != "" ==> (r.Success? <==> Locate(sourceRoot, p.body) in fs)
    ensures p.bodyText == "" && p.body != "" && r.Success? ==>
              r.value == ReplaceTokens(fs[Locate(sourceRoot, p.body)], tokens, order)
    ensures r.Failure? ==> p.bodyText == "" && r.error == Halted("", ReadFailed(Locate(sourceRoot, p.body), "no such file or directory"))
  {
    Halt(FromTextOrFile(p.bodyText, p.body, sourceRoot, fs, tokens, order))
  }

  /** Lines 118-130: the recipient list, extended when params.to names a file. */
  function AllRecipients(input: Input, sourceRoot: string, fs: FileSystem, tokens: map<string, string>, order: seq<string>)
    : (r: Result<seq<string>, Reported>)
    ensures r.Success? ==> input.source.to <= r.value
    ensures input.params.to == "" ==> r == Success(input.source.to)
    ensures input.params.to != "" ==> (r.Success? <==> Locate(sourceRoot, input.params.to) in fs)
    ensures input.params.to != "" && r.Success? ==>
              r.value == AppendRecipients(input.source.to, ReplaceTokens(fs[Locate(sourceRoot, input.params.to)], tokens, order))
    ensures r.Failure? ==> r.error == Halted("", ReadFailed(Locate(sourceRoot, input.params.to), "no such file or directory"))
  {
    Halt(LoadRecipients(input.source.to, input.params.to, sourceRoot, fs, tokens, order))
  }

  /** Lines 97-130: subject, headers, body and the recipient list extended
      from params.to, each stopping the step when its read fails. */
  function Gather(input: Input, sourceRoot: string, tokens: map<string, string>, orders: KeyOrders, fs: FileSystem)
    : (r: Result<Prepared, Reported>)
    ensures r.Success? ==> r.value.input == input
    ensures r.Success? ==> Unpadded(r.value.subject)
    ensures r.Success? ==> Unpadded(r.value.headers)
    ensures r.Success? && input.params.headers == "" ==> r.value.headers == ""
    ensures r.Success? ==> input.source.to <= r.value.to
    ensures r.Success? && input.params.to == "" ==> r.value.to == input.source.to
    ensures r.Failure? <==>
              || (input.params.subjectText == "" && Unreadable(sourceRoot, input.params.subject, fs))
              || Unreadable(sourceRoot, input.params.headers, fs)
              || (input.params.bodyText == "" && Unreadable(sourceRoot, input.params.body, fs))
              || Unreadable(sourceRoot, input.params.to, fs)
    ensures r.Failure? ==> (r.error.Halted? && r.error.slot == "" && r.error.err.ReadFailed?) || r.error.Exited?
    ensures r.Failure? && r.error.Exited? ==>
              && input.params.headers != ""
              && r.error.err == ReadFailed(Locate(sourceRoot, input.params.headers), "no such file or directory")
  {
    var p := input.params;
    var subject :- Subject(p, sourceRoot, fs, tokens, orders.subject);
    var headers :- Headers(p, sourceRoot, fs, tokens, orders.headers);
    GatherContent(input, sourceRoot, fs, tokens, orders, subject, headers)
  }

  /** Lines 113-130: the second half of Gather, once subject and headers are
      known: the body read, then the recipient list. */
  function GatherContent(input: Input, sourceRoot: string, fs: FileSystem, tokens: map<string, string>, orders: KeyOrders,
                         subject: string, headers: string)
    : (r: Result<Prepared, Reported>)
    ensures r.Success? ==> r.value == Prepared(input, subject, headers, r.value.body, r.value.to)
    ensures r.Success? ==> input.source.to <= r.value.to
    ensures r.Success? && input.params.to == "" ==> r.value.to == input.source.to
    ensures r.Success? && input.params.bodyText != "" ==> r.value.body == ReplaceTokens(input.params.bodyText, tokens, orders.body)
    ensures r.Success? && input.params.bodyText == "" && input.params.body == "" ==> r.value.body == ""
    ensures r.Failure? <==>
              || (input.params.bodyText == "" && Unreadable(sourceRoot, input.params.body, fs))
              || Unreadable(sourceRoot, input.params.to, fs)
    ensures input.params.bodyText == "" && Unreadable(sourceRoot, input.params.body, fs) ==>
              r == Failure(Halted("", ReadFailed(Locate(sourceRoot, input.params.body), "no such file or directory")))
    ensures !(input.params.bodyText == "" && Unreadable(sourceRoot, input.params.body, fs))
            && Unreadable(sourceRoot, input.params.to, fs) ==>
              r == Failure(Halted("", ReadFailed(Locate(sourceRoot, input.params.to), "no such file or directory")))
    ensures r.Success? && input.params.bodyText == "" && input.params.body != "" ==>
              r.value.body == ReplaceTokens(fs[Locate(sourceRoot, input.params.body)], tokens, orders.body)
    ensures r.Success? && input.params.to != "" ==>
              r.value.to == AppendRecipients(input.source.to, ReplaceTokens(fs[Locate(sourceRoot, input.params.to)], tokens, orders.to))
  {
    var body :- Body(input.params, sourceRoot, fs, tokens, orders.body);
    var to :- AllRecipients(input, sourceRoot, fs, tokens, orders.to);
    Success(Prepared(input, subject, headers, body, to))
  }

  /** Lines 97-130: on success, each field holds what its read produced:
      the inline text or the located file, with the tokens replaced, and the
      subject and headers trimmed of newlines. */
  lemma {:induction false} GatherReadValues(input: Input, sourceRoot: string, tokens: map<string, string>,
                                            orders: KeyOrders, fs: FileSystem, r: Result<Prepared, Reported>)
    requires r == Gather(input, sourceRoot, tokens, orders, fs)
    ensures r.Success? && input.params.subjectText != "" ==>
              r.value.subject == TrimNewlines(ReplaceTokens(input.params.subjectText, tokens, orders.subject))
    ensures r.Success? && input.params.bodyText != "" ==> r.value.body == ReplaceTokens(input.params.bodyText, tokens, orders.body)
    ensures r.Success? && input.params.bodyText == "" && input.params.body == "" ==> r.value.body == ""
    ensures r.Success? && input.params.subjectText == "" && input.params.subject != "" ==>
              r.value.subject == TrimNewlines(ReplaceTokens(fs[Locate(sourceRoot, input.params.subject)], tokens, orders.subject))
    ensures r.Success? && input.params.headers != "" ==>
              r.value.headers == TrimNewlines(ReplaceTokens(fs[Locate(sourceRoot, input.params.headers)], tokens, orders.headers))
    ensures r.Success? && input.params.bodyText == "" && input.params.body != "" ==>
              r.value.body == ReplaceTokens(fs[Locate(sourceRoot, input.params.body)], tokens, orders.body)
    ensures r.Success? && input.params.to != "" ==>
              r.value.to == AppendRecipients(input.source.to, ReplaceTokens(fs[Locate(sourceRoot, input.params.to)], tokens, orders.to))
  {
  }

  /** Lines 97-122: the reads happen in the order subject, headers, body,
      params.to, so the first unreadable file decides the failure, and only
      the headers read exits instead of halting. */
  lemma {:induction false} GatherFailsInReadOrder(input: Input, sourceRoot: string, tokens: map<string, string>,
                                                  orders: KeyOrders, fs: FileSystem, r: Result<Prepared, Reported>)
    requires r == Gather(input, sourceRoot, tokens, orders, fs)
    ensures input.params.subjectText == "" && Unreadable(sourceRoot, input.params.subject, fs) ==>
              r == Failure(Halted("", ReadFailed(Locate(sourceRoot, input.params.subject), "no such file or directory")))
    ensures && !(input.params.subjectText == "" && Unreadable(sourceRoot, input.params.subject, fs))
            && Unreadable(sourceRoot, input.params.headers, fs) ==>
              r == Failure(Exited(ReadFailed(Locate(sourceRoot, input.params.headers), "no such file or directory")))
    ensures && !(input.params.subjectText == "" && Unreadable(sourceRoot, input.params.subject, fs))
            && !Unreadable(sourceRoot, input.params.headers, fs)
            && input.params.bodyText == "" && Unreadable(sourceRoot, input.params.body, fs) ==>
              r == Failure(Halted("", ReadFailed(Locate(sourceRoot, input.params.body), "no such file or directory")))
    ensures && !(input.params.subjectText == "" && Unreadable(sourceRoot, input.params.subject, fs))
            && !Unreadable(sourceRoot, input.params.headers, fs)
            && !(input.params.bodyText == "" && Unreadable(sourceRoot, input.params.body, fs))
            && Unreadable(sourceRoot, input.params.to, fs) ==>
              r == Failure(Halted("", ReadFailed(Locate(sourceRoot, input.params.to), "no such file or directory")))
  {
  }

  /** Lines 29-68 then 97-130: the argument check, the decoder's verdict and
      the validator, each failing fast, then the reads. */
  function Prepare(sourceRoot: string, parsed: Result<Input, string>, env: map<string, string>, orders: KeyOrders,
                   fs: FileSystem): (r: Result<Prepared, Reported>)
    ensures sourceRoot == "" ==> r == Failure(Halted("", NoSourceRoot))
    ensures sourceRoot != "" && parsed.Failure? ==> r == Failure(Halted("", Decode(parsed.error)))
    ensures sourceRoot != "" && parsed.Success? && Validate(parsed.value).Some? ==>
              r == Failure(Halted("", Missing(Validate(parsed.value).value)))
    ensures sourceRoot != "" && parsed.Success? && Validate(parsed.value).None? ==>
              r == Gather(parsed.value, sourceRoot, BuildTokens(env), orders, fs)
    ensures r.Success? ==> sourceRoot != "" && parsed == Success(r.value.input) && forall f :: Satisfies(r.value.input, f)
    ensures r.Failure? ==> (r.error.Halted? && r.error.slot == "") || (r.error.Exited? && r.error.err.ReadFailed?)
  {
    if sourceRoot == "" then Failure(Halted("", NoSourceRoot))
    else if parsed.Failure? then Failure(Halted("", Decode(parsed.error)))
    else
      var missing := Validate(parsed.value);
      if missing.Some? then Failure(Halted("", Missing(missing.value)))
      else Gather(parsed.value, sourceRoot, BuildTokens(env), orders, fs)
  }

  /** Lines 132-138. */
  function Stamp(now: nat, host: string, subject: string, version: string): (o: Output)
    ensures o.time == now
    ensures |o.metadata| == 3
    ensures o.metadata[0] == MetadataItem("smtp_host", host)
    ensures o.metadata[1] == MetadataItem("subject", subject)
    ensures o.metadata[2] == MetadataItem("version", version)
  {
    Output(now, [MetadataItem("smtp_host", host), MetadataItem("subject", subject), MetadataItem("version", version)])
  }

  /** Line 144: the message is not sent when its body is empty and empty
      bodies were not asked for. */
  predicate Skips(prep: Prepared) {
    !prep.input.params.sendEmptyBody && |prep.body| == 0
  }

  /** Lines 148-157 and 162-186: the message, and the session settings. */
  function DeliveryFor(prep: Prepared): (d: Delivery)
    ensures d.to == prep.to && d.from == prep.input.source.from
    ensures d.host == prep.input.source.smtp.host && d.port == prep.input.source.smtp.port
    ensures d.anonymous == prep.input.source.smtp.anonymous
    ensures d.tls == TlsConfigFor(prep.input.source.smtp)
    ensures d.message == Build(prep.to, prep.input.source.from, prep.headers, prep.subject, prep.body)
  {
    var smtp := prep.input.source.smtp;
    Delivery(smtp.host, smtp.port, smtp.username, smtp.password, smtp.anonymous, TlsConfigFor(smtp),
             prep.input.source.from, prep.to, Build(prep.to, prep.input.source.from, prep.headers, prep.subject, prep.body))
  }

  /** Lines 144-213 once the configuration is resolved: skip the empty
      message, or converse with the server; a session failure is reported
      with its stage's tag, success writes the output document. */
  function Deliver(prep: Prepared, output: Output, replies: seq<Reply>): (r: Invocation)
    ensures Skips(prep) ==> r == Invocation([], Emitted(output))
    ensures !Skips(prep) ==> r.commands == Converse(DeliveryFor(prep), replies).trace
    ensures !Skips(prep) ==> (r.reported.Emitted? <==> Converse(DeliveryFor(prep), replies).outcome.Delivered?)
    ensures !Skips(prep) && Converse(DeliveryFor(prep), replies).outcome.Failed? ==>
              var o := Converse(DeliveryFor(prep), replies).outcome;
              r.reported == Halted(Tag(o.stage), Transport(o.reason))
    ensures r.reported.Emitted? ==> r.reported.output == output
    ensures !r.reported.Exited?
    ensures r.reported.Halted? ==>
              && r.reported.err.Transport?
              && |r.commands| > 0
              && r.reported.slot == Tag(StageOf(r.commands[|r.commands| - 1]))
    ensures |r.commands| > 0 ==> r.commands[0] == Dial(prep.input.source.smtp.host + ":" + prep.input.source.smtp.port)
  {
    if Skips(prep) then Invocation([], Emitted(output))
    else
      var d := DeliveryFor(prep);
      var s := Converse(d, replies);
      match s.outcome
      case Delivered => Invocation(s.trace, Emitted(output))
      case Failed(stage, reason) => Invocation(s.trace, Halted(Tag(stage), Transport(reason)))
  }

  /** Execute: the commands issued and what is reported. Nothing is sent
      before the argument, the decoded configuration and every required field
      have been checked, and the first command dials host:port. */
  function Execute(sourceRoot: string, version: string, parsed: Result<Input, string>, env: map<string, string>,
                   orders: KeyOrders, fs: FileSystem, now: nat, replies: seq<Reply>): (r: Invocation)
    ensures Prepare(sourceRoot, parsed, env, orders, fs).Failure? ==>
              r == Invocation([], Prepare(sourceRoot, parsed, env, orders, fs).error)
    ensures |r.commands| > 0 ==>
              && sourceRoot != "" && parsed.Success? && (forall f :: Satisfies(parsed.value, f))
              && r.commands[0] == Dial(parsed.value.source.smtp.host + ":" + parsed.value.source.smtp.port)
  {
    var prepared := Prepare(sourceRoot, parsed, env, orders, fs);
    if prepared.Failure? then Invocation([], prepared.error)
    else
      var prep := prepared.value;
      Deliver(prep, Stamp(now, prep.input.source.smtp.host, prep.subject, version), replies)
  }

  /** Lines 132-213: a prepared run either skips the empty message and still
      emits the output, or runs the SMTP session. It then issues exactly the
      session's commands, emits exactly on delivery, and otherwise returns the
      server's reason with the stage's tag. */
  lemma PreparedIsDelivered(sourceRoot: string, version: string, parsed: Result<Input, string>,
                            env: map<string, string>, orders: KeyOrders, fs: FileSystem, now: nat, replies: seq<Reply>)
    ensures var pr := Prepare(sourceRoot, parsed, env, orders, fs);
            var r := Execute(sourceRoot, version, parsed, env, orders, fs, now, replies);
            pr.Success? && Skips(pr.value) ==>
              r == Invocation([], Emitted(Stamp(now, pr.value.input.source.smtp.host, pr.value.subject, version)))
    ensures var pr := Prepare(sourceRoot, parsed, env, orders, fs);
            var r := Execute(sourceRoot, version, parsed, env, orders, fs, now, replies);
            pr.Success? && !Skips(pr.value) ==>
              var s := Converse(DeliveryFor(pr.value), replies);
              && r.commands == s.trace
              && (r.reported.Emitted? <==> s.outcome.Delivered?)
              && (s.outcome.Failed? ==> r.reported == Halted(Tag(s.outcome.stage), Transport(s.outcome.reason)))
  {
    var pr := Prepare(sourceRoot, parsed, env, orders, fs);
    if pr.Success? {
      var prep := pr.value;
      assert Execute(sourceRoot, version, parsed, env, orders, fs, now, replies)
          == Deliver(prep, Stamp(now, prep.input.source.smtp.host, prep.subject, version), replies);
    }
  }

  /** Whether or not a message was sent, a successful step reports the time
      and exactly the metadata smtp_host, subject and version, in that order. */
  lemma EmittedMetadata(sourceRoot: string, version: string, parsed: Result<Input, string>,
                        env: map<string, string>, orders: KeyOrders, fs: FileSystem, now: nat, replies: seq<Reply>)
    ensures var r := Execute(sourceRoot, version, parsed, env, orders, fs, now, replies);
            r.reported.Emitted? ==>
              && parsed.Success?
              && r.reported.output.time == now
              && |r.reported.output.metadata| == 3
              && r.reported.output.metadata[0] == MetadataItem("smtp_host", parsed.value.source.smtp.host)
              && Prepare(sourceRoot, parsed, env, orders, fs).Success?
              && r.reported.output.metadata[1] == MetadataItem("subject", Prepare(sourceRoot, parsed, env, orders, fs).value.subject)
              && Unpadded(r.reported.output.metadata[1].value)
              && r.reported.output.metadata[2] == MetadataItem("version", version)
  {
    var prepared := Prepare(sourceRoot, parsed, env, orders, fs);
    if prepared.Success? {
      var prep := prepared.value;
      assert prep.input == parsed.value;
    }
  }

  /** Only session failures carry a stage tag, and the tag names the stage of
      the last command issued. */
  lemma TaggedFailures(sourceRoot: string, version: string, parsed: Result<Input, string>,
                       env: map<string, string>, orders: KeyOrders, fs: FileSystem, now: nat, replies: seq<Reply>)
    ensures var r := Execute(sourceRoot, version, parsed, env, orders, fs, now, replies);
            r.reported.Halted? && r.reported.slot != "" ==>
              && |r.commands| > 0
              && r.reported.err.Transport?
              && r.reported.slot == Tag(StageOf(r.commands[|r.commands| - 1]))
              && r.reported.slot in {"dial", "auth", "mail", "rcpt"}
  {
    var prepared := Prepare(sourceRoot, parsed, env, orders, fs);
    if prepared.Success? {
      var prep := prepared.value;
      assert Execute(sourceRoot, version, parsed, env, orders, fs, now, replies)
          == Deliver(prep, Stamp(now, prep.input.source.smtp.host, prep.subject, version), replies);
    }
  }

  /** The process exits only when a named headers file cannot be read, and
      before any command is sent. */
  lemma ExitOnlyOnHeaders(sourceRoot: string, version: string, parsed: Result<Input, string>,
                          env: map<string, string>, orders: KeyOrders, fs: FileSystem, now: nat, replies: seq<Reply>)
    ensures var r := Execute(sourceRoot, version, parsed, env, orders, fs, now, replies);
            r.reported.Exited? ==>
              && r.commands == []
              && parsed.Success? && parsed.value.params.headers != ""
              && r.reported.err == ReadFailed(Locate(sourceRoot, parsed.value.params.headers), "no such file or directory")
  {
    var prepared := Prepare(sourceRoot, parsed, env, orders, fs);
    if prepared.Success? {
      var prep := prepared.value;
      assert Execute(sourceRoot, version, parsed, env, orders, fs, now, replies)
          == Deliver(prep, Stamp(now, prep.input.source.smtp.host, prep.subject, version), replies);
    } else if sourceRoot != "" && parsed.Success? && Validate(parsed.value).None? {
      assert prepared == Gather(parsed.value, sourceRoot, BuildTokens(env), orders, fs);
    }
  }

  /** Every fixed recipient of source.to gets a RCPT when the step succeeds
      after sending, and so does every address read from params.to. */
  lemma SuccessReachedEveryRecipient(sourceRoot: string, version: string, parsed: Result<Input, string>,
                                     env: map<string, string>, orders: KeyOrders, fs: FileSystem, now: nat, replies: seq<Reply>)
    ensures var r := Execute(sourceRoot, version, parsed, env, orders, fs, now, replies);
            r.reported.Emitted? && |r.commands| > 0 ==>
              && parsed.Success?
              && (forall a :: a in parsed.value.source.to ==> Rcpt(a) in r.commands)
              && Prepare(sourceRoot, parsed, env, orders, fs).Success?
              && (forall a :: a in Prepare(sourceRoot, parsed, env, orders, fs).value.to ==> Rcpt(a) in r.commands)
              && Quit in r.commands
  {
    var r := Execute(sourceRoot, version, parsed, env, orders, fs, now, replies);
    if r.reported.Emitted? && |r.commands| > 0 {
      var prepared := Prepare(sourceRoot, parsed, env, orders, fs);
      assert prepared == Gather(parsed.value, sourceRoot, BuildTokens(env), orders, fs);
      var prep := prepared.value;
      var output := Stamp(now, prep.input.source.smtp.host, prep.subject, version);
      assert r == Deliver(prep, output, replies);
      DeliverReachesEveryRecipient(prep, output, replies);
      forall a | a in parsed.value.source.to
        ensures Rcpt(a) in r.commands
      {
        var i :| 0 <= i < |parsed.value.source.to| && parsed.value.source.to[i] == a;
        assert prep.to[i] == a;
      }
    }
  }

  /** A delivery that got as far as sending reached every recipient and quit. */
  lemma {:induction false} DeliverReachesEveryRecipient(prep: Prepared, output: Output, replies: seq<Reply>)
    ensures var r := Deliver(prep, output, replies);
            r.reported.Emitted? && |r.commands| > 0 ==>
              && (forall a :: a in prep.to ==> Rcpt(a) in r.commands)
              && Quit in r.commands
  {
    var r := Deliver(prep, output, replies);
    if r.reported.Emitted? && |r.commands| > 0 {
      var d := DeliveryFor(prep);
      assert d.to == prep.to;
      DeliveredReachesEveryRecipient(d, replies);
    }
  }

  /** A delivered session issued RCPT for every recipient, and QUIT. */
  lemma {:induction false} DeliveredReachesEveryRecipient(d: Delivery, replies: seq<Reply>)
    requires Converse(d, replies).outcome.Delivered?
    ensures forall a :: a in d.to ==> Rcpt(a) in Converse(d, replies).trace
    ensures Quit in Converse(d, replies).trace
  {
    DeliveredSendsEverything(d, replies);
    PlanLayout(d);
    assert Plan(d)[|Plan(d)| - 1] == Quit;
    forall a | a in d.to
      ensures Rcpt(a) in Converse(d, replies).trace
    {
      var i :| 0 <= i < |d.to| && d.to[i] == a;
    }
  }

  /** An anonymous configuration never negotiates TLS or authenticates. */
  lemma AnonymousNeverAuthenticates(sourceRoot: string, version: string, parsed: Result<Input, string>,
                                    env: map<string, string>, orders: KeyOrders, fs: FileSystem, now: nat, replies: seq<Reply>)
    requires parsed.Success? && parsed.value.source.smtp.anonymous
    ensures forall c :: c in Execute(sourceRoot, version, parsed, env, orders, fs, now, replies).commands ==>
              !c.StartTls? && !c.Auth?
  {
    var prepared := Prepare(sourceRoot, parsed, env, orders, fs);
    if prepared.Success? && !Skips(prepared.value) {
      AnonymousSkipsTlsAndAuth(DeliveryFor(prepared.value), replies);
    }
  }

  /** Otherwise STARTTLS carries the TLS settings of lines 216-233 and AUTH the
      configured credentials for the configured host. */
  lemma SecuredWithConfiguredSettings(sourceRoot: string, version: string, parsed: Result<Input, string>,
                                      env: map<string, string>, orders: KeyOrders, fs: FileSystem, now: nat, replies: seq<Reply>)
    requires parsed.Success?
    ensures forall c :: c in Execute(sourceRoot, version, parsed, env, orders, fs, now, replies).commands && c.StartTls? ==>
              c.config == TlsConfigFor(parsed.value.source.smtp)
    ensures forall c :: c in Execute(sourceRoot, version, parsed, env, orders, fs, now, replies).commands && c.Auth? ==>
              var smtp := parsed.value.source.smtp;
              c == Auth(smtp.username, smtp.password, smtp.host)
  {
    var prepared := Prepare(sourceRoot, parsed, env, orders, fs);
    if prepared.Success? && !Skips(prepared.value) {
      SessionCarriesSettings(DeliveryFor(prepared.value), replies);
    }
  }

  /** With send_empty_body unset and no body given at all, nothing is sent. */
  lemma NoBodyNothingSent(sourceRoot: string, version: string, parsed: Result<Input, string>,
                          env: map<string, string>, orders: KeyOrders, fs: FileSystem, now: nat, replies: seq<Reply>)
    requires parsed.Success?
    requires !parsed.value.params.sendEmptyBody && parsed.value.params.body == "" && parsed.value.params.bodyText == ""
    ensures Execute(sourceRoot, version, parsed, env, orders, fs, now, replies).commands == []
    ensures !Execute(sourceRoot, version, parsed, env, orders, fs, now, replies).reported.Halted? ||
            Execute(sourceRoot, version, parsed, env, orders, fs, now, replies).reported.slot == ""
    ensures Prepare(sourceRoot, parsed, env, orders, fs).Success? ==>
              Execute(sourceRoot, version, parsed, env, orders, fs, now, replies).reported.Emitted?
  {
    var prepared := Prepare(sourceRoot, parsed, env, orders, fs);
    if prepared.Success? {
      assert prepared.value.input == parsed.value;
      assert prepared.value.body == "";
      assert Skips(prepared.value);
    }
  }

  /** A subject given inline as one placeholder is reported in the metadata
      as that variable's value, whatever order the token map is walked in. */
  lemma PlaceholderSubjectReported(sourceRoot: string, version: string, parsed: Result<Input, string>,
                                   env: map<string, string>, orders: KeyOrders, fs: FileSystem, now: nat, replies: seq<Reply>, i: nat)
    requires i < |Keys| && IsKeyOrder(orders.subject)
    requires forall j :: 0 <= j < |Keys| ==> !Contains(Getenv(env, Names[i]), Keys[j])
    requires parsed.Success? && parsed.value.params.subjectText == Keys[i]
    ensures var r := Execute(sourceRoot, version, parsed, env, orders, fs, now, replies);
            r.reported.Emitted? ==> r.reported.output.metadata[1] == MetadataItem("subject", TrimNewlines(Getenv(env, Names[i])))
  {
    var prepared := Prepare(sourceRoot, parsed, env, orders, fs);
    if prepared.Success? {
      var tokens := BuildTokens(env);
      assert prepared == Gather(parsed.value, sourceRoot, tokens, orders, fs);
      GatherReadValues(parsed.value, sourceRoot, tokens, orders, fs, prepared);
      var prep := prepared.value;
      KeysArePlaceholders();
      assert |Keys[i]| > 0;
      assert prep.subject == TrimNewlines(ReplaceTokens(Keys[i], tokens, orders.subject));
      PlaceholderBecomesValue(env, orders.subject, i);
      var output := Stamp(now, prep.input.source.smtp.host, prep.subject, version);
      assert Execute(sourceRoot, version, parsed, env, orders, fs, now, replies) == Deliver(prep, output, replies);
    }
  }

  /** The message written after DATA is the one assembled from the resolved
      fields, with subject and headers free of surrounding newlines. */
  lemma WrittenMessage(sourceRoot: string, version: string, parsed: Result<Input, string>,
                       env: map<string, string>, orders: KeyOrders, fs: FileSystem, now: nat, replies: seq<Reply>, m: string)
    ensures Write(m) in Execute(sourceRoot, version, parsed, env, orders, fs, now, replies).commands ==>
              && Prepare(sourceRoot, parsed, env, orders, fs).Success?
              && var prep := Prepare(sourceRoot, parsed, env, orders, fs).value;
                 && m == Build(prep.to, parsed.value.source.from, prep.headers, prep.subject, prep.body)
                 && Unpadded(prep.subject)
                 && Unpadded(prep.headers)
                 && (parsed.value.params.headers == "" ==> prep.headers == "")
  {
    var prepared := Prepare(sourceRoot, parsed, env, orders, fs);
    if Write(m) in Execute(sourceRoot, version, parsed, env, orders, fs, now, replies).commands {
      assert prepared.Success?;
      assert prepared == Gather(parsed.value, sourceRoot, BuildTokens(env), orders, fs);
      var prep := prepared.value;
      assert !Skips(prep);
      assert Write(m) in Converse(DeliveryFor(prep), replies).trace;
      WritesOnlyMessage(DeliveryFor(prep), replies);
    }
  }
}
