/** The SMTP session (out/out.go lines 159-213). Every call on the net/smtp
    client is one command, and the server's answer to the n-th command is the
    n-th entry of a scripted reply list. The session is specified as a plan of
    commands run until the first rejection that matters, and implemented the
    way the source is written. */
module Smtp {
  import opened Wrappers
  import opened Tls

  datatype Command =
    | Dial(addr: string)
    | StartTls(config: TlsConfig)
    | Auth(username: string, password: string, host: string)
    | Mail(from: string)
    | Rcpt(to: string)
    | Data
    | Write(message: string)
    | Close
    | Quit

  datatype Reply = Accepted | Rejected(reason: string)

  /** The server's answer to the n-th command; past the end of the script the
      connection is gone and every command fails. */
  function ReplyAt(replies: seq<Reply>, n: nat): Reply {
    if n < |replies| then replies[n] else Rejected("EOF")
  }

  /** The step a failure is reported against. */
  datatype Stage = DialStage | AuthStage | MailStage | RcptStage | Untagged

  /** The string the source returns next to the error. */
  function Tag(s: Stage): string {
    match s
    case DialStage => "dial"
    case AuthStage => "auth"
    case MailStage => "mail"
    case RcptStage => "rcpt"
    case Untagged => ""
  }

  function StageOf(c: Command): Stage {
    match c
    case Dial(_) => DialStage
    case Auth(_, _, _) => AuthStage
    case Mail(_) => MailStage
    case Rcpt(_) => RcptStage
    case _ => Untagged
  }

  datatype Outcome = Delivered | Failed(stage: Stage, reason: string)

  /** The commands issued, in order, and how the session ended. */
  datatype Session = Session(trace: seq<Command>, outcome: Outcome)

  /** Everything the session needs from the resolved configuration. */
  datatype Delivery = Delivery(
    host: string,
    port: string,
    username: string,
    password: string,
    anonymous: bool,
    tls: TlsConfig,
    from: string,
    to: seq<string>,
    message: string)

  function Address(d: Delivery): string {
    d.host + ":" + d.port
  }

  /** Dial, then STARTTLS and AUTH unless anonymous, then MAIL. */
  function Opening(d: Delivery): seq<Command> {
    [Dial(Address(d))]
    + (if d.anonymous then [] else [StartTls(d.tls), Auth(d.username, d.password, d.host)])
    + [Mail(d.from)]
  }

  function RcptAll(to: seq<string>): (r: seq<Command>)
    ensures |r| == |to| && forall i :: 0 <= i < |to| ==> r[i] == Rcpt(to[i])
  {
    seq(|to|, i requires 0 <= i < |to| => Rcpt(to[i]))
  }

  function Closing(d: Delivery): seq<Command> {
    [Data, Write(d.message), Close, Quit]
  }

  /** Every command the source would issue if the server accepted them all. */
  function Plan(d: Delivery): (p: seq<Command>)
    ensures |p| == |Opening(d)| + |d.to| + 4
    ensures p[0] == Dial(Address(d)) && p[|p| - 1] == Quit
  {
    Opening(d) + RcptAll(d.to) + Closing(d)
  }

  /** Where each command sits in the plan. */
  lemma PlanLayout(d: Delivery)
    ensures |Opening(d)| == (if d.anonymous then 2 else 4)
    ensures |Plan(d)| == |Opening(d)| + |d.to| + 4
    ensures Plan(d)[0] == Dial(Address(d))
    ensures !d.anonymous ==> Plan(d)[1] == StartTls(d.tls) && Plan(d)[2] == Auth(d.username, d.password, d.host)
    ensures Plan(d)[|Opening(d)| - 1] == Mail(d.from)
    ensures forall i :: 0 <= i < |d.to| ==> Plan(d)[|Opening(d)| + i] == Rcpt(d.to[i])
    ensures forall j :: 0 <= j < 4 ==> Plan(d)[|Opening(d)| + |d.to| + j] == Closing(d)[j]
  {
    var o := Opening(d);
    var r := RcptAll(d.to);
    assert Plan(d) == o + r + Closing(d);
    forall i | 0 <= i < |d.to|
      ensures Plan(d)[|o| + i] == Rcpt(d.to[i])
    {
      assert Plan(d)[|o| + i] == r[i];
    }
  }

  /** The command at index k was accepted, or its reply is ignored. */
  predicate Passes(plan: seq<Command>, replies: seq<Reply>, k: nat)
    requires k < |plan|
  {
    plan[k].StartTls? || ReplyAt(replies, k).Accepted?
  }

  /** Every command before index n passed. */
  predicate AcceptedBefore(plan: seq<Command>, replies: seq<Reply>, n: nat) {
    forall k :: 0 <= k < n && k < |plan| ==> Passes(plan, replies, k)
  }

  /** Run the plan from index i: issue each command; the first rejected one
      (a rejected STARTTLS excepted) ends the session with its stage. */
  function Run(plan: seq<Command>, replies: seq<Reply>, i: nat): (s: Session)
    requires i <= |plan|
    ensures |s.trace| <= |plan| - i && s.trace == plan[i..i + |s.trace|]
    ensures s.outcome.Delivered? ==> |s.trace| == |plan| - i
    ensures forall k :: i <= k < i + |s.trace| - 1 ==> Passes(plan, replies, k)
    ensures s.outcome.Delivered? ==> forall k :: i <= k < |plan| ==> Passes(plan, replies, k)
    ensures s.outcome.Failed? ==>
              && |s.trace| > 0
              && !plan[i + |s.trace| - 1].StartTls?
              && ReplyAt(replies, i + |s.trace| - 1).Rejected?
              && s.outcome == Failed(StageOf(plan[i + |s.trace| - 1]), ReplyAt(replies, i + |s.trace| - 1).reason)
    decreases |plan| - i
  {
    if i == |plan| then Session([], Delivered)
    else
      var reply := ReplyAt(replies, i);
      if reply.Rejected? && !plan[i].StartTls? then
        Session([plan[i]], Failed(StageOf(plan[i]), reply.reason))
      else
        var rest := Run(plan, replies, i + 1);
        Session([plan[i]] + rest.trace, rest.outcome)
  }

  /** The session from the start: it is a prefix of the plan, it is delivered
      exactly when every reply that matters was an acceptance, and a failure
      names the stage of the last command issued. */
  function Converse(d: Delivery, replies: seq<Reply>): (s: Session)
    ensures s.trace <= Plan(d)
    ensures |s.trace| > 0 && s.trace[0] == Dial(Address(d))
    ensures s.outcome.Delivered? <==> s.trace == Plan(d) && AcceptedBefore(Plan(d), replies, |Plan(d)|)
    ensures s.outcome.Failed? ==>
              && |s.trace| > 0
              && AcceptedBefore(Plan(d), replies, |s.trace| - 1)
              && ReplyAt(replies, |s.trace| - 1).Rejected?
              && s.outcome.stage == StageOf(s.trace[|s.trace| - 1])
  {
    var s := Run(Plan(d), replies, 0);
    assert s.outcome.Failed? ==> !Passes(Plan(d), replies, |s.trace| - 1);
    assert Plan(d)[0] == Dial(Address(d));
    s
  }

  /** A rejection at index n after acceptances before it ends the session there. */
  lemma RunStopsAt(plan: seq<Command>, replies: seq<Reply>, n: nat)
    requires n < |plan| && AcceptedBefore(plan, replies, n)
    requires !plan[n].StartTls? && ReplyAt(replies, n).Rejected?
    ensures Run(plan, replies, 0) == Session(plan[..n + 1], Failed(StageOf(plan[n]), ReplyAt(replies, n).reason))
  {
    var s := Run(plan, replies, 0);
    assert !Passes(plan, replies, n);
    assert s.outcome.Failed?;
    var last := |s.trace| - 1;
    assert !Passes(plan, replies, last);
    assert last == n;
  }

  /** Acceptances all the way through deliver the whole plan. */
  lemma RunDelivers(plan: seq<Command>, replies: seq<Reply>)
    requires AcceptedBefore(plan, replies, |plan|)
    ensures Run(plan, replies, 0) == Session(plan, Delivered)
  {
    var s := Run(plan, replies, 0);
    assert s.outcome.Failed? ==> !Passes(plan, replies, |s.trace| - 1);
  }

  /** Issue the next planned command and read its reply. */
  method Issue(plan: seq<Command>, replies: seq<Reply>, trace: seq<Command>, c: Command)
    returns (trace': seq<Command>, rejection: Option<string>)
    requires |trace| < |plan| && trace == plan[..|trace|] && plan[|trace|] == c
    requires AcceptedBefore(plan, replies, |trace|)
    ensures trace' == trace + [c] == plan[..|trace'|]
    ensures rejection.None? ==> AcceptedBefore(plan, replies, |trace'|)
    ensures rejection.Some? ==> !c.StartTls? && Run(plan, replies, 0) == Session(trace', Failed(StageOf(c), rejection.value))
  {
    trace' := trace + [c];
    var reply := ReplyAt(replies, |trace|);
    if reply.Rejected? && !c.StartTls? {
      RunStopsAt(plan, replies, |trace|);
      rejection := Some(reply.reason);
    } else {
      rejection := None;
    }
  }

  /** The commands issued so far are the start of the plan, and all were accepted. */
  predicate OnPlan(plan: seq<Command>, replies: seq<Reply>, trace: seq<Command>) {
    |trace| <= |plan| && trace == plan[..|trace|] && AcceptedBefore(plan, replies, |trace|)
  }

  /** Lines 162-190: dial, STARTTLS (result ignored) and AUTH unless anonymous, MAIL. */
  method Open(d: Delivery, replies: seq<Reply>) returns (trace: seq<Command>, failure: Option<Outcome>)
    ensures failure.None? ==> |trace| == |Opening(d)| && OnPlan(Plan(d), replies, trace)
    ensures failure.Some? ==> Run(Plan(d), replies, 0) == Session(trace, failure.value)
  {
    var plan := Plan(d);
    PlanLayout(d);
    var rejection;
    trace, rejection := Issue(plan, replies, [], Dial(Address(d)));
    if rejection.Some? {
      return trace, Some(Failed(DialStage, rejection.value));
    }
    if !d.anonymous {
      trace, rejection := Issue(plan, replies, trace, StartTls(d.tls));
      trace, rejection := Issue(plan, replies, trace, Auth(d.username, d.password, d.host));
      if rejection.Some? {
        return trace, Some(Failed(AuthStage, rejection.value));
      }
    }
    trace, rejection := Issue(plan, replies, trace, Mail(d.from));
    if rejection.Some? {
      return trace, Some(Failed(MailStage, rejection.value));
    }
    failure := None;
  }

  /** Lines 191-195: one RCPT per recipient, stopping at the first rejection. */
  method AddRecipients(d: Delivery, replies: seq<Reply>, begun: seq<Command>)
    returns (trace: seq<Command>, failure: Option<Outcome>)
    requires |begun| == |Opening(d)| && OnPlan(Plan(d), replies, begun)
    ensures failure.None? ==> |trace| == |Opening(d)| + |d.to| && OnPlan(Plan(d), replies, trace)
    ensures failure.Some? ==> Run(Plan(d), replies, 0) == Session(trace, failure.value)
  {
    var plan := Plan(d);
    trace := begun;
    var i := 0;
    while i < |d.to|
      invariant 0 <= i <= |d.to|
      invariant |trace| == |Opening(d)| + i
      invariant OnPlan(plan, replies, trace)
    {
      RcptAt(d, i);
      var rejection;
      trace, rejection := Issue(plan, replies, trace, Rcpt(d.to[i]));
      if rejection.Some? {
        return trace, Some(Failed(RcptStage, rejection.value));
      }
      i := i + 1;
    }
    failure := None;
  }

  /** Lines 196-211: DATA, the message, close, QUIT; failures carry no stage. */
  method Transfer(d: Delivery, replies: seq<Reply>, addressed: seq<Command>)
    returns (trace: seq<Command>, outcome: Outcome)
    requires |addressed| == |Opening(d)| + |d.to| && OnPlan(Plan(d), replies, addressed)
    ensures Run(Plan(d), replies, 0) == Session(trace, outcome)
  {
    var plan := Plan(d);
    ClosingLayout(d);
    var failure;
    trace, failure := IssueUntagged(plan, replies, addressed, Data);
    if failure.Some? {
      return trace, failure.value;
    }
    trace, failure := IssueUntagged(plan, replies, trace, Write(d.message));
    if failure.Some? {
      return trace, failure.value;
    }
    trace, failure := IssueUntagged(plan, replies, trace, Close);
    if failure.Some? {
      return trace, failure.value;
    }
    trace, failure := IssueUntagged(plan, replies, trace, Quit);
    if failure.Some? {
      return trace, failure.value;
    }
    RunDelivers(plan, replies);
    outcome := Delivered;
  }

  /** Issue a command whose failure the source reports without a stage. */
  method IssueUntagged(plan: seq<Command>, replies: seq<Reply>, trace: seq<Command>, c: Command)
    returns (trace': seq<Command>, failure: Option<Outcome>)
    requires |trace| < |plan| && plan[|trace|] == c && StageOf(c) == Untagged && !c.StartTls?
    requires OnPlan(plan, replies, trace)
    ensures failure.None? ==> |trace'| == |trace| + 1 && OnPlan(plan, replies, trace')
    ensures failure.None? && |trace'| == |plan| ==> trace' == plan
    ensures failure.Some? ==> Run(plan, replies, 0) == Session(trace', failure.value)
  {
    var rejection;
    trace', rejection := Issue(plan, replies, trace, c);
    if rejection.Some? {
      return trace', Some(Failed(Untagged, rejection.value));
    }
    failure := None;
  }

  /** The four commands that end the plan. */
  lemma ClosingLayout(d: Delivery)
    ensures |Plan(d)| == |Opening(d)| + |d.to| + 4
    ensures Plan(d)[|Opening(d)| + |d.to|] == Data
    ensures Plan(d)[|Opening(d)| + |d.to| + 1] == Write(d.message)
    ensures Plan(d)[|Opening(d)| + |d.to| + 2] == Close
    ensures Plan(d)[|Opening(d)| + |d.to| + 3] == Quit
  {
    var head := Opening(d) + RcptAll(d.to);
    assert Plan(d) == head + Closing(d);
  }

  /** The command sequence written as the source writes it: each failure
      returns at once with its stage. */
  method Send(d: Delivery, replies: seq<Reply>) returns (trace: seq<Command>, outcome: Outcome)
    ensures Session(trace, outcome) == Converse(d, replies)
  {
    var failure;
    trace, failure := Open(d, replies);
    if failure.Some? {
      return trace, failure.value;
    }
    trace, failure := AddRecipients(d, replies, trace);
    if failure.Some? {
      return trace, failure.value;
    }
    trace, outcome := Transfer(d, replies, trace);
  }

  /** Run reads only the replies to commands that are not STARTTLS. */
  lemma {:induction false} RunIgnoresStartTlsReplies(plan: seq<Command>, r1: seq<Reply>, r2: seq<Reply>, i: nat)
    requires i <= |plan|
    requires forall n :: i <= n < |plan| && !plan[n].StartTls? ==> ReplyAt(r1, n) == ReplyAt(r2, n)
    ensures Run(plan, r1, i) == Run(plan, r2, i)
    decreases |plan| - i
  {
    if i < |plan| {
      RunIgnoresStartTlsReplies(plan, r1, r2, i + 1);
    }
  }

  /** The error from StartTLS is discarded (line 176): two scripts that differ
      only in the reply to STARTTLS give the same session. */
  lemma StartTlsReplyIgnored(d: Delivery, r1: seq<Reply>, r2: seq<Reply>)
    requires !d.anonymous
    requires forall n :: n != 1 ==> ReplyAt(r1, n) == ReplyAt(r2, n)
    ensures Converse(d, r1) == Converse(d, r2)
  {
    PlanLayout(d);
    forall n | 0 <= n < |Plan(d)| && !Plan(d)[n].StartTls?
      ensures ReplyAt(r1, n) == ReplyAt(r2, n)
    {
    }
    RunIgnoresStartTlsReplies(Plan(d), r1, r2, 0);
  }

  /** The sender is announced only after the dial, and, unless anonymous, after
      STARTTLS and an accepted AUTH. */
  lemma MailOnlyAfterAuth(d: Delivery, replies: seq<Reply>, k: nat)
    requires k < |Converse(d, replies).trace| && Converse(d, replies).trace[k].Mail?
    ensures d.anonymous ==> k == 1
    ensures !d.anonymous ==>
              && k == 3
              && Converse(d, replies).trace[..3] == [Dial(Address(d)), StartTls(d.tls), Auth(d.username, d.password, d.host)]
              && ReplyAt(replies, 2).Accepted?
  {
    var s := Converse(d, replies);
    assert s.trace[k] == Plan(d)[k];
    PlanAt(d, k);
    if !d.anonymous {
      PlanLayout(d);
      assert s.trace[..3] == Plan(d)[..3];
      assert Passes(Plan(d), replies, 2);
    }
  }

  /** An anonymous session never negotiates TLS or authenticates. */
  lemma AnonymousSkipsTlsAndAuth(d: Delivery, replies: seq<Reply>)
    requires d.anonymous
    ensures forall k :: 0 <= k < |Converse(d, replies).trace| ==>
              !Converse(d, replies).trace[k].StartTls? && !Converse(d, replies).trace[k].Auth?
  {
    var s := Converse(d, replies);
    forall k | 0 <= k < |s.trace|
      ensures !s.trace[k].StartTls? && !s.trace[k].Auth?
    {
      assert s.trace[k] == Plan(d)[k];
      PlanAt(d, k);
    }
  }

  /** A refused recipient ends the session after that RCPT: the recipients
      before it were sent, and no message data was. */
  lemma RcptRefusal(d: Delivery, replies: seq<Reply>, k: nat)
    requires k < |d.to|
    requires AcceptedBefore(Plan(d), replies, |Opening(d)| + k)
    requires ReplyAt(replies, |Opening(d)| + k).Rejected?
    ensures Converse(d, replies) ==
              Session(Opening(d) + RcptAll(d.to)[..k + 1], Failed(RcptStage, ReplyAt(replies, |Opening(d)| + k).reason))
    ensures Data !in Converse(d, replies).trace
  {
    var o := Opening(d);
    var r := RcptAll(d.to);
    var n := |o| + k;
    RcptAt(d, k);
    RunStopsAt(Plan(d), replies, n);
    assert Plan(d) == o + (r + Closing(d));
    PrefixInto(o, r, Closing(d), k + 1);
    NoDataBeforeClosing(d, k + 1);
  }

  lemma PrefixInto<T>(a: seq<T>, b: seq<T>, c: seq<T>, m: nat)
    requires m <= |b|
    ensures (a + (b + c))[..|a| + m] == a + b[..m]
  {
  }

  /** DATA is not among the opening commands or the first m RCPTs. */
  lemma NoDataBeforeClosing(d: Delivery, m: nat)
    requires m <= |d.to|
    ensures Data !in Opening(d) + RcptAll(d.to)[..m]
  {
    var p := RcptAll(d.to)[..m];
    assert forall i :: 0 <= i < |p| ==> p[i].Rcpt?;
  }

  /** Where the k-th recipient sits in the plan. */
  lemma RcptAt(d: Delivery, k: nat)
    requires k < |d.to|
    ensures |Plan(d)| == |Opening(d)| + |d.to| + 4
    ensures Plan(d)[|Opening(d)| + k] == Rcpt(d.to[k])
  {
    var o := Opening(d);
    var r := RcptAll(d.to);
    assert Plan(d) == o + r + Closing(d);
    assert Plan(d)[|o| + k] == r[k];
  }

  /** The stage of a failure locates it in the plan. */
  lemma FailureStage(d: Delivery, replies: seq<Reply>)
    requires Converse(d, replies).outcome.Failed?
    ensures var s := Converse(d, replies);
            var n := |s.trace|;
            && (s.outcome.stage == DialStage <==> n == 1)
            && (s.outcome.stage == AuthStage <==> !d.anonymous && n == 3)
            && (s.outcome.stage == MailStage <==> n == |Opening(d)|)
            && (s.outcome.stage == RcptStage <==> |Opening(d)| < n <= |Opening(d)| + |d.to|)
            && (s.outcome.stage == Untagged <==> n > |Opening(d)| + |d.to|)
  {
    var s := Converse(d, replies);
    var n := |s.trace|;
    assert s.trace[n - 1] == Plan(d)[n - 1];
    PlanAt(d, n - 1);
  }

  /** A delivered session dialled, sent the sender, every recipient and the message. */
  lemma DeliveredSendsEverything(d: Delivery, replies: seq<Reply>)
    requires Converse(d, replies).outcome.Delivered?
    ensures Dial(Address(d)) in Converse(d, replies).trace
    ensures Mail(d.from) in Converse(d, replies).trace
    ensures forall i :: 0 <= i < |d.to| ==> Rcpt(d.to[i]) in Converse(d, replies).trace
    ensures Write(d.message) in Converse(d, replies).trace
  {
    var plan := Plan(d);
    PlanLayout(d);
    assert plan[|Opening(d)| + |d.to| + 1] == Write(d.message);
  }

  /** What sits at one index of the plan. */
  lemma PlanAt(d: Delivery, k: nat)
    requires k < |Plan(d)|
    ensures Plan(d)[k].Dial? <==> k == 0
    ensures Plan(d)[k].StartTls? <==> !d.anonymous && k == 1
    ensures Plan(d)[k].Auth? <==> !d.anonymous && k == 2
    ensures Plan(d)[k].Mail? <==> k == |Opening(d)| - 1
    ensures Plan(d)[k].Rcpt? <==> |Opening(d)| <= k < |Opening(d)| + |d.to|
    ensures Plan(d)[k].StartTls? ==> Plan(d)[k] == StartTls(d.tls)
    ensures Plan(d)[k].Auth? ==> Plan(d)[k] == Auth(d.username, d.password, d.host)
    ensures Plan(d)[k].Write? ==> Plan(d)[k] == Write(d.message)
    ensures StageOf(Plan(d)[k]) == Untagged && !Plan(d)[k].StartTls? <==> k >= |Opening(d)| + |d.to|
    ensures |Opening(d)| == (if d.anonymous then 2 else 4)
  {
    var o := Opening(d);
    var r := RcptAll(d.to);
    assert Plan(d) == o + r + Closing(d);
    if k < |o| {
      assert Plan(d)[k] == o[k];
    } else if k < |o| + |r| {
      assert Plan(d)[k] == r[k - |o|];
    } else {
      assert Plan(d)[k] == Closing(d)[k - |o| - |r|];
    }
  }

  /** STARTTLS carries the delivery's TLS settings and AUTH its credentials. */
  lemma SessionCarriesSettings(d: Delivery, replies: seq<Reply>)
    ensures forall c :: c in Converse(d, replies).trace && c.StartTls? ==> c == StartTls(d.tls)
    ensures forall c :: c in Converse(d, replies).trace && c.Auth? ==> c == Auth(d.username, d.password, d.host)
  {
    var trace := Converse(d, replies).trace;
    forall c | c in trace
      ensures c.StartTls? ==> c == StartTls(d.tls)
      ensures c.Auth? ==> c == Auth(d.username, d.password, d.host)
    {
      var k :| 0 <= k < |trace| && trace[k] == c;
      assert c == Plan(d)[k];
      PlanAt(d, k);
    }
  }

  /** The only text written after DATA is the delivery's message. */
  lemma WritesOnlyMessage(d: Delivery, replies: seq<Reply>)
    ensures forall c :: c in Converse(d, replies).trace && c.Write? ==> c == Write(d.message)
  {
    var trace := Converse(d, replies).trace;
    forall c | c in trace && c.Write?
      ensures c == Write(d.message)
    {
      var k :| 0 <= k < |trace| && trace[k] == c;
      assert c == Plan(d)[k];
      PlanAt(d, k);
    }
  }
}
