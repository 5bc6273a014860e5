/** What the identity gate keeps over every run of openings, presentations and checks. */
module GateLaws {
  import opened AccessGate
  import opened AccessPolicy
  import opened AllowedDomains
  import opened Prelude
  import opened Text
  import opened TextLaws

  // ------------------------------------------------------------------------
  // One session, step by step
  // ------------------------------------------------------------------------

  predicate StatusLeads(a: Status, b: Status) {
    a == b || b == Refused || (a != Refused && b == Verified)
  }

  /** A session's later state: who it is stays, what was stamped stays, its status only moves forward. */
  predicate Continues(a: Session, b: Session) {
    && StatusLeads(a.status, b.status)
    && a == b.(status := a.status, expiresAt := a.expiresAt, verifiedAt := a.verifiedAt, viewedAt := a.viewedAt,
               reason := a.reason, attempts := a.attempts, views := a.views)
    && (a.verifiedAt.Some? || b.verifiedAt.None? ==> b.verifiedAt == a.verifiedAt && b.expiresAt == a.expiresAt)
    && (a.viewedAt.Some? ==> b.viewedAt == a.viewedAt)
    && a.attempts <= b.attempts
  }

  /** When a session stops being worth anything, from the two instants that decide it. */
  function Deadline(s: Session, ttl: Ttl): int {
    if s.verifiedAt.None? then s.issuedAt + ttl.session * HOUR else s.verifiedAt.value + ttl.grant * HOUR
  }

  predicate Sound(s: Session, ttl: Ttl) {
    && s.mode != OpenMode
    && s.expiresAt == Deadline(s, ttl)
    && (s.status == Pending ==> s.mode == VerifyEmail && s.verifiedAt.None?)
    && (s.status == Identified ==> s.mode == Identify && s.verifiedAt.None?)
    && (s.status == Verified ==> s.verifiedAt.Some?)
    && (s.verifiedAt.Some? ==> s.verifiedAt.value < s.issuedAt + ttl.session * HOUR)
    && (s.status == Refused <==> s.reason.Some?)
    && (s.attempts > MAX_VERIFY_ATTEMPTS ==> s.status == Refused)
    && s.views == (if s.viewedAt.Some? then 1 else 0)
    && (s.viewedAt.Some? && s.mode == VerifyEmail ==> s.verifiedAt.Some?)
  }

  lemma PresentSound(s: Session, policy: Policy, ttl: Ttl, now: int)
    requires Sound(s, ttl)
    ensures Sound(Present(s, policy, ttl, now), ttl) && Continues(s, Present(s, policy, ttl, now))
  {
  }

  lemma FirstViewSound(s: Session, ttl: Ttl, now: int)
    requires Sound(s, ttl) && s.viewedAt.None? && s.status in {Identified, Verified}
    ensures Sound(FirstView(s, now), ttl) && Continues(s, FirstView(s, now))
  {
  }

  lemma IssuedSound(room: string, policy: Policy, form: Form, bot: bool, ttl: Ttl, now: int)
    requires policy.mode != OpenMode
    ensures Sound(Issued(room, policy, form, bot, ttl, now), ttl)
  {
    var reason := Rejection(policy, form, bot);
  }

  ghost predicate AllSound(g: Gate, ttl: Ttl) {
    forall i :: 0 <= i < |g.sessions| ==> Sound(g.sessions[i], ttl)
  }

  ghost predicate GateContinues(g: Gate, h: Gate) {
    && |g.sessions| <= |h.sessions|
    && forall i :: 0 <= i < |g.sessions| ==> Continues(g.sessions[i], h.sessions[i])
  }

  lemma NextSound(g: Gate, ttl: Ttl, op: Op)
    requires AllSound(g, ttl)
    ensures AllSound(Next(g, ttl, op), ttl) && GateContinues(g, Next(g, ttl, op))
  {
    match op
    case Open(room, form, bot, policy, now) =>
      if policy.mode != OpenMode { IssuedSound(room, policy, form, bot, ttl, now); }
    case Verify(room, token, policy, now) =>
      if token.Some? && Finds(g, room, token.value) { PresentSound(g.sessions[token.value], policy, ttl, now); }
    case Check(room, token, policy, now) =>
      if CheckAnswer(g, room, token, policy, now).Granted? && g.sessions[token.value].viewedAt.None? {
        FirstViewSound(g.sessions[token.value], ttl, now);
      }
  }

  lemma {:induction false} RunSound(ttl: Ttl, ops: seq<Op>)
    ensures AllSound(Run(ttl, ops), ttl)
  {
    if ops != [] {
      RunSound(ttl, ops[..|ops| - 1]);
      NextSound(Run(ttl, ops[..|ops| - 1]), ttl, ops[|ops| - 1]);
    }
  }

  /**
   Every session in every run: it is issued for one session lifetime; being verified,
   which only happens within that lifetime, replaces it by one grant lifetime; it is
   viewed only once it has been verified where that was asked for; and its status is
   refused exactly when a reason is on record, which past ten attempts it is.
   */
  lemma SessionsAreSound(ttl: Ttl, ops: seq<Op>, token: nat)
    requires token < |Run(ttl, ops).sessions|
    ensures Sound(Run(ttl, ops).sessions[token], ttl)
  {
    RunSound(ttl, ops);
  }

  /**
   Over every run a session's identity never changes, its status moves only from
   identified or pending to verified to refused, or straight to refused, and its
   expiry changes at most once, when it is verified.
   */
  lemma {:induction false} SessionsContinue(ttl: Ttl, ops: seq<Op>, n: nat)
    requires n <= |ops|
    ensures GateContinues(Run(ttl, ops[..n]), Run(ttl, ops))
    decreases |ops|
  {
    if n == |ops| {
      assert ops[..n] == ops;
    } else {
      var init := ops[..|ops| - 1];
      SessionsContinue(ttl, init, n);
      assert init[..n] == ops[..n];
      RunSound(ttl, init);
      NextSound(Run(ttl, init), ttl, ops[|ops| - 1]);
      ContinuesTransitive(Run(ttl, ops[..n]), Run(ttl, init), Run(ttl, ops));
    }
  }

  lemma ContinuesTransitive(f: Gate, g: Gate, h: Gate)
    requires GateContinues(f, g) && GateContinues(g, h)
    ensures GateContinues(f, h)
  {
    forall i | 0 <= i < |f.sessions| ensures Continues(f.sessions[i], h.sessions[i]) {
      assert Continues(f.sessions[i], g.sessions[i]) && Continues(g.sessions[i], h.sessions[i]);
    }
  }

  // ------------------------------------------------------------------------
  // What happened to a token in a run
  // ------------------------------------------------------------------------

  datatype Event = Presentation | Success | Verification | TurnedAway | Grant | LinkQueued

  /** A call made in gate `g` is such an event for the token. */
  predicate Happens(e: Event, g: Gate, op: Op, token: nat) {
    match e
    case Presentation => Presents(g, op, token)
    case Success => Presents(g, op, token)
      && PresentAnswer(g.sessions[token], op.policy, op.now) in {NowVerified, AlreadyVerified}
    case Verification => Presents(g, op, token) && PresentAnswer(g.sessions[token], op.policy, op.now) == NowVerified
    case TurnedAway =>
      || (op.Open? && OpenAnswer(g, op.policy, op.form, op.bot).Denied? && token == |g.sessions|)
      || (Presents(g, op, token) && PresentAnswer(g.sessions[token], op.policy, op.now).Turned?)
    case Grant => op.Check? && op.token == Some(token) && CheckAnswer(g, op.room, op.token, op.policy, op.now).Granted?
    case LinkQueued => op.Open? && op.form.deliver && OpenAnswer(g, op.policy, op.form, op.bot) == LinkSent(token)
  }

  predicate Presents(g: Gate, op: Op, token: nat) {
    op.Verify? && op.token == Some(token) && Finds(g, op.room, token)
  }

  /** How often it happened. */
  function Times(e: Event, ttl: Ttl, ops: seq<Op>, token: nat): nat {
    if ops == [] then 0
    else
      Times(e, ttl, ops[..|ops| - 1], token)
      + if Happens(e, Run(ttl, ops[..|ops| - 1]), ops[|ops| - 1], token) then 1 else 0
  }

  function RowsOf(rows: seq<ViewRow>, token: nat): seq<ViewRow> {
    if rows == [] then []
    else RowsOf(rows[..|rows| - 1], token) + if rows[|rows| - 1].token == token then [rows[|rows| - 1]] else []
  }

  /**
   A row that says who viewed, where and when, and whether they were verified, as they
   were where that was asked for.
   */
  predicate Describes(row: ViewRow, token: nat, s: Session) {
    && row.token == token && row.email == s.email && row.name == s.name && Some(row.at) == s.viewedAt
    && (row.room == "" || row.room == RoomOf(s))
    && (s.mode == VerifyEmail ==> row.verified) && (row.verified ==> s.verifiedAt.Some?)
  }

  /** What a session's fields say about how often each event happened to it. */
  predicate Tallied(s: Session, presentations: nat, successes: nat, verifications: nat, refusals: nat, grants: nat) {
    && s.attempts == presentations
    && successes <= presentations && successes <= MAX_VERIFY_ATTEMPTS
    && verifications == (if s.verifiedAt.Some? then 1 else 0)
    && (s.status == Refused <==> refusals > 0)
    && (s.viewedAt.Some? <==> grants > 0)
  }

  predicate OneRow(s: Session, token: nat, rows: seq<ViewRow>) {
    if s.viewedAt.None? then rows == [] else |rows| == 1 && Describes(rows[0], token, s)
  }

  ghost predicate TalliedIn(ttl: Ttl, ops: seq<Op>, token: nat) {
    var g := Run(ttl, ops);
    if token < |g.sessions| then
      && Tallied(g.sessions[token], Times(Presentation, ttl, ops, token), Times(Success, ttl, ops, token),
                 Times(Verification, ttl, ops, token), Times(TurnedAway, ttl, ops, token),
                 Times(Grant, ttl, ops, token))
      && OneRow(g.sessions[token], token, RowsOf(g.activity, token))
    else
      && (forall e :: Times(e, ttl, ops, token) == 0)
      && RowsOf(g.activity, token) == []
  }

  function Bump(b: bool): nat {
    if b then 1 else 0
  }

  lemma TallyStep(g: Gate, ttl: Ttl, op: Op, token: nat, p: nat, u: nat, v: nat, r: nat, w: nat)
    requires AllSound(g, ttl) && token < |g.sessions| && Tallied(g.sessions[token], p, u, v, r, w)
    ensures token < |Next(g, ttl, op).sessions|
    ensures Tallied(Next(g, ttl, op).sessions[token], p + Bump(Happens(Presentation, g, op, token)),
                    u + Bump(Happens(Success, g, op, token)), v + Bump(Happens(Verification, g, op, token)),
                    r + Bump(Happens(TurnedAway, g, op, token)), w + Bump(Happens(Grant, g, op, token)))
  {
    assert Sound(g.sessions[token], ttl);
  }

  lemma RowsExtend(rows: seq<ViewRow>, row: ViewRow, token: nat)
    ensures RowsOf(rows + [row], token) == RowsOf(rows, token) + if row.token == token then [row] else []
  {
    assert (rows + [row])[..|rows|] == rows;
  }

  /** A call that leaves no row leaves the first view of every session alone. */
  lemma NoRow(g: Gate, ttl: Ttl, op: Op, token: nat)
    requires token < |g.sessions| && Next(g, ttl, op).activity == g.activity
    ensures token < |Next(g, ttl, op).sessions|
    ensures var s, t := g.sessions[token], Next(g, ttl, op).sessions[token];
            t == s.(status := t.status, expiresAt := t.expiresAt, verifiedAt := t.verifiedAt, reason := t.reason,
                    attempts := t.attempts)
  {
  }

  lemma RowStep(g: Gate, ttl: Ttl, op: Op, token: nat)
    requires AllSound(g, ttl) && token < |g.sessions| && OneRow(g.sessions[token], token, RowsOf(g.activity, token))
    ensures token < |Next(g, ttl, op).sessions|
    ensures OneRow(Next(g, ttl, op).sessions[token], token, RowsOf(Next(g, ttl, op).activity, token))
  {
    var h := Next(g, ttl, op);
    if h.activity == g.activity {
      NoRow(g, ttl, op, token);
    } else {
      var row := RowFor(op.token.value, op.room, FirstView(g.sessions[op.token.value], op.now), op.now);
      RowsExtend(g.activity, row, token);
      assert Sound(g.sessions[token], ttl);
    }
  }

  /** A token not yet issued: nothing happens to it until it is, and then only its being refused on the spot. */
  lemma FreshStep(g: Gate, ttl: Ttl, op: Op, token: nat)
    requires token >= |g.sessions| && RowsOf(g.activity, token) == []
    ensures !Happens(Presentation, g, op, token) && !Happens(Success, g, op, token)
    ensures !Happens(Verification, g, op, token) && !Happens(Grant, g, op, token)
    ensures RowsOf(Next(g, ttl, op).activity, token) == []
    ensures token >= |Next(g, ttl, op).sessions| ==>
              !Happens(TurnedAway, g, op, token) && !Happens(LinkQueued, g, op, token)
    ensures token < |Next(g, ttl, op).sessions| ==>
              var s := Next(g, ttl, op).sessions[token];
              s.attempts == 0 && s.verifiedAt.None? && s.viewedAt.None?
                && (s.status == Refused <==> Happens(TurnedAway, g, op, token))
  {
    match op
    case Open(room, form, bot, policy, now) =>
      FreshOpen(g, room, form, bot, policy, ttl, now);
    case Verify(room, presented, policy, now) =>
      assert Next(g, ttl, op).activity == g.activity && |Next(g, ttl, op).sessions| == |g.sessions|;
    case Check(room, presented, policy, now) =>
      FreshCheck(g, room, presented, policy, now, token);
  }

  lemma FreshOpen(g: Gate, room: string, form: Form, bot: bool, policy: Policy, ttl: Ttl, now: int)
    ensures var h := AfterOpen(g, room, policy, form, bot, ttl, now);
            && h.activity == g.activity
            && if h.sessions == g.sessions then !OpenAnswer(g, policy, form, bot).Denied?
               else
                 && |h.sessions| == |g.sessions| + 1
                 && var s := h.sessions[|g.sessions|];
                    s.attempts == 0 && s.verifiedAt.None? && s.viewedAt.None?
                    && (s.status == Refused <==> OpenAnswer(g, policy, form, bot).Denied?)
  {
    assert Objection(policy, form).Some? ==> !Objection(policy, form).value.Denied?;
  }

  lemma FreshCheck(g: Gate, room: string, presented: Option<nat>, policy: Policy, now: int, token: nat)
    requires token >= |g.sessions| && RowsOf(g.activity, token) == []
    ensures RowsOf(AfterCheck(g, room, presented, policy, now).activity, token) == []
    ensures |AfterCheck(g, room, presented, policy, now).sessions| == |g.sessions|
    ensures presented == Some(token) ==> CheckAnswer(g, room, presented, policy, now) == NoSuchToken
  {
    var h := AfterCheck(g, room, presented, policy, now);
    if h.activity != g.activity {
      RowsExtend(g.activity, h.activity[|g.activity|], token);
    }
  }

  /**
   Over every run a session's attempts are the presentations that found it in its
   room, at most ten of which succeed; it is verified at most once; it is refused
   exactly if some call turned it away; and it has one analytics row, describing its
   first view, exactly if some check was granted, and none otherwise.
   */
  lemma {:induction false} TallyOverRuns(ttl: Ttl, ops: seq<Op>, token: nat)
    ensures TalliedIn(ttl, ops, token)
  {
    if ops != [] {
      var init, op := ops[..|ops| - 1], ops[|ops| - 1];
      var g := Run(ttl, init);
      TallyOverRuns(ttl, init, token);
      RunSound(ttl, init);
      if token < |g.sessions| {
        TallyStep(g, ttl, op, token, Times(Presentation, ttl, init, token), Times(Success, ttl, init, token),
                  Times(Verification, ttl, init, token), Times(TurnedAway, ttl, init, token),
                  Times(Grant, ttl, init, token));
        RowStep(g, ttl, op, token);
      } else {
        FreshStep(g, ttl, op, token);
      }
    }
  }

  // ------------------------------------------------------------------------
  // The verification mail
  // ------------------------------------------------------------------------

  function MessagesOf(outbox: seq<Message>, token: nat): seq<Message> {
    if outbox == [] then []
    else
      MessagesOf(outbox[..|outbox| - 1], token)
      + if outbox[|outbox| - 1].token == token then [outbox[|outbox| - 1]] else []
  }

  /** As many messages as were queued, at most one, to the session's address, and sent if the session is verified. */
  predicate Mailed(s: Session, token: nat, messages: seq<Message>, queued: nat) {
    && |messages| == queued <= 1
    && (queued == 1 ==> s.mode == VerifyEmail && messages == [Message(token, s.room, s.email, s.verifiedAt.Some?)])
  }

  lemma MessagesExtend(outbox: seq<Message>, m: Message, token: nat)
    ensures MessagesOf(outbox + [m], token) == MessagesOf(outbox, token) + if m.token == token then [m] else []
  {
    assert (outbox + [m])[..|outbox|] == outbox;
  }

  /** Marking touches the last message of its own token alone. */
  lemma {:induction false} MarkedMessages(outbox: seq<Message>, t: nat, token: nat)
    ensures var before, after := MessagesOf(outbox, token), MessagesOf(MarkSent(outbox, t), token);
            if t != token || before == [] then after == before
            else after == before[..|before| - 1] + [before[|before| - 1].(sent := true)]
  {
    if outbox != [] {
      var init, last := outbox[..|outbox| - 1], outbox[|outbox| - 1];
      if last.token == t {
        MessagesExtend(init, last.(sent := true), token);
      } else {
        MarkedMessages(init, t, token);
        MessagesExtend(MarkSent(init, t), last, token);
      }
    }
  }

  /** An answered presentation verifies the session exactly if it says so. */
  lemma VerifiedNow(s: Session, policy: Policy, ttl: Ttl, now: int)
    requires Sound(s, ttl)
    ensures var t := Present(s, policy, ttl, now);
            && t.room == s.room && t.email == s.email && t.mode == s.mode
            && if PresentAnswer(s, policy, now) == NowVerified then s.verifiedAt.None? && t.verifiedAt.Some?
               else t.verifiedAt == s.verifiedAt
  {
  }

  lemma VerifyMails(g: Gate, ttl: Ttl, op: Op, token: nat, queued: nat)
    requires op.Verify? && AllSound(g, ttl) && token < |g.sessions|
    requires Mailed(g.sessions[token], token, MessagesOf(g.outbox, token), queued)
    ensures var h := Next(g, ttl, op);
            |h.sessions| == |g.sessions| && Mailed(h.sessions[token], token, MessagesOf(h.outbox, token), queued)
  {
    if op.token.Some? && Finds(g, op.room, op.token.value) {
      VerifiedNow(g.sessions[op.token.value], op.policy, ttl, op.now);
      MarkedMessages(g.outbox, op.token.value, token);
    }
  }

  ghost predicate MailedIn(g: Gate, token: nat, queued: nat) {
    if token < |g.sessions| then Mailed(g.sessions[token], token, MessagesOf(g.outbox, token), queued)
    else queued == 0 && MessagesOf(g.outbox, token) == []
  }

  /** What opening does, as far as the mail goes. */
  ghost predicate OpensTo(g: Gate, h: Gate, answer: Opened, deliver: bool) {
    if h == g then !answer.LinkSent?
    else
      && |h.sessions| == |g.sessions| + 1 && h.sessions[..|g.sessions|] == g.sessions
      && var s := h.sessions[|g.sessions|];
         && s.verifiedAt.None?
         && (if answer.LinkSent? then answer.token == |g.sessions| && s.mode == VerifyEmail else s.status != Pending)
         && h.outbox == if answer.LinkSent? && deliver then g.outbox + [Message(|g.sessions|, s.room, s.email, false)]
                        else g.outbox
  }

  lemma Opening(g: Gate, room: string, policy: Policy, form: Form, bot: bool, ttl: Ttl, now: int)
    ensures OpensTo(g, AfterOpen(g, room, policy, form, bot, ttl, now), OpenAnswer(g, policy, form, bot), form.deliver)
  {
    assert Objection(policy, form).Some? ==> !Objection(policy, form).value.LinkSent?;
  }

  lemma OpenMails(g: Gate, h: Gate, answer: Opened, deliver: bool, token: nat, queued: nat)
    requires OpensTo(g, h, answer, deliver) && MailedIn(g, token, queued)
    ensures MailedIn(h, token, queued + Bump(deliver && answer == LinkSent(token)))
  {
    if h.outbox != g.outbox {
      MessagesExtend(g.outbox, h.outbox[|g.outbox|], token);
    }
    if token < |g.sessions| {
      assert h.sessions[..|g.sessions|][token] == g.sessions[token];
    }
  }

  lemma CheckMails(g: Gate, ttl: Ttl, op: Op, token: nat)
    requires op.Check? && token < |g.sessions|
    ensures var h := Next(g, ttl, op);
            h.outbox == g.outbox && |h.sessions| == |g.sessions|
            && h.sessions[token].(viewedAt := g.sessions[token].viewedAt, views := g.sessions[token].views)
              == g.sessions[token]
  {
  }

  lemma MailStep(g: Gate, ttl: Ttl, op: Op, token: nat, queued: nat)
    requires AllSound(g, ttl) && MailedIn(g, token, queued)
    ensures MailedIn(Next(g, ttl, op), token, queued + Bump(Happens(LinkQueued, g, op, token)))
  {
    if op.Open? {
      Opening(g, op.room, op.policy, op.form, op.bot, ttl, op.now);
      OpenMails(g, Next(g, ttl, op), OpenAnswer(g, op.policy, op.form, op.bot), op.form.deliver, token, queued);
    } else if token < |g.sessions| {
      if op.Verify? { VerifyMails(g, ttl, op, token, queued); } else { CheckMails(g, ttl, op, token); }
    } else {
      QuietMails(g, ttl, op, token);
    }
  }

  lemma QuietMails(g: Gate, ttl: Ttl, op: Op, token: nat)
    requires !op.Open?
    ensures |Next(g, ttl, op).sessions| == |g.sessions|
    ensures token >= |g.sessions| ==> MessagesOf(Next(g, ttl, op).outbox, token) == MessagesOf(g.outbox, token)
  {
    if op.Verify? && op.token.Some? {
      MarkedMessages(g.outbox, op.token.value, token);
    }
  }

  /**
   Over every run a session has one message, to its own address, exactly if its link
   was to be delivered when it was opened; the message is marked sent exactly when
   the session is verified.
   */
  lemma {:induction false} MailOverRuns(ttl: Ttl, ops: seq<Op>, token: nat)
    ensures MailedIn(Run(ttl, ops), token, Times(LinkQueued, ttl, ops, token))
  {
    if ops != [] {
      var init := ops[..|ops| - 1];
      MailOverRuns(ttl, init, token);
      RunSound(ttl, init);
      MailStep(Run(ttl, init), ttl, ops[|ops| - 1], token, Times(LinkQueued, ttl, init, token));
    }
  }

  // ------------------------------------------------------------------------
  // What a grant rests on
  // ------------------------------------------------------------------------

  /**
   A check of a token in its room is granted exactly if no call ever turned it away,
   its link was followed in time or no link was asked for, and its deadline has not come.
   */
  lemma GrantedExactly(ttl: Ttl, ops: seq<Op>, room: string, token: nat, policy: Policy, now: int)
    requires Finds(Run(ttl, ops), room, token)
    ensures var s := Run(ttl, ops).sessions[token];
            CheckAnswer(Run(ttl, ops), room, Some(token), policy, now).Granted? <==>
            && Times(TurnedAway, ttl, ops, token) == 0
            && (Times(Verification, ttl, ops, token) == 1 || s.mode == Identify)
            && now < Deadline(s, ttl)
  {
    RunSound(ttl, ops);
    TallyOverRuns(ttl, ops, token);
    assert Sound(Run(ttl, ops).sessions[token], ttl);
  }

  lemma SoundHorizon(s: Session, ttl: Ttl, now: int)
    requires Sound(s, ttl) && now < s.expiresAt
    ensures now < s.issuedAt + (ttl.session + ttl.grant) * HOUR
  {
    var a, b := ttl.session * HOUR, ttl.grant * HOUR;
    assert a > 0 && b > 0 && (ttl.session + ttl.grant) * HOUR == a + b;
  }

  lemma GrantedBeforeExpiry(g: Gate, room: string, token: nat, policy: Policy, now: int)
    requires CheckAnswer(g, room, Some(token), policy, now).Granted?
    ensures token < |g.sessions| && now < g.sessions[token].expiresAt
  {
  }

  /** No check is granted at or after the issue time and both lifetimes. */
  lemma GrantHorizon(ttl: Ttl, ops: seq<Op>, room: string, token: nat, policy: Policy, now: int)
    requires CheckAnswer(Run(ttl, ops), room, Some(token), policy, now).Granted?
    ensures now < Run(ttl, ops).sessions[token].issuedAt + (ttl.session + ttl.grant) * HOUR
  {
    GrantedBeforeExpiry(Run(ttl, ops), room, token, policy, now);
    SessionsAreSound(ttl, ops, token);
    SoundHorizon(Run(ttl, ops).sessions[token], ttl, now);
  }

  /** The session has what the policy asked for, a valid address if any, and that address's domain. */
  predicate Complete(policy: Policy, s: Session) {
    && (policy.collectName ==> s.name.Some?)
    && (policy.collectEmail ==> s.email.Some?)
    && (s.email.Some? ==> IsValidEmail(s.email.value))
    && s.domain == (if s.email.Some? then EmailDomain(s.email.value) else None)
  }

  lemma IssuedComplete(room: string, policy: Policy, form: Form, bot: bool, ttl: Ttl, now: int)
    requires Objection(policy, form).None?
    ensures Complete(policy, Issued(room, policy, form, bot, ttl, now))
  {
  }

  /** Call `i` of the run issued the token, at that time, under that policy. */
  ghost predicate OpenedBy(ttl: Ttl, ops: seq<Op>, i: nat, token: nat, s: Session) {
    && i < |ops| && ops[i].Open? && |Run(ttl, ops[..i]).sessions| == token
    && s.issuedAt == Stamp(ops[i].now) && s.mode == ops[i].policy.mode && s.room == ops[i].room
    && (s.status != Refused ==> !ops[i].bot && AdmitsDomain(ops[i].policy, s.domain))
    && Complete(ops[i].policy, s)
    && s.name == CleanField(ops[i].form.name) && s.email == CleanField(ops[i].form.email) && s.bot == ops[i].bot
    && s.byAccount == (ops[i].form.account && ops[i].policy.collectEmail)
  }

  /** Call `i` of the run verified the token, at that time, under a policy that let its address in. */
  ghost predicate VerifiedBy(ttl: Ttl, ops: seq<Op>, i: nat, token: nat, s: Session) {
    && i < |ops| && ops[i].Verify? && ops[i].token == Some(token) && s.verifiedAt == Some(Stamp(ops[i].now))
    && Finds(Run(ttl, ops[..i]), ops[i].room, token)
    && AdmitsDomain(ops[i].policy, s.domain)
    && ops[i].now < s.issuedAt + ttl.session * HOUR
  }

  lemma EarlierOpened(ttl: Ttl, ops: seq<Op>, op: Op, i: nat, token: nat, a: Session, b: Session)
    requires OpenedBy(ttl, ops, i, token, a) && Continues(a, b)
    ensures OpenedBy(ttl, ops + [op], i, token, b)
  {
    assert (ops + [op])[..i] == ops[..i];
  }

  lemma EarlierVerified(ttl: Ttl, ops: seq<Op>, op: Op, i: nat, token: nat, a: Session, b: Session)
    requires VerifiedBy(ttl, ops, i, token, a) && Continues(a, b)
    ensures VerifiedBy(ttl, ops + [op], i, token, b)
  {
    assert (ops + [op])[..i] == ops[..i];
  }

  lemma {:induction false} WhoOpened(ttl: Ttl, ops: seq<Op>, token: nat)
    requires token < |Run(ttl, ops).sessions|
    ensures exists i :: OpenedBy(ttl, ops, i, token, Run(ttl, ops).sessions[token])
  {
    var init, op := ops[..|ops| - 1], ops[|ops| - 1];
    var g, h := Run(ttl, init), Run(ttl, ops);
    assert ops == init + [op];
    RunSound(ttl, init);
    NextSound(g, ttl, op);
    if token < |g.sessions| {
      WhoOpened(ttl, init, token);
      var i :| OpenedBy(ttl, init, i, token, g.sessions[token]);
      EarlierOpened(ttl, init, op, i, token, g.sessions[token], h.sessions[token]);
    } else {
      IssuedComplete(op.room, op.policy, op.form, op.bot, ttl, op.now);
      assert OpenedBy(ttl, ops, |init|, token, h.sessions[token]);
    }
  }

  lemma {:induction false} WhoVerified(ttl: Ttl, ops: seq<Op>, token: nat)
    requires token < |Run(ttl, ops).sessions| && Run(ttl, ops).sessions[token].verifiedAt.Some?
    ensures exists i :: VerifiedBy(ttl, ops, i, token, Run(ttl, ops).sessions[token])
  {
    var init, op := ops[..|ops| - 1], ops[|ops| - 1];
    var g, h := Run(ttl, init), Run(ttl, ops);
    assert ops == init + [op];
    RunSound(ttl, init);
    NextSound(g, ttl, op);
    if token >= |g.sessions| {
      assert false;
    } else if g.sessions[token].verifiedAt.Some? {
      WhoVerified(ttl, init, token);
      var i :| VerifiedBy(ttl, init, i, token, g.sessions[token]);
      EarlierVerified(ttl, init, op, i, token, g.sessions[token], h.sessions[token]);
    } else {
      assert Sound(g.sessions[token], ttl);
      assert VerifiedBy(ttl, ops, |init|, token, h.sessions[token]);
    }
  }

  /**
   A grant has a history: the session was opened by a call that was no bot's, with all
   that its policy asked for and an address it let in; and where that policy asked for a link, a later
   policy let the address in again when the link was followed, within the session
   lifetime, and the grant comes within the grant lifetime of that.
   */
  lemma GrantHasHistory(ttl: Ttl, ops: seq<Op>, room: string, token: nat, policy: Policy, now: int)
    requires CheckAnswer(Run(ttl, ops), room, Some(token), policy, now).Granted?
    ensures var s := Run(ttl, ops).sessions[token];
            exists i: nat :: OpenedBy(ttl, ops, i, token, s) && !ops[i].bot && AdmitsDomain(ops[i].policy, s.domain)
                        && (ops[i].policy.mode == VerifyEmail ==>
                              exists j: nat :: VerifiedBy(ttl, ops, j, token, s)
                                && now < Stamp(ops[j].now) + ttl.grant * HOUR)
  {
    var s := Run(ttl, ops).sessions[token];
    SessionsAreSound(ttl, ops, token);
    WhoOpened(ttl, ops, token);
    if s.mode == VerifyEmail {
      WhoVerified(ttl, ops, token);
    }
  }

  // ------------------------------------------------------------------------
  // Closed for good
  // ------------------------------------------------------------------------

  /** A session nothing can open at `now`. */
  predicate Closed(s: Session, now: int) {
    s.status == Refused || s.expiresAt <= now
  }

  predicate ClosedAt(g: Gate, token: nat, now: int) {
    token < |g.sessions| && Closed(g.sessions[token], now)
  }

  lemma NextKeepsClosed(g: Gate, ttl: Ttl, op: Op, token: nat)
    requires AllSound(g, ttl) && token < |g.sessions| && Closed(g.sessions[token], op.now)
    ensures token < |Next(g, ttl, op).sessions| && Closed(Next(g, ttl, op).sessions[token], op.now)
    ensures !Happens(Grant, g, op, token) && !Happens(Success, g, op, token)
  {
  }

  lemma RunStep(ttl: Ttl, ops: seq<Op>, n: nat)
    requires n < |ops|
    ensures Run(ttl, ops[..n + 1]) == Next(Run(ttl, ops[..n]), ttl, ops[n])
  {
    assert ops[..n + 1][..n] == ops[..n];
  }

  lemma StaysClosedUntil(g: Gate, h: Gate, ttl: Ttl, op: Op, token: nat, later: int)
    requires AllSound(g, ttl) && h == Next(g, ttl, op) && op.now <= later
    requires ClosedAt(g, token, op.now)
    ensures ClosedAt(h, token, later)
  {
    NextKeepsClosed(g, ttl, op, token);
  }

  lemma {:induction false} StaysClosed(ttl: Ttl, ops: seq<Op>, n: nat, m: nat, token: nat)
    requires Monotone(ops) && n <= m < |ops|
    requires ClosedAt(Run(ttl, ops[..n]), token, ops[n].now)
    ensures ClosedAt(Run(ttl, ops[..m]), token, ops[m].now)
    decreases m
  {
    if n < m {
      var before, after, op, later := Run(ttl, ops[..m - 1]), Run(ttl, ops[..m]), ops[m - 1], ops[m].now;
      assert op.now <= later;
      assert ClosedAt(before, token, op.now) by { StaysClosed(ttl, ops, n, m - 1, token); }
      assert AllSound(before, ttl) by { RunSound(ttl, ops[..m - 1]); }
      assert after == Next(before, ttl, op) by { RunStep(ttl, ops, m - 1); }
      StaysClosedUntil(before, after, ttl, op, token, later);
    }
  }

  /**
   Under a clock that never runs backwards, once a session is refused or expired
   no later check of it is granted and no later presentation succeeds.
   */
  lemma ClosedForGood(ttl: Ttl, ops: seq<Op>, n: nat, m: nat, token: nat)
    requires Monotone(ops) && n <= m < |ops|
    requires ClosedAt(Run(ttl, ops[..n]), token, ops[n].now)
    ensures !Happens(Grant, Run(ttl, ops[..m]), ops[m], token) && !Happens(Success, Run(ttl, ops[..m]), ops[m], token)
  {
    StaysClosed(ttl, ops, n, m, token);
    RunSound(ttl, ops[..m]);
    NextKeepsClosed(Run(ttl, ops[..m]), ttl, ops[m], token);
  }

  /**
   Verifying a session brings its end nearer exactly when its link is followed early
   enough for the shorter grant to run out first.
   */
  lemma VerifyingShortensExactly(s: Session, policy: Policy, ttl: Ttl, now: int)
    requires Sound(s, ttl) && PresentAnswer(s, policy, now) == NowVerified
    ensures Present(s, policy, ttl, now).expiresAt < s.expiresAt
            <==> Stamp(now) - s.issuedAt < (ttl.session - ttl.grant) * HOUR
  {
  }

  // ------------------------------------------------------------------------
  // Addresses and the allowlist
  // ------------------------------------------------------------------------

  /** An at-sign between something that is not blank and, dots at its ends aside, a domain; no space anywhere. */
  predicate IsAddressAt(text: string, local: string, rest: string, d: string) {
    && text == local + "@" + rest && '@' !in local && '@' !in rest && ' ' !in text
    && Strip(local) != "" && Trim(rest, IsDot) == d && HasDomainShape(d)
  }

  /** An address has a domain exactly when, trimmed and in lower case, it has that form. */
  lemma EmailDomainExactly(email: string, d: string)
    ensures EmailDomain(email) == Some(d) <==> exists local, rest :: IsAddressAt(Lower(Strip(email)), local, rest, d)
  {
    var text := Lower(Strip(email));
    var parts := SplitOn(text, '@');
    SplitTwo(text, '@');
    if EmailDomain(email) == Some(d) {
      assert IsAddressAt(text, parts[0], parts[1], d);
    }
    if local, rest :| IsAddressAt(text, local, rest, d) {
      SplitPair(local, '@', rest);
    }
  }

  /** The part of an address before the at-sign, free of blanks. */
  predicate IsLocal(local: string) {
    local != "" && forall c :: c in local ==> c != '@' && !IsSpace(c)
  }

  lemma AddressParts(local: string, written: string, d: string)
    requires IsLocal(local) && Lower(written) == d && HasDomainShape(d) && !EndsInNewline(d)
    ensures Strip(local + "@" + written) == local + "@" + written
    ensures Lower(local + "@" + written) == Lower(local) + "@" + d
  {
    var s := local + "@" + written;
    ShapeChars(d);
    assert d[|d| - 1] == LowerChar(written[|written| - 1]);
    assert local[0] in local && !IsSpace(s[0]);
    assert s[|s| - 1] == written[|written| - 1] && !IsSpace(s[|s| - 1]);
    TrimFixed(s, IsSpace);
    assert Lower(s) == Lower(local) + "@" + d;
  }

  lemma LowerLocal(local: string)
    requires IsLocal(local)
    ensures IsLocal(Lower(local)) && Strip(Lower(local)) == Lower(local)
  {
    var low := Lower(local);
    forall i | 0 <= i < |low| ensures low[i] != '@' && !IsSpace(low[i]) {
      assert local[i] in local;
    }
    TrimFixed(low, IsSpace);
  }

  /** An address at a domain, in any mixture of letter cases, has that domain. */
  lemma AddressAtDomain(local: string, written: string, d: string)
    requires IsLocal(local) && Lower(written) == d && HasDomainShape(d) && !EndsInNewline(d)
    ensures EmailDomain(local + "@" + written) == Some(d)
  {
    var low := Lower(local);
    AddressParts(local, written, d);
    LowerLocal(local);
    ShapeChars(d);
    SplitPair(low, '@', d);
    assert ' ' !in low + "@" + d;
    assert Trim(d, IsDot) == d by { TrimFixed(d, IsDot); }
  }

  /** So an allowlisted domain without a newline lets in every address at it. */
  lemma AllowlistedAddressAdmitted(policy: Policy, local: string, written: string, d: string)
    requires Validated(policy) && d in policy.allowed && !EndsInNewline(d)
    requires IsLocal(local) && Lower(written) == d
    ensures AdmitsDomain(policy, EmailDomain(local + "@" + written))
  {
    var payload :| Validate(payload) == Ok(policy);
    var parts := PartsOf(payload.allowed);
    CollectedShape(parts.value, d);
    AddressAtDomain(local, written, d);
  }
}
