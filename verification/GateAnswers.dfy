/** What the identity gate answers, in terms of the rule that was sent and of what happened to a token. */
module GateAnswers {
  import opened AccessGate
  import opened AccessPolicy
  import opened AllowedDomains
  import opened AllowlistForms
  import opened GateLaws
  import opened PolicyStore
  import opened Prelude
  import opened Text
  import opened TextLaws

  // ------------------------------------------------------------------------
  // Clocks and lifetimes
  // ------------------------------------------------------------------------

  /** A stored instant is the whole millisecond at or before the clock. */
  lemma StampExactly(now: int)
    ensures now - 1_000 < Stamp(now) <= now && Stamp(now) % 1_000 == 0
  {
  }

  /** Lifetimes are read as whole hours, one at least; without a setting 24 for a session and 168 for a grant. */
  lemma LifetimesRead(configured: Option<int>, fallback: Hours)
    ensures TtlHours(configured, fallback) ==
            if configured.None? then fallback else if configured.value < 1 then 1 else configured.value
    ensures DEFAULT_TTL.session == 24 && DEFAULT_TTL.grant == 168
  {
  }

  /** A session ends so many hours of 3600 seconds after its issue or, once verified, after its verification. */
  lemma DeadlineExactly(ttl: Ttl, ops: seq<Op>, token: nat)
    requires token < |Run(ttl, ops).sessions|
    ensures var s := Run(ttl, ops).sessions[token];
            s.expiresAt == (if s.verifiedAt.None? then s.issuedAt + ttl.session * 3_600_000_000
                            else s.verifiedAt.value + ttl.grant * 3_600_000_000)
  {
    SessionsAreSound(ttl, ops, token);
  }

  // ------------------------------------------------------------------------
  // The rule in force
  // ------------------------------------------------------------------------

  /** The policy in force for a room once this rule has been written for it. */
  function RuleOf(rows: seq<Row>, records: Records, room: string, payload: Payload): Policy
    requires Validate(payload).Ok?
  {
    Resolve(Write(rows, RoomKind, room, Incoming(RoomKind, Validate(payload).value)), records, room).policy
  }

  lemma RuleExactly(rows: seq<Row>, records: Records, room: string, payload: Payload, d: string)
    requires OnePerSubject(rows) && Validate(payload).Ok? && !payload.inherit
    ensures var policy := RuleOf(rows, records, room, payload);
            && Sends(payload.mode, policy.mode)
            && policy.collectName == payload.collectName && policy.collectEmail == payload.collectEmail
            && policy.domainSecurity == payload.domainSecurity
            && (d in policy.allowed <==> Names(payload.allowed, d))
  {
    RoomRuleInForce(rows, records, room, payload);
    AcceptedAsSent(payload);
    RereadExactly(payload.allowed, d);
  }

  // ------------------------------------------------------------------------
  // Without a token
  // ------------------------------------------------------------------------

  /** What a form must ask for, the name first. */
  function Asked(payload: Payload): seq<Wanted> {
    if payload.collectName && payload.collectEmail then [NameWanted, EmailWanted]
    else if payload.collectName then [NameWanted]
    else if payload.collectEmail then [EmailWanted]
    else []
  }

  /**
   A check that brings no token is let through exactly if the room's rule asks for an
   open room; otherwise it owes exactly the fields the rule asks for.
   */
  lemma CheckWithoutToken(rows: seq<Row>, records: Records, room: string, payload: Payload, g: Gate, now: int)
    requires OnePerSubject(rows) && Validate(payload).Ok? && !payload.inherit
    ensures CheckAnswer(g, room, None, RuleOf(rows, records, room, payload), now) ==
            if payload.mode == NoMode || payload.mode == ModeText("open") then NotRestricted
            else IdentityOwed(Asked(payload))
  {
    RuleExactly(rows, records, room, payload, "");
  }

  /** A presentation that brings none is told so, and leaves everything as it is. */
  lemma PresentWithoutToken(g: Gate, room: string, policy: Policy, ttl: Ttl, now: int)
    ensures VerifyAnswer(g, room, None, policy, now) == NoToken && AfterVerify(g, room, None, policy, ttl, now) == g
  {
  }

  // ------------------------------------------------------------------------
  // A submission
  // ------------------------------------------------------------------------

  /** A field with something other than blanks in it. */
  predicate Filled(field: Option<string>) {
    field.Some? && exists i :: 0 <= i < |field.value| && !IsSpace(field.value[i])
  }

  lemma {:induction false} BlankDrops(s: string)
    ensures DropLeft(s, IsSpace) == "" <==> AllOf(s, IsSpace)
  {
    if s != "" && IsSpace(s[0]) {
      BlankDrops(s[1..]);
      assert AllOf(s, IsSpace) <==> AllOf(s[1..], IsSpace) by {
        if AllOf(s[1..], IsSpace) {
          forall i | 0 <= i < |s| ensures IsSpace(s[i]) {
            assert i > 0 ==> s[i] == s[1..][i - 1];
          }
        }
        if AllOf(s, IsSpace) {
          forall i | 0 <= i < |s[1..]| ensures IsSpace(s[1..][i]) {
            assert s[1..][i] == s[i + 1];
          }
        }
      }
    } else if s != "" {
      assert !IsSpace(s[0]);
    }
  }

  lemma {:induction false} DropRightBlank(s: string)
    requires s != "" && !IsSpace(s[0])
    ensures DropRight(s, IsSpace) != ""
  {
    if |s| > 1 && IsSpace(s[|s| - 1]) {
      DropRightBlank(s[..|s| - 1]);
    }
  }

  lemma {:induction false} DropLeftFront(s: string)
    ensures DropLeft(s, IsSpace) != "" ==> !IsSpace(DropLeft(s, IsSpace)[0])
  {
    if s != "" && IsSpace(s[0]) {
      DropLeftFront(s[1..]);
    }
  }

  lemma FilledExactly(field: Option<string>)
    ensures CleanField(field).Some? <==> Filled(field)
  {
    if field.Some? {
      BlankDrops(field.value);
      DropLeftFront(field.value);
      if DropLeft(field.value, IsSpace) != "" {
        DropRightBlank(DropLeft(field.value, IsSpace));
      }
    }
  }

  /** An address the form accepts: one at-sign after something, a dot inside what follows, and no blank. */
  predicate AddressLike(text: string, local: string, rest: string) {
    && text == local + "@" + rest && local != "" && '@' !in local && '@' !in rest
    && (exists i :: 0 < i < |rest| - 1 && rest[i] == '.')
    && forall i :: 0 <= i < |text| ==> !IsSpace(text[i])
  }

  lemma ValidEmailExactly(email: string)
    ensures IsValidEmail(email) <==> exists local, rest :: AddressLike(Strip(email), local, rest)
  {
    var text, parts := Strip(email), SplitOn(Strip(email), '@');
    SplitTwo(text, '@');
    assert (forall c :: c in text ==> !IsSpace(c)) <==> (forall i :: 0 <= i < |text| ==> !IsSpace(text[i]));
    if IsValidEmail(email) {
      assert AddressLike(text, parts[0], parts[1]);
    }
    if local, rest :| AddressLike(text, local, rest) {
      SplitPair(local, '@', rest);
    }
  }

  /** The form's address, without the blanks around it. */
  function Address(form: Form): string
    requires form.email.Some?
  {
    Strip(form.email.value)
  }

  /** The address belongs to a domain that some entry of the rule's allowlist stands for. */
  predicate Listed(payload: Payload, form: Form) {
    Filled(form.email) && EmailDomain(Address(form)).Some? && Names(payload.allowed, EmailDomain(Address(form)).value)
  }

  /** What a form is answered under the rule, looked at in this order. */
  lemma SubmissionAnswered(rows: seq<Row>, records: Records, room: string, payload: Payload, g: Gate, form: Form,
                           bot: bool)
    requires OnePerSubject(rows) && Validate(payload).Ok? && !payload.inherit
    ensures OpenAnswer(g, RuleOf(rows, records, room, payload), form, bot) ==
            if payload.mode == NoMode || payload.mode == ModeText("open") then Unrestricted
            else if payload.collectName && !Filled(form.name) then Missing(NameWanted)
            else if payload.collectEmail && !Filled(form.email) then Missing(EmailWanted)
            else if Filled(form.email) && !IsValidEmail(Address(form)) then BadEmail
            else if payload.domainSecurity && !Listed(payload, form) then Denied(DomainRefused, |g.sessions|)
            else if bot then Denied(BotRefused, |g.sessions|)
            else if payload.mode == ModeText("verify_email") then LinkSent(|g.sessions|)
            else Admitted(|g.sessions|)
  {
    FilledExactly(form.name);
    FilledExactly(form.email);
    var d := DomainOf(form);
    RuleExactly(rows, records, room, payload, if d.Some? then d.value else "");
  }

  /**
   Under a rule with domain security, a complete and well-formed submission is refused
   for its domain exactly if no allowlist entry stands for it.
   */
  lemma OutsiderRefusedExactly(rows: seq<Row>, records: Records, room: string, payload: Payload, g: Gate, form: Form,
                               bot: bool)
    requires OnePerSubject(rows) && Validate(payload).Ok? && !payload.inherit && payload.domainSecurity
    requires (payload.collectName ==> Filled(form.name)) && Filled(form.email) && IsValidEmail(Address(form))
    ensures OpenAnswer(g, RuleOf(rows, records, room, payload), form, bot) == Denied(DomainRefused, |g.sessions|) <==>
            forall d :: EmailDomain(Address(form)) == Some(d) ==> !Names(payload.allowed, d)
  {
    SubmissionAnswered(rows, records, room, payload, g, form, bot);
    AcceptedAsSent(payload);
    AcceptedExactly(payload);
  }

  // ------------------------------------------------------------------------
  // With a token, after any run
  // ------------------------------------------------------------------------

  /** The token is one that was issued, for that room; a session stored without a room goes by the name "None". */
  predicate Known(g: Gate, room: string, token: nat) {
    token < |g.sessions| &&
    (room == "" || g.sessions[token].room == room || (g.sessions[token].room == "" && room == "None"))
  }

  /**
   What a check of a token is answered after any run: a token not known for the room is
   none; one a call turned away is refused; one past its deadline has expired; one whose
   link was asked for and never followed is awaited; any other is granted, as verified
   exactly if its link was followed.
   */
  lemma CheckAnswered(ttl: Ttl, ops: seq<Op>, room: string, token: nat, policy: Policy, now: int)
    ensures var g := Run(ttl, ops);
            var answer := CheckAnswer(g, room, Some(token), policy, now);
            && (answer == NoSuchToken <==> !Known(g, room, token))
            && (Known(g, room, token) ==>
                  var s, refused, followed := g.sessions[token], Times(TurnedAway, ttl, ops, token) > 0,
                                              Times(Verification, ttl, ops, token) > 0;
                  && (if refused then answer == Refusal(s.reason) && s.reason.Some? else !answer.Refusal?)
                  && (answer.HasExpired? <==> !refused && now >= Deadline(s, ttl))
                  && (answer == AwaitingLink <==>
                        !refused && now < Deadline(s, ttl) && s.mode == VerifyEmail && !followed)
                  && (answer.Granted? <==>
                        !refused && now < Deadline(s, ttl) && (s.mode == Identify || followed))
                  && (answer.Granted? ==>
                        && (answer.verified <==> followed)
                        && answer.viewedAt == if s.viewedAt.Some? then s.viewedAt.value else Stamp(now))
                  && (answer.HasExpired? ==> answer.owed == Owes(policy)))
  {
    RunSound(ttl, ops);
    TallyOverRuns(ttl, ops, token);
    if Known(Run(ttl, ops), room, token) {
      assert Sound(Run(ttl, ops).sessions[token], ttl);
    }
  }

  function Owes(policy: Policy): seq<Wanted> {
    if policy.collectName && policy.collectEmail then [NameWanted, EmailWanted]
    else if policy.collectName then [NameWanted]
    else if policy.collectEmail then [EmailWanted]
    else []
  }

  /** The policy asks for no domain, or the address's own is on its list. */
  predicate Welcome(policy: Policy, s: Session) {
    !policy.domainSecurity || exists d :: s.domain == Some(d) && d in policy.allowed
  }

  /**
   What a presentation of a known token is answered after any run: after ten it is too
   many; a session turned away or past its deadline is turned away again; one whose
   link was followed is verified already; and one whose address is welcome is verified
   now.
   */
  lemma PresentationAnswered(ttl: Ttl, ops: seq<Op>, room: string, token: nat, policy: Policy, now: int)
    ensures var g := Run(ttl, ops);
            var answer := VerifyAnswer(g, room, Some(token), policy, now);
            && (answer == UnknownToken <==> !Known(g, room, token))
            && (Known(g, room, token) ==>
                  var s := g.sessions[token];
                  var many, refused, followed := Times(Presentation, ttl, ops, token) >= 10,
                                                 Times(TurnedAway, ttl, ops, token) > 0,
                                                 Times(Verification, ttl, ops, token) > 0;
                  var late := now >= Deadline(s, ttl);
                  && (many ==> answer == Turned(TooManyAttempts))
                  && (!many && refused ==> answer.Turned? && Some(answer.reason) == s.reason)
                  && (!many && !refused && late ==> answer == Turned(LinkExpired))
                  && (!many && !refused && !late && followed ==> answer == AlreadyVerified)
                  && (!many && !refused && !late && !followed ==>
                        answer == if Welcome(policy, s) then NowVerified else Turned(DomainRefused)))
  {
    RunSound(ttl, ops);
    TallyOverRuns(ttl, ops, token);
    if Known(Run(ttl, ops), room, token) {
      assert Sound(Run(ttl, ops).sessions[token], ttl);
    }
  }
}
