/** The identity gate: sessions opened from a form, verified by an emailed link, checked on every view. */
module AccessGate {
  import opened AccessPolicy
  import opened AllowedDomains
  import opened Instants
  import opened PolicyStore
  import opened Prelude
  import opened Text

  const MILLISECOND := 1_000
  const HOUR := 60 * MINUTE
  const MAX_VERIFY_ATTEMPTS := 10

  /** Configured lifetimes are whole hours, at least one. */
  type Hours = h: int | h >= 1 witness 1

  datatype Ttl = Ttl(session: Hours, grant: Hours)

  const DEFAULT_TTL := Ttl(24, 168)

  function TtlHours(configured: Option<int>, fallback: Hours): Hours {
    if configured.Some? then Max(1, configured.value) else fallback
  }

  /** Instants are stored in whole milliseconds. */
  function Stamp(now: int): int {
    now - now % MILLISECOND
  }

  datatype Status = Identified | Pending | Verified | Refused

  datatype Reason = DomainRefused | BotRefused | LinkExpired | TooManyAttempts

  /** A session; its token is its place among all sessions. */
  datatype Session = Session(
    room: string, mode: Mode, status: Status, byAccount: bool, name: Option<string>, email: Option<string>,
    domain: Option<string>, bot: bool, issuedAt: int, expiresAt: int, verifiedAt: Option<int>, viewedAt: Option<int>,
    reason: Option<Reason>, attempts: nat, views: nat)

  /** An analytics row for a session's first granted view. */
  datatype ViewRow =
    ViewRow(token: nat, room: string, email: Option<string>, name: Option<string>, verified: bool, at: int)

  /**
   A verification message: the session whose link it carries, where it goes, and whether
   its link has been followed.
   */
  datatype Message = Message(token: nat, room: string, to: Option<string>, sent: bool)

  datatype Gate = Gate(sessions: seq<Session>, activity: seq<ViewRow>, outbox: seq<Message>)

  const NEW_GATE := Gate([], [], [])

  // ------------------------------------------------------------------------
  // Addresses
  // ------------------------------------------------------------------------

  /** The lowercase domain of an address, if it has one. */
  function EmailDomain(email: string): Option<string> {
    var parts := SplitOn(Lower(Strip(email)), '@');
    if |parts| != 2 || ' ' in Lower(Strip(email)) then None
    else
      var domain := Trim(parts[1], IsDot);
      if Strip(parts[0]) == "" || !HasDomainShape(domain) then None else Some(domain)
  }

  predicate HasInnerDot(s: string) {
    exists i :: 0 < i < |s| - 1 && s[i] == '.'
  }

  predicate IsValidEmail(email: string) {
    var parts := SplitOn(Strip(email), '@');
    && |parts| == 2 && parts[0] != "" && HasInnerDot(parts[1])
    && forall c :: c in Strip(email) ==> !IsSpace(c)
  }

  /** A form field without surrounding space; blank is absent. */
  function CleanField(value: Option<string>): Option<string> {
    if value.None? || Strip(value.value) == "" then None else Some(Strip(value.value))
  }

  // ------------------------------------------------------------------------
  // Opening a session
  // ------------------------------------------------------------------------

  /** A submission: its fields, whether it comes from an account login, and whether a link would be delivered. */
  datatype Form = Form(name: Option<string>, email: Option<string>, account: bool, deliver: bool)

  datatype Wanted = NameWanted | EmailWanted

  function RequiredFields(policy: Policy): seq<Wanted> {
    (if policy.collectName then [NameWanted] else []) + (if policy.collectEmail then [EmailWanted] else [])
  }

  datatype Opened = Unrestricted | Missing(what: Wanted) | BadEmail | Denied(reason: Reason, token: nat)
                  | Admitted(token: nat) | LinkSent(token: nat)

  /** Whether a policy lets an address with this domain in. */
  predicate AdmitsDomain(policy: Policy, domain: Option<string>) {
    policy.domainSecurity ==> domain.Some? && domain.value in policy.allowed
  }

  function DomainOf(form: Form): Option<string> {
    var email := CleanField(form.email);
    if email.None? then None else EmailDomain(email.value)
  }

  function Objection(policy: Policy, form: Form): Option<Opened> {
    var name, email := CleanField(form.name), CleanField(form.email);
    if policy.collectName && name.None? then Some(Missing(NameWanted))
    else if policy.collectEmail && email.None? then Some(Missing(EmailWanted))
    else if email.Some? && !IsValidEmail(email.value) then Some(BadEmail)
    else None
  }

  /** The reason a well-formed submission is turned away; the domain is looked at first. */
  function Rejection(policy: Policy, form: Form, bot: bool): Option<Reason> {
    if !AdmitsDomain(policy, DomainOf(form)) then Some(DomainRefused) else if bot then Some(BotRefused) else None
  }

  /** The session a well-formed submission is recorded as, refused or not. */
  function Issued(room: string, policy: Policy, form: Form, bot: bool, ttl: Ttl, now: int): Session {
    var reason := Rejection(policy, form, bot);
    var status := if reason.Some? then Refused else if policy.mode == VerifyEmail then Pending else Identified;
    Session(room, policy.mode, status, form.account && policy.collectEmail, CleanField(form.name),
            CleanField(form.email), DomainOf(form), bot, Stamp(now), Stamp(now) + ttl.session * HOUR, None, None,
            reason, 0, 0)
  }

  function OpenAnswer(g: Gate, policy: Policy, form: Form, bot: bool): Opened {
    var token, reason := |g.sessions|, Rejection(policy, form, bot);
    if policy.mode == OpenMode then Unrestricted
    else if Objection(policy, form).Some? then Objection(policy, form).value
    else if reason.Some? then Denied(reason.value, token)
    else if policy.mode == VerifyEmail then LinkSent(token)
    else Admitted(token)
  }

  function AfterOpen(g: Gate, room: string, policy: Policy, form: Form, bot: bool, ttl: Ttl, now: int): Gate {
    if policy.mode == OpenMode || Objection(policy, form).Some? then g
    else
      var s := Issued(room, policy, form, bot, ttl, now);
      g.(sessions := g.sessions + [s],
         outbox := if s.status == Pending && form.deliver then g.outbox + [Message(|g.sessions|, room, s.email, false)]
                   else g.outbox)
  }

  // ------------------------------------------------------------------------
  // Presenting a token
  // ------------------------------------------------------------------------

  /** A session stored without a room reads back as this one. */
  const NO_ROOM := "None"

  function RoomOf(s: Session): string {
    if s.room == "" then NO_ROOM else s.room
  }

  /** The token names a session of that room; no room given means any room. */
  predicate Finds(g: Gate, room: string, token: nat) {
    token < |g.sessions| && (room == "" || RoomOf(g.sessions[token]) == room)
  }

  datatype Presented = NoToken | UnknownToken | Turned(reason: Reason) | NowVerified | AlreadyVerified

  function PresentAnswer(s: Session, policy: Policy, now: int): Presented {
    if s.attempts + 1 > MAX_VERIFY_ATTEMPTS then Turned(TooManyAttempts)
    else if s.status == Refused then Turned(if s.reason.Some? then s.reason.value else DomainRefused)
    else if s.expiresAt <= now then Turned(LinkExpired)
    else if s.status == Verified then AlreadyVerified
    else if !AdmitsDomain(policy, s.domain) then Turned(DomainRefused)
    else NowVerified
  }

  /**
   A session after its token is presented: the attempt always counts, and a late or
   unwelcome one closes the session.
   */
  function Present(s: Session, policy: Policy, ttl: Ttl, now: int): Session {
    var counted := s.(attempts := s.attempts + 1);
    match PresentAnswer(s, policy, now)
    case NowVerified =>
      counted.(status := Verified, verifiedAt := Some(Stamp(now)), expiresAt := Stamp(now) + ttl.grant * HOUR,
               reason := None)
    case Turned(reason) =>
      if s.status == Refused && reason != TooManyAttempts then counted
      else counted.(status := Refused, reason := Some(reason))
    case _ => counted
  }

  /** The newest message of the token, marked sent. */
  function MarkSent(outbox: seq<Message>, token: nat): seq<Message> {
    if outbox == [] then []
    else
      var init, last := outbox[..|outbox| - 1], outbox[|outbox| - 1];
      if last.token == token then init + [last.(sent := true)] else MarkSent(init, token) + [last]
  }

  function VerifyAnswer(g: Gate, room: string, token: Option<nat>, policy: Policy, now: int): Presented {
    if token.None? then NoToken
    else if !Finds(g, room, token.value) then UnknownToken
    else PresentAnswer(g.sessions[token.value], policy, now)
  }

  function AfterVerify(g: Gate, room: string, token: Option<nat>, policy: Policy, ttl: Ttl, now: int): Gate {
    if token.None? || !Finds(g, room, token.value) then g
    else
      var s := g.sessions[token.value];
      g.(sessions := g.sessions[token.value := Present(s, policy, ttl, now)],
         outbox := if PresentAnswer(s, policy, now) == NowVerified then MarkSent(g.outbox, token.value) else g.outbox)
  }

  // ------------------------------------------------------------------------
  // Checking a token
  // ------------------------------------------------------------------------

  datatype Checked = NotRestricted | IdentityOwed(owed: seq<Wanted>) | NoSuchToken | Refusal(reason: Option<Reason>)
                   | HasExpired(owed: seq<Wanted>) | AwaitingLink | Granted(verified: bool, viewedAt: int)

  function CheckAnswer(g: Gate, room: string, token: Option<nat>, policy: Policy, now: int): Checked {
    if token.None? then if policy.mode == OpenMode then NotRestricted else IdentityOwed(RequiredFields(policy))
    else if !Finds(g, room, token.value) then NoSuchToken
    else
      var s := g.sessions[token.value];
      if s.status == Refused then Refusal(s.reason)
      else if s.expiresAt <= now then HasExpired(RequiredFields(policy))
      else if s.status == Pending then AwaitingLink
      else Granted(s.status == Verified, if s.viewedAt.Some? then s.viewedAt.value else Stamp(now))
  }

  function FirstView(s: Session, now: int): Session {
    s.(viewedAt := Some(Stamp(now)), views := s.views + 1)
  }

  function RowFor(token: nat, room: string, s: Session, now: int): ViewRow {
    ViewRow(token, room, s.email, s.name, s.status == Verified, Stamp(now))
  }

  function AfterCheck(g: Gate, room: string, token: Option<nat>, policy: Policy, now: int): Gate {
    if CheckAnswer(g, room, token, policy, now).Granted? && g.sessions[token.value].viewedAt.None? then
      var s := FirstView(g.sessions[token.value], now);
      g.(sessions := g.sessions[token.value := s], activity := g.activity + [RowFor(token.value, room, s, now)])
    else g
  }

  // ------------------------------------------------------------------------
  // The service
  // ------------------------------------------------------------------------

  class GateService {
    const policies: AccessPolicies
    const ttl: Ttl
    var sessions: seq<Session>
    var activity: seq<ViewRow>
    var outbox: seq<Message>

    constructor (policies: AccessPolicies, sessionHours: Option<int>, grantHours: Option<int>)
      ensures this.policies == policies && State() == NEW_GATE
      ensures ttl == Ttl(TtlHours(sessionHours, DEFAULT_TTL.session), TtlHours(grantHours, DEFAULT_TTL.grant))
    {
      this.policies := policies;
      ttl := Ttl(TtlHours(sessionHours, DEFAULT_TTL.session), TtlHours(grantHours, DEFAULT_TTL.grant));
      sessions, activity, outbox := [], [], [];
    }

    function State(): Gate
      reads this
    {
      Gate(sessions, activity, outbox)
    }

    /** The policy in force for a room right now. */
    function InForce(room: string): Policy
      reads policies
    {
      Resolve(policies.rows, policies.records, room).policy
    }

    method StoreSession(s: Session) returns (token: nat)
      modifies this`sessions
      ensures token == |old(sessions)| && sessions == old(sessions) + [s]
    {
      token, sessions := |sessions|, sessions + [s];
    }

    method Touch(token: nat, s: Session)
      requires token < |sessions|
      modifies this`sessions
      ensures sessions == old(sessions)[token := s]
    {
      sessions := sessions[token := s];
    }

    /** Write the verification message to the outbox. */
    method QueueVerification(token: nat, room: string, to: Option<string>)
      modifies this`outbox
      ensures outbox == old(outbox) + [Message(token, room, to, false)]
    {
      outbox := outbox + [Message(token, room, to, false)];
    }

    /** Mark the newest message of a session sent. */
    method MarkOutboxSent(token: nat)
      modifies this`outbox
      ensures outbox == MarkSent(old(outbox), token)
    {
      var i := |outbox|;
      assert outbox[..i] == outbox;
      while i > 0 && outbox[i - 1].token != token
        invariant 0 <= i <= |outbox|
        invariant MarkSent(outbox, token) == MarkSent(outbox[..i], token) + outbox[i..]
      {
        assert outbox[..i][..i - 1] == outbox[..i - 1];
        i := i - 1;
      }
      if i > 0 {
        assert outbox[..i][..i - 1] == outbox[..i - 1];
        outbox := outbox[i - 1 := outbox[i - 1].(sent := true)];
      }
    }

    /** The first field, in display order, that the form must have and does not. */
    method FirstMissing(policy: Policy, name: Option<string>, email: Option<string>) returns (missing: Option<Wanted>)
      ensures missing == if policy.collectName && name.None? then Some(NameWanted)
                         else if policy.collectEmail && email.None? then Some(EmailWanted) else None
    {
      var required := RequiredFields(policy);
      assert policy.collectName ==> required[0] == NameWanted;
      assert policy.collectEmail ==> required[|required| - 1] == EmailWanted;
      for i := 0 to |required|
        invariant forall j :: 0 <= j < i ==> (if required[j] == NameWanted then name else email).Some?
      {
        if (if required[i] == NameWanted then name else email).None? { return Some(required[i]); }
      }
      missing := None;
    }

    /** Run a buyer's form submission through the gate; `bot` is what the request headers suggest. */
    method OpenSession(room: string, form: Form, bot: bool, now: int) returns (answer: Opened)
      requires policies.Valid()
      modifies this`sessions, this`outbox
      ensures answer == OpenAnswer(old(State()), InForce(room), form, bot)
      ensures State() == AfterOpen(old(State()), room, InForce(room), form, bot, ttl, now)
    {
      var resolved := policies.InForce(room);
      answer := OpenUnder(room, resolved.policy, form, bot, now);
    }

    method OpenUnder(room: string, policy: Policy, form: Form, bot: bool, now: int) returns (answer: Opened)
      modifies this`sessions, this`outbox
      ensures answer == OpenAnswer(old(State()), policy, form, bot)
      ensures State() == AfterOpen(old(State()), room, policy, form, bot, ttl, now)
    {
      if policy.mode == OpenMode { return Unrestricted; }
      var name, email := CleanField(form.name), CleanField(form.email);
      var missing := FirstMissing(policy, name, email);
      if missing.Some? { return Missing(missing.value); }
      if email.Some? && !IsValidEmail(email.value) { return BadEmail; }
      answer := Admit(room, policy, form, bot, now);
    }

    /** Record a well-formed submission, refused or not, and let it in, keep it waiting or turn it away. */
    method Admit(room: string, policy: Policy, form: Form, bot: bool, now: int) returns (answer: Opened)
      requires policy.mode != OpenMode && Objection(policy, form).None?
      modifies this`sessions, this`outbox
      ensures answer == OpenAnswer(old(State()), policy, form, bot)
      ensures State() == AfterOpen(old(State()), room, policy, form, bot, ttl, now)
    {
      var name, email := CleanField(form.name), CleanField(form.email);
      var domain := DomainOf(form);
      var expires := Stamp(now) + ttl.session * HOUR;
      var byAccount := form.account && policy.collectEmail;
      var session := Session(room, policy.mode, Refused, byAccount, name, email, domain, bot, Stamp(now), expires,
                             None, None, None, 0, 0);
      if !AdmitsDomain(policy, domain) {
        var token := StoreSession(session.(reason := Some(DomainRefused)));
        return Denied(DomainRefused, token);
      }
      if bot {
        var token := StoreSession(session.(reason := Some(BotRefused)));
        return Denied(BotRefused, token);
      }
      var pending := policy.mode == VerifyEmail;
      var token := StoreSession(session.(status := if pending then Pending else Identified));
      if !pending { return Admitted(token); }
      if form.deliver { QueueVerification(token, room, email); }
      answer := LinkSent(token);
    }

    /** The link from the verification email; every presentation is counted. */
    method Verify(room: string, token: Option<nat>, now: int) returns (answer: Presented)
      requires policies.Valid()
      modifies this`sessions, this`outbox
      ensures answer == VerifyAnswer(old(State()), room, token, InForce(room), now)
      ensures State() == AfterVerify(old(State()), room, token, InForce(room), ttl, now)
    {
      var resolved := policies.InForce(room);
      answer := VerifyUnder(room, token, resolved.policy, now);
    }

    method VerifyUnder(room: string, token: Option<nat>, policy: Policy, now: int) returns (answer: Presented)
      modifies this`sessions, this`outbox
      ensures answer == VerifyAnswer(old(State()), room, token, policy, now)
      ensures State() == AfterVerify(old(State()), room, token, policy, ttl, now)
    {
      if token.None? { return NoToken; }
      if !Finds(State(), room, token.value) { return UnknownToken; }
      var t, s := token.value, sessions[token.value];
      var attempts := s.attempts + 1;
      if attempts > MAX_VERIFY_ATTEMPTS {
        Touch(t, s.(status := Refused, reason := Some(TooManyAttempts), attempts := attempts));
        return Turned(TooManyAttempts);
      }
      Touch(t, s.(attempts := attempts));
      if s.status == Refused { return Turned(if s.reason.Some? then s.reason.value else DomainRefused); }
      if s.expiresAt <= now {
        Touch(t, sessions[t].(status := Refused, reason := Some(LinkExpired)));
        return Turned(LinkExpired);
      }
      if s.status == Verified { return AlreadyVerified; }
      if policy.domainSecurity {
        if s.domain.None? || s.domain.value !in policy.allowed {
          Touch(t, sessions[t].(status := Refused, reason := Some(DomainRefused)));
          return Turned(DomainRefused);
        }
      }
      Touch(t, sessions[t].(status := Verified, verifiedAt := Some(Stamp(now)),
                            expiresAt := Stamp(now) + ttl.grant * HOUR, reason := None));
      MarkOutboxSent(t);
      answer := NowVerified;
    }

    /** What a token is worth right now; the first granted view leaves one analytics row. */
    method Check(room: string, token: Option<nat>, now: int) returns (answer: Checked)
      requires policies.Valid()
      modifies this`sessions, this`activity
      ensures answer == CheckAnswer(old(State()), room, token, InForce(room), now)
      ensures State() == AfterCheck(old(State()), room, token, InForce(room), now)
    {
      var resolved := policies.InForce(room);
      if token.None? {
        return if resolved.policy.mode == OpenMode then NotRestricted
          else IdentityOwed(RequiredFields(resolved.policy));
      }
      if !Finds(State(), room, token.value) { return NoSuchToken; }
      var s := sessions[token.value];
      if s.status == Refused { return Refusal(s.reason); }
      if s.expiresAt <= now { return HasExpired(RequiredFields(resolved.policy)); }
      if s.status == Pending { return AwaitingLink; }
      if s.viewedAt.None? {
        Touch(token.value, s.(viewedAt := Some(Stamp(now)), views := s.views + 1));
        activity := activity + [ViewRow(token.value, room, s.email, s.name, s.status == Verified, Stamp(now))];
      }
      answer := Granted(s.status == Verified, sessions[token.value].viewedAt.value);
    }
  }

  // ------------------------------------------------------------------------
  // Runs
  // ------------------------------------------------------------------------

  /** A call, with the clock and the policy in force when it is made. */
  datatype Op =
    | Open(room: string, form: Form, bot: bool, policy: Policy, now: int)
    | Verify(room: string, token: Option<nat>, policy: Policy, now: int)
    | Check(room: string, token: Option<nat>, policy: Policy, now: int)

  function Next(g: Gate, ttl: Ttl, op: Op): Gate {
    match op
    case Open(room, form, bot, policy, now) => AfterOpen(g, room, policy, form, bot, ttl, now)
    case Verify(room, token, policy, now) => AfterVerify(g, room, token, policy, ttl, now)
    case Check(room, token, policy, now) => AfterCheck(g, room, token, policy, now)
  }

  function Run(ttl: Ttl, ops: seq<Op>): Gate {
    if ops == [] then NEW_GATE else Next(Run(ttl, ops[..|ops| - 1]), ttl, ops[|ops| - 1])
  }

  predicate Monotone(ops: seq<Op>) {
    forall i, j :: 0 <= i <= j < |ops| ==> ops[i].now <= ops[j].now
  }
}
