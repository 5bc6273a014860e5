/** Access policies: validation, storage per subject, and resolution through templates. */
module AccessPolicy {
  import opened AllowedDomains
  import opened Prelude

  datatype Mode = OpenMode | Identify | VerifyEmail

  /** What a payload may hold as its mode. */
  datatype RawMode = NoMode | ModeText(s: string) | ModeOther

  datatype Field = ModeField | DomainsField | SecurityField | EmailField | NameField | SubjectField

  /** A policy as sent; the flags are already read for truth, and `extra` is what a team adds. */
  datatype Payload = Payload(mode: RawMode, collectName: bool, collectEmail: bool, domainSecurity: bool,
                             allowed: RawDomains, inherit: bool, template: Option<string>, extra: map<string, string>)

  /** A validated policy, as stored. */
  datatype Policy = Policy(mode: Mode, collectName: bool, collectEmail: bool, domainSecurity: bool,
                           allowed: seq<string>, inherit: bool, template: Option<string>, extra: map<string, string>)

  const DEFAULT_POLICY := Policy(OpenMode, false, false, false, [], false, None, map[])

  function ParseMode(m: RawMode): Option<Mode> {
    match m
    case NoMode => Some(OpenMode)
    case ModeText(s) =>
      if s == "open" then Some(OpenMode) else if s == "identify" then Some(Identify)
      else if s == "verify_email" then Some(VerifyEmail) else None
    case ModeOther => None
  }

  /** The mode a payload names; one that names none asks for an open room. */
  predicate Sends(m: RawMode, mode: Mode) {
    match mode
    case OpenMode => m == NoMode || m == ModeText("open")
    case Identify => m == ModeText("identify")
    case VerifyEmail => m == ModeText("verify_email")
  }

  function ModeName(m: Mode): string {
    match m
    case OpenMode => "open"
    case Identify => "identify"
    case VerifyEmail => "verify_email"
  }

  function OrEmpty(domains: Result<seq<string>, DomainsError>): seq<string> {
    if domains.Ok? then domains.value else []
  }

  /** Every field the rules object to. */
  function Errors(p: Payload): set<Field> {
    var mode, domains := ParseMode(p.mode), Domains(p.allowed);
    (if mode.None? then {ModeField} else {})
    + (if domains.Err? then {DomainsField} else {})
    + (if p.domainSecurity && mode != Some(VerifyEmail) then {SecurityField} else {})
    + (if p.domainSecurity && OrEmpty(domains) == [] then {DomainsField} else {})
    + (if mode == Some(VerifyEmail) && !p.collectEmail then {EmailField} else {})
    + (if mode == Some(Identify) && !p.collectName && !p.collectEmail then {NameField} else {})
  }

  /** Check a policy and return its normalised form. */
  function Validate(p: Payload): Result<Policy, set<Field>> {
    if Errors(p) != {} then Err(Errors(p))
    else Ok(Policy(ParseMode(p.mode).value, p.collectName, p.collectEmail, p.domainSecurity, Domains(p.allowed).value,
                   p.inherit, p.template, p.extra))
  }

  /** A stored policy, read back as a payload. */
  function AsPayload(p: Policy): Payload {
    Payload(ModeText(ModeName(p.mode)), p.collectName, p.collectEmail, p.domainSecurity, Listed(Words(p.allowed)),
            p.inherit, p.template, p.extra)
  }

  /** What reading a stored allowlist again yields. */
  function Reread(allowed: seq<string>): seq<string> {
    OrEmpty(Collected(Words(allowed)))
  }

  predicate NoNewlines(ds: seq<string>) {
    forall d :: d in ds ==> !EndsInNewline(d)
  }

  /** A policy that came out of validation. */
  ghost predicate Validated(p: Policy) {
    exists payload :: Validate(payload) == Ok(p)
  }

  lemma ValidatedAllowlist(p: Policy)
    requires Validated(p)
    ensures Collected(Words(p.allowed)).Ok?
    ensures Reread(p.allowed) == p.allowed <==> NoNewlines(p.allowed)
    ensures p.allowed != [] ==> Reread(p.allowed) != []
  {
    var payload :| Validate(payload) == Ok(p);
    var parts := PartsOf(payload.allowed);
    NormalisedAgain(parts.value);
  }

  /**
   A stored policy always validates again. Everything but its allowlist comes back as
   it was, and the allowlist does exactly when no domain in it ends in a newline.
   */
  lemma ValidateAgain(p: Policy)
    requires Validated(p)
    ensures Validate(AsPayload(p)) == Ok(p.(allowed := Reread(p.allowed)))
    ensures Validate(AsPayload(p)) == Ok(p) <==> NoNewlines(p.allowed)
  {
    ValidatedAllowlist(p);
    var payload :| Validate(payload) == Ok(p);
    assert ParseMode(ModeText(ModeName(p.mode))) == Some(p.mode);
    assert Domains(Listed(Words(p.allowed))) == Ok(Reread(p.allowed));
    assert Errors(payload) == {} && SecurityField !in Errors(payload) && DomainsField !in Errors(payload)
           && EmailField !in Errors(payload) && NameField !in Errors(payload);
    assert Errors(AsPayload(p)) == {};
  }

  /** Validation after validation is the identity for any allowlist sent as text. */
  lemma ValidateIdempotentOnText(payload: Payload)
    requires Validate(payload).Ok? && payload.allowed.Line?
    ensures Validate(AsPayload(Validate(payload).value)) == Validate(payload)
  {
    LinesHaveNoNewlines(payload.allowed.s);
    ValidateAgain(Validate(payload).value);
  }

  /**
   It is not for a list: any domain sent with a newline before a final dot validates to
   something else the second time.
   */
  lemma ValidateNotIdempotent(payload: Payload, b: string)
    requires HasDomainShape(b) && !EndsInNewline(b)
    requires payload.allowed == Listed([Word(b + "\n.")]) && Validate(payload).Ok?
    ensures Validate(payload).value.allowed == [b + "\n"]
    ensures Validate(AsPayload(Validate(payload).value)) == Ok(Validate(payload).value.(allowed := [b]))
  {
    NewlineSurvives(b);
    ValidateAgain(Validate(payload).value);
  }

  /** The rules, one by one: when a payload is accepted. */
  lemma AcceptedExactly(p: Payload)
    ensures Validate(p).Ok? <==>
            var mode := ParseMode(p.mode);
            && mode.Some? && Domains(p.allowed).Ok?
            && (p.domainSecurity ==> mode == Some(VerifyEmail) && Domains(p.allowed).value != [])
            && (mode == Some(VerifyEmail) ==> p.collectEmail)
            && (mode == Some(Identify) ==> p.collectName || p.collectEmail)
  {
    var mode, domains := ParseMode(p.mode), Domains(p.allowed);
    assert mode.None? ==> ModeField in Errors(p);
    assert domains.Err? || (p.domainSecurity && OrEmpty(domains) == []) ==> DomainsField in Errors(p);
    assert p.domainSecurity && mode != Some(VerifyEmail) ==> SecurityField in Errors(p);
    assert mode == Some(VerifyEmail) && !p.collectEmail ==> EmailField in Errors(p);
    assert mode == Some(Identify) && !p.collectName && !p.collectEmail ==> NameField in Errors(p);
  }

  /** An accepted policy is the one that was sent: its mode, every flag, its template and whatever else came with it. */
  lemma AcceptedAsSent(p: Payload)
    requires Validate(p).Ok?
    ensures var policy := Validate(p).value;
            && Sends(p.mode, policy.mode)
            && policy.collectName == p.collectName && policy.collectEmail == p.collectEmail
            && policy.domainSecurity == p.domainSecurity && Ok(policy.allowed) == Domains(p.allowed)
            && policy.inherit == p.inherit && policy.template == p.template && policy.extra == p.extra
  {
    assert ParseMode(p.mode).None? ==> ModeField in Errors(p);
    assert Domains(p.allowed).Err? ==> DomainsField in Errors(p);
  }

  /** A refused one names exactly the fields that are at fault. */
  lemma FaultsExactly(p: Payload)
    requires Validate(p).Err?
    ensures var faults := Validate(p).error;
            && (ModeField in faults <==> forall mode :: !Sends(p.mode, mode))
            && (DomainsField in faults
                <==> Domains(p.allowed).Err? || (p.domainSecurity && Domains(p.allowed) == Ok([])))
            && (SecurityField in faults <==> p.domainSecurity && !Sends(p.mode, VerifyEmail))
            && (EmailField in faults <==> Sends(p.mode, VerifyEmail) && !p.collectEmail)
            && (NameField in faults <==> Sends(p.mode, Identify) && !p.collectName && !p.collectEmail)
            && SubjectField !in faults && faults != {}
  {
    assert forall mode :: Sends(p.mode, mode) <==> ParseMode(p.mode) == Some(mode);
    if ParseMode(p.mode).Some? { assert Sends(p.mode, ParseMode(p.mode).value); }
  }
}
