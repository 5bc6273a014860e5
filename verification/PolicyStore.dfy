/** The stored policies of rooms and templates, and which one is in force for a room. */
module PolicyStore {
  import opened AccessPolicy
  import opened AllowedDomains
  import opened Prelude

  datatype Kind = RoomKind | TemplateKind

  /** A policy record; a deleted one is no longer live. */
  datatype Row = Row(kind: Kind, subject: string, policy: Policy, live: bool)

  /**
   Every live record a policy may be about, by id, and the template it names, if any;
   nothing says it has to be a room.
   */
  type Records = map<string, Option<string>>

  datatype Refusal = UnknownKind | NoSuchRecord | BadPolicy(fields: set<Field>)

  datatype Level = DefaultLevel | SubjectLevel(kind: Kind)

  datatype Resolved = Resolved(policy: Policy, level: Level, errors: set<Field>)

  predicate Concerns(row: Row, kind: Kind, subject: string) {
    row.live && row.kind == kind && row.subject == subject
  }

  /** No subject has two live rows. */
  ghost predicate OnePerSubject(rows: seq<Row>) {
    forall i, j :: 0 <= i < j < |rows| && rows[i].live ==> !Concerns(rows[j], rows[i].kind, rows[i].subject)
  }

  /** Where a subject's live row is; |rows| when it has none. */
  function Place(rows: seq<Row>, kind: Kind, subject: string): (i: nat)
    ensures i <= |rows|
    ensures i < |rows| ==> Concerns(rows[i], kind, subject)
    ensures forall j :: 0 <= j < i ==> !Concerns(rows[j], kind, subject)
  {
    if rows == [] then 0
    else
      var i := Place(rows[..|rows| - 1], kind, subject);
      if i < |rows| - 1 || Concerns(rows[|rows| - 1], kind, subject) then i else |rows|
  }

  function PolicyFor(rows: seq<Row>, kind: Kind, subject: string): Option<Policy> {
    var i := Place(rows, kind, subject);
    if i < |rows| then Some(rows[i].policy) else None
  }

  predicate Given(name: Option<string>) {
    name.Some? && name.value != ""
  }

  /** Validate a stored policy, falling back to open when it no longer validates. */
  function Revalidated(kind: Kind, p: Policy): Resolved {
    var again := Validate(AsPayload(p));
    if again.Ok? then Resolved(again.value, SubjectLevel(kind), {})
    else Resolved(DEFAULT_POLICY, SubjectLevel(kind), again.error)
  }

  function ResolveTemplate(rows: seq<Row>, template: string): Resolved {
    var p := PolicyFor(rows, TemplateKind, template);
    if p.None? then Resolved(DEFAULT_POLICY, DefaultLevel, {SubjectField}) else Revalidated(TemplateKind, p.value)
  }

  /** The policy in force for a room, and the level it came from. */
  function Resolve(rows: seq<Row>, records: Records, room: string): Resolved {
    var own := PolicyFor(rows, RoomKind, room);
    if own.Some? then
      var data := own.value.(inherit := false);
      if own.value.inherit && Given(data.template) then ResolveTemplate(rows, data.template.value)
      else Revalidated(RoomKind, data)
    else if room in records && Given(records[room]) then ResolveTemplate(rows, records[room].value)
    else Resolved(DEFAULT_POLICY, DefaultLevel, {})
  }

  /** What a write stores over what was there: every validated key, and any key it does not name. */
  function MergedOver(before: Policy, p: Policy): Policy {
    p.(template := if p.template.Some? then p.template else before.template, extra := before.extra + p.extra)
  }

  /** The policy a write brings. */
  function Incoming(kind: Kind, p: Policy): Policy {
    if kind == RoomKind && !p.inherit then p.(template := None) else p
  }

  function Write(rows: seq<Row>, kind: Kind, subject: string, p: Policy): seq<Row> {
    var i := Place(rows, kind, subject);
    if i < |rows| then rows[i := rows[i].(policy := MergedOver(rows[i].policy, p))]
    else rows + [Row(kind, subject, p, true)]
  }

  class AccessPolicies {
    var rows: seq<Row>
    var records: Records

    ghost predicate Valid()
      reads this
    {
      OnePerSubject(rows)
    }

    constructor (records: Records)
      ensures Valid() && rows == [] && this.records == records
    {
      rows, this.records := [], records;
    }

    /** The store's lookup by subject. */
    method Find(kind: Kind, subject: string) returns (i: nat)
      requires Valid()
      ensures i == Place(rows, kind, subject)
    {
      i := 0;
      while i < |rows| && !Concerns(rows[i], kind, subject)
        invariant i <= |rows| && forall j :: 0 <= j < i ==> !Concerns(rows[j], kind, subject)
      {
        i := i + 1;
      }
    }

    /** Validate and store a policy, or update the existing one; `kind` is None for an unknown kind. */
    method SetPolicy(kind: Option<Kind>, subject: string, payload: Payload) returns (refused: Option<Refusal>)
      requires Valid()
      modifies this`rows
      ensures Valid()
      ensures refused == if kind.None? then Some(UnknownKind)
                         else if kind.value == RoomKind && subject !in records then Some(NoSuchRecord)
                         else if Validate(payload).Err? then Some(BadPolicy(Validate(payload).error))
                         else None
      ensures rows == if refused.Some? then old(rows)
                      else Write(old(rows), kind.value, subject, Incoming(kind.value, Validate(payload).value))
    {
      if kind.None? { return Some(UnknownKind); }
      if kind.value == RoomKind && subject !in records { return Some(NoSuchRecord); }
      var data := Validate(payload);
      if data.Err? { return Some(BadPolicy(data.error)); }
      var policy := data.value;
      if kind.value == RoomKind && !policy.inherit {
        policy := policy.(template := None);
      }
      WriteKeepsOne(rows, kind.value, subject, policy);
      var i := Find(kind.value, subject);
      if i < |rows| {
        rows := rows[i := rows[i].(policy := MergedOver(rows[i].policy, policy))];
      } else {
        rows := rows + [Row(kind.value, subject, policy, true)];
      }
      refused := None;
    }

    /** Drop a policy so the subject falls back to what it inherits. */
    method ClearPolicy(kind: Kind, subject: string) returns (cleared: bool)
      requires Valid()
      modifies this`rows
      ensures Valid()
      ensures cleared <==> PolicyFor(old(rows), kind, subject).Some?
      ensures PolicyFor(rows, kind, subject) == None
      ensures |rows| == |old(rows)| && forall i :: 0 <= i < |rows| ==>
                rows[i] == old(rows)[i].(live := old(rows)[i].live && !Concerns(old(rows)[i], kind, subject))
    {
      var i := Find(kind, subject);
      cleared := i < |rows|;
      if cleared {
        rows := rows[i := rows[i].(live := false)];
      }
    }

    method InForce(room: string) returns (resolved: Resolved)
      requires Valid()
      ensures resolved == Resolve(rows, records, room)
    {
      var own := Find(RoomKind, room);
      var template: Option<string> := None;
      if own < |rows| {
        var data := rows[own].policy;
        if !data.inherit || !Given(data.template) { return Revalidated(RoomKind, data.(inherit := false)); }
        template := data.template;
      } else if room in records {
        template := records[room];
      }
      if !Given(template) { return Resolved(DEFAULT_POLICY, DefaultLevel, {}); }
      var at := Find(TemplateKind, template.value);
      if at == |rows| { return Resolved(DEFAULT_POLICY, DefaultLevel, {SubjectField}); }
      resolved := Revalidated(TemplateKind, rows[at].policy);
    }
  }

  // ------------------------------------------------------------------------
  // What a write changes
  // ------------------------------------------------------------------------

  lemma PlaceUnique(rows: seq<Row>, kind: Kind, subject: string, i: nat)
    requires OnePerSubject(rows) && i < |rows| && Concerns(rows[i], kind, subject)
    ensures Place(rows, kind, subject) == i
  {
  }

  lemma WriteKeepsOne(rows: seq<Row>, kind: Kind, subject: string, p: Policy)
    requires OnePerSubject(rows)
    ensures OnePerSubject(Write(rows, kind, subject, p))
  {
  }

  lemma PlaceAbsent(rows: seq<Row>, kind: Kind, subject: string)
    requires forall j :: 0 <= j < |rows| ==> !Concerns(rows[j], kind, subject)
    ensures Place(rows, kind, subject) == |rows|
  {
  }

  /** What a subject's row holds after a write to it. */
  function Written(rows: seq<Row>, kind: Kind, subject: string, p: Policy): Policy {
    match PolicyFor(rows, kind, subject) case None => p case Some(before) => MergedOver(before, p)
  }

  lemma WriteReadsBack(rows: seq<Row>, kind: Kind, subject: string, p: Policy)
    requires OnePerSubject(rows)
    ensures PolicyFor(Write(rows, kind, subject, p), kind, subject) == Some(Written(rows, kind, subject, p))
  {
    var i, after := Place(rows, kind, subject), Write(rows, kind, subject, p);
    assert Place(after, kind, subject) == i by {
      WriteKeepsOne(rows, kind, subject, p);
      assert Concerns(after[i], kind, subject);
      PlaceUnique(after, kind, subject, i);
    }
    assert after[i].policy == Written(rows, kind, subject, p);
  }

  lemma WriteElsewhere(rows: seq<Row>, after: seq<Row>, k: Kind, s: string)
    requires |rows| <= |after| && OnePerSubject(after)
    requires forall m :: 0 <= m < |after| && Concerns(after[m], k, s) ==> m < |rows| && after[m] == rows[m]
    requires forall m :: 0 <= m < |rows| && Concerns(rows[m], k, s) ==> after[m] == rows[m]
    ensures PolicyFor(after, k, s) == PolicyFor(rows, k, s)
  {
    var j := Place(rows, k, s);
    if j < |rows| {
      PlaceUnique(after, k, s, j);
    } else {
      PlaceAbsent(after, k, s);
    }
  }

  /** A write is read back by its own subject and by nobody else. */
  lemma WriteReads(rows: seq<Row>, kind: Kind, subject: string, p: Policy, k: Kind, s: string)
    requires OnePerSubject(rows)
    ensures PolicyFor(Write(rows, kind, subject, p), k, s) ==
            if k == kind && s == subject then Some(Written(rows, kind, subject, p)) else PolicyFor(rows, k, s)
  {
    if k == kind && s == subject {
      WriteReadsBack(rows, kind, subject, p);
    } else {
      WriteKeepsOne(rows, kind, subject, p);
      WriteElsewhere(rows, Write(rows, kind, subject, p), k, s);
    }
  }

  /**
   After a room's own rule is written, the rule that was sent is in force at room level
   without errors: its mode and every flag are the payload's, and so is its allowlist,
   except that it is read again, which changes it exactly when one of its domains ends
   in a newline.
   */
  lemma RoomRuleInForce(rows: seq<Row>, records: Records, room: string, payload: Payload)
    requires OnePerSubject(rows) && Validate(payload).Ok? && !payload.inherit
    ensures var stored := Validate(payload).value;
            var resolved := Resolve(Write(rows, RoomKind, room, Incoming(RoomKind, stored)), records, room);
            && resolved.level == SubjectLevel(RoomKind) && resolved.errors == {}
            && Sends(payload.mode, resolved.policy.mode)
            && resolved.policy.collectName == payload.collectName
              && resolved.policy.collectEmail == payload.collectEmail
            && resolved.policy.domainSecurity == payload.domainSecurity
            && resolved.policy.allowed == Reread(stored.allowed)
            && (Ok(resolved.policy.allowed) == Domains(payload.allowed) <==> NoNewlines(stored.allowed))
  {
    var p := Validate(payload).value;
    AcceptedAsSent(payload);
    WriteReads(rows, RoomKind, room, Incoming(RoomKind, p), RoomKind, room);
    var own := PolicyFor(Write(rows, RoomKind, room, Incoming(RoomKind, p)), RoomKind, room).value.(inherit := false);
    SameRules(payload, own);
    ValidateAgain(own);
    ValidatedAllowlist(own);
  }

  /** Keys that are not part of the rule do not matter to validation. */
  lemma SameRules(payload: Payload, q: Policy)
    requires Validate(payload).Ok?
             && q == Validate(payload).value.(inherit := q.inherit, template := q.template, extra := q.extra)
    ensures Validated(q)
  {
    var again := payload.(inherit := q.inherit, template := q.template, extra := q.extra);
    assert Errors(again) == Errors(payload);
    assert Validate(again) == Ok(q);
  }

  /** A room whose policy is whatever its template says. */
  predicate DefersTo(rows: seq<Row>, records: Records, room: string, template: string) {
    template != "" &&
    var own := PolicyFor(rows, RoomKind, room);
    if own.Some? then own.value.inherit && own.value.template == Some(template)
    else room in records && records[room] == Some(template)
  }

  /** The template a room's policy comes from, if it comes from one. */
  function TemplateOf(own: Option<Policy>, records: Records, room: string): Option<string> {
    if own.Some? then if own.value.inherit && Given(own.value.template) then own.value.template else None
    else if room in records && Given(records[room]) then records[room]
    else None
  }

  /** What is in force depends on the room's own row and, through it, on one template. */
  lemma ResolvedThrough(rows: seq<Row>, after: seq<Row>, records: Records, room: string)
    requires PolicyFor(after, RoomKind, room) == PolicyFor(rows, RoomKind, room)
    ensures var template := TemplateOf(PolicyFor(rows, RoomKind, room), records, room);
            if template.Some? then Resolve(after, records, room) == ResolveTemplate(after, template.value)
            else Resolve(after, records, room) == Resolve(rows, records, room)
  {
  }

  lemma TemplateAfter(rows: seq<Row>, template: string, p: Policy, other: string)
    requires OnePerSubject(rows)
    ensures ResolveTemplate(Write(rows, TemplateKind, template, p), other) ==
            if other == template then Revalidated(TemplateKind, Written(rows, TemplateKind, template, p))
            else ResolveTemplate(rows, other)
  {
    WriteReads(rows, TemplateKind, template, p, TemplateKind, other);
  }

  /**
   Writing a template changes what is in force for exactly the rooms that defer to
   it, and they then all get the template's policy; no room's own row is touched.
   */
  lemma TemplateWriteReaches(rows: seq<Row>, records: Records, template: string, p: Policy, room: string)
    requires OnePerSubject(rows)
    ensures var after := Write(rows, TemplateKind, template, p);
            && PolicyFor(after, RoomKind, room) == PolicyFor(rows, RoomKind, room)
            && Resolve(after, records, room) ==
               if DefersTo(rows, records, room, template) then
                 Revalidated(TemplateKind, Written(rows, TemplateKind, template, p))
               else Resolve(rows, records, room)
  {
    var after, own := Write(rows, TemplateKind, template, p), PolicyFor(rows, RoomKind, room);
    var through := TemplateOf(own, records, room);
    assert PolicyFor(after, RoomKind, room) == own by { WriteReads(rows, TemplateKind, template, p, RoomKind, room); }
    ResolvedThrough(rows, after, records, room);
    ResolvedThrough(rows, rows, records, room);
    assert DefersTo(rows, records, room, template) <==> through == Some(template) && template != "";
    if through.Some? {
      TemplateAfter(rows, template, p, through.value);
    }
  }

  // ------------------------------------------------------------------------
  // What a write leaves, and what holds without one
  // ------------------------------------------------------------------------

  /**
   A write over a subject's row replaces the rule, and of the rest only what it names: a
   template or a key of the team's own that it leaves out survives, one it names is the
   one it names. A room's rule that defers to nothing names no template.
   */
  lemma WriteReplacesOnlyWhatItNames(rows: seq<Row>, kind: Kind, subject: string, payload: Payload, key: string)
    requires OnePerSubject(rows) && PolicyFor(rows, kind, subject).Some? && Validate(payload).Ok?
    ensures var before := PolicyFor(rows, kind, subject).value;
            var read := PolicyFor(Write(rows, kind, subject, Incoming(kind, Validate(payload).value)), kind, subject);
            && read.Some? && Sends(payload.mode, read.value.mode)
            && read.value.collectName == payload.collectName && read.value.collectEmail == payload.collectEmail
            && read.value.domainSecurity == payload.domainSecurity && read.value.inherit == payload.inherit
            && Ok(read.value.allowed) == Domains(payload.allowed)
            && (read.value.template ==
                  if payload.template.Some? && (kind.TemplateKind? || payload.inherit) then payload.template
                  else before.template)
            && (key in payload.extra ==> key in read.value.extra && read.value.extra[key] == payload.extra[key])
            && (key !in payload.extra && key in before.extra ==>
                  key in read.value.extra && read.value.extra[key] == before.extra[key])
            && (key !in payload.extra && key !in before.extra ==> key !in read.value.extra)
  {
    AcceptedAsSent(payload);
    WriteReads(rows, kind, subject, Incoming(kind, Validate(payload).value), kind, subject);
  }

  /** A room without a policy of its own and without a template is open and asks for nothing. */
  lemma OpenByDefault(rows: seq<Row>, records: Records, room: string)
    requires PolicyFor(rows, RoomKind, room).None? && (room in records ==> records[room] in {None, Some("")})
    ensures var resolved := Resolve(rows, records, room);
            && resolved.policy.mode == OpenMode && !resolved.policy.collectName && !resolved.policy.collectEmail
            && !resolved.policy.domainSecurity && resolved.policy.allowed == []
            && resolved.level == DefaultLevel && resolved.errors == {}
  {
  }

  /** So is one that defers to a template without a policy, and that is reported. */
  lemma OpenWithoutTemplatePolicy(rows: seq<Row>, records: Records, room: string, template: string)
    requires DefersTo(rows, records, room, template) && PolicyFor(rows, TemplateKind, template).None?
    ensures var resolved := Resolve(rows, records, room);
            resolved.policy.mode == OpenMode && resolved.level == DefaultLevel && resolved.errors == {SubjectField}
  {
  }

  /** A stored policy that no longer validates leaves its subject open, and its faults are reported. */
  lemma BrokenPolicyOpens(kind: Kind, p: Policy)
    requires Validate(AsPayload(p)).Err?
    ensures var resolved := Revalidated(kind, p);
            && resolved.policy.mode == OpenMode && !resolved.policy.collectName && !resolved.policy.collectEmail
            && !resolved.policy.domainSecurity && resolved.level == SubjectLevel(kind)
            && resolved.errors == Validate(AsPayload(p)).error != {}
  {
  }

  /** A room's own rule comes before its template, and a template's policy before the default. */
  lemma ResolvedInOrder(rows: seq<Row>, records: Records, room: string)
    ensures var own, resolved := PolicyFor(rows, RoomKind, room), Resolve(rows, records, room);
            && (own.Some? && !own.value.inherit ==> resolved.level == SubjectLevel(RoomKind))
            && (own.Some? && own.value.inherit && own.value.template in {None, Some("")} ==>
                  resolved.level == SubjectLevel(RoomKind))
            && forall template :: DefersTo(rows, records, room, template) ==>
                 PolicyFor(rows, TemplateKind, template).None? || resolved.level == SubjectLevel(TemplateKind)
  {
  }
}
