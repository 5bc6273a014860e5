/** Email domains: reading them from addresses, and normalising an operator's allowlist. */
module AllowedDomains {
  import opened Prelude
  import opened Text

  /** One entry of an allowlist given as a list; it need not be text. */
  datatype Part = Word(s: string) | NotText

  /** What an operator may send as the allowlist. */
  datatype RawDomains = Absent | Line(s: string) | Listed(parts: seq<Part>) | WrongType

  datatype DomainsError = NotDomains

  predicate IsAt(c: char) {
    c == '@'
  }

  predicate IsNameChar(c: char) {
    'a' <= c <= 'z' || '0' <= c <= '9' || c == '-'
  }

  predicate IsName(s: string) {
    s != "" && forall c :: c in s ==> IsNameChar(c)
  }

  predicate EndsInNewline(s: string) {
    s != "" && s[|s| - 1] == '\n'
  }

  /** A text without the one final newline the domain pattern overlooks. */
  function Body(s: string): string {
    if EndsInNewline(s) then s[..|s| - 1] else s
  }

  /** At least two dotted names, the first not starting with a hyphen; a final newline is overlooked. */
  predicate HasDomainShape(s: string) {
    && Body(s) != "" && Body(s)[0] != '-'
    && |SplitOn(Body(s), '.')| >= 2
    && forall name :: name in SplitOn(Body(s), '.') ==> IsName(name)
  }

  /** An entry without surrounding space, capitals, leading at-signs and surrounding dots. */
  function Clean(s: string): string {
    Trim(Strip(DropLeft(Lower(Strip(s)), IsAt)), IsDot)
  }

  predicate Acceptable(p: Part) {
    p.Word? && (Clean(p.s) == "" || HasDomainShape(Clean(p.s)))
  }

  /** The domain an entry stands for, "" when it is blank. */
  function Entry(p: Part): Result<string, DomainsError> {
    if Acceptable(p) then Ok(Clean(p.s)) else Err(NotDomains)
  }

  function AddDomain(seen: seq<string>, d: string): seq<string> {
    if d == "" || d in seen then seen else seen + [d]
  }

  type Entries = seq<Result<string, DomainsError>>

  function EntriesOf(parts: seq<Part>): Entries {
    seq(|parts|, i requires 0 <= i < |parts| => Entry(parts[i]))
  }

  /** The domains of a list of entries in order of first appearance, unless one is bad. */
  function Collect(entries: Entries): Result<seq<string>, DomainsError> {
    if entries == [] then Ok([])
    else
      var seen, d := Collect(entries[..|entries| - 1]), entries[|entries| - 1];
      if seen.Err? then seen
      else if d.Err? then Err(d.error)
      else Ok(AddDomain(seen.value, d.value))
  }

  function Collected(parts: seq<Part>): Result<seq<string>, DomainsError> {
    Collect(EntriesOf(parts))
  }

  function CommaForNewline(s: string): string {
    seq(|s|, i requires 0 <= i < |s| => if s[i] == '\n' then ',' else s[i])
  }

  function Words(ws: seq<string>): seq<Part> {
    seq(|ws|, i requires 0 <= i < |ws| => Word(ws[i]))
  }

  function PartsOf(raw: RawDomains): Result<seq<Part>, DomainsError> {
    match raw
    case Absent => Ok([])
    case Line(s) => Ok(Words(SplitOn(CommaForNewline(s), ',')))
    case Listed(parts) => Ok(parts)
    case WrongType => Err(NotDomains)
  }

  function Domains(raw: RawDomains): Result<seq<string>, DomainsError> {
    var parts := PartsOf(raw);
    if parts.Err? then Err(parts.error)
    else Collected(parts.value)
  }

  lemma {:induction false} BadEntryIsFinal(entries: Entries, n: nat)
    requires n <= |entries| && Collect(entries[..n]).Err?
    ensures Collect(entries) == Collect(entries[..n])
    decreases |entries| - n
  {
    if n == |entries| {
      assert entries[..n] == entries;
    } else {
      assert entries[..n + 1][..n] == entries[..n];
      BadEntryIsFinal(entries, n + 1);
    }
  }

  method CollectDomains(parts: seq<Part>) returns (domains: Result<seq<string>, DomainsError>)
    ensures domains == Collected(parts)
  {
    var seen: seq<string> := [];
    ghost var entries := EntriesOf(parts);
    for i := 0 to |parts|
      invariant Collect(entries[..i]) == Ok(seen)
    {
      assert entries[..i + 1][..i] == entries[..i];
      var d := Entry(parts[i]);
      if d.Err? {
        BadEntryIsFinal(entries, i + 1);
        return Err(d.error);
      }
      if d.value != "" && d.value !in seen {
        seen := seen + [d.value];
      }
    }
    assert entries[..|parts|] == entries;
    domains := Ok(seen);
  }

  /** Normalise the allowlist into lowercase domains, order preserved, stopping at the first bad entry. */
  method NormalizeDomains(raw: RawDomains) returns (domains: Result<seq<string>, DomainsError>)
    ensures domains == Domains(raw)
  {
    var parts := PartsOf(raw);
    if parts.Err? { return Err(parts.error); }
    domains := CollectDomains(parts.value);
  }

  // ------------------------------------------------------------------------
  // What normalising keeps
  // ------------------------------------------------------------------------

  /** A list is accepted exactly when every entry is blank or a domain. */
  lemma {:induction false} CollectOk(entries: Entries)
    ensures Collect(entries).Ok? <==> forall i :: 0 <= i < |entries| ==> entries[i].Ok?
  {
    if entries != [] {
      var init := entries[..|entries| - 1];
      CollectOk(init);
      assert forall i :: 0 <= i < |init| ==> init[i] == entries[i];
    }
  }

  /** The result names each domain once. */
  lemma {:induction false} CollectDistinct(entries: Entries)
    requires Collect(entries).Ok?
    ensures forall i, j :: 0 <= i < j < |Collect(entries).value| ==>
            Collect(entries).value[i] != Collect(entries).value[j]
  {
    if entries != [] {
      CollectDistinct(entries[..|entries| - 1]);
    }
  }

  /** The result names exactly the domains the entries stand for. */
  lemma {:induction false} CollectHolds(entries: Entries, d: string)
    requires Collect(entries).Ok?
    ensures d in Collect(entries).value <==> d != "" && Ok(d) in entries
  {
    if entries != [] {
      var init := entries[..|entries| - 1];
      CollectHolds(init, d);
      assert Ok(d) in entries <==> Ok(d) in init || Ok(d) == entries[|entries| - 1] by {
        assert entries == init + [entries[|entries| - 1]];
      }
    }
  }

  /** The overlooked newline aside, a domain is made of name characters and dots, with a name character at each end. */
  lemma ShapeChars(s: string)
    requires HasDomainShape(s)
    ensures forall c :: c in Body(s) ==> IsNameChar(c) || c == '.'
    ensures IsNameChar(Body(s)[0]) && IsNameChar(Body(s)[|Body(s)| - 1])
  {
    var b := Body(s);
    forall c | c in b ensures IsNameChar(c) || c == '.' {
      var i :| 0 <= i < |b| && b[i] == c;
      SplitChars(b, '.', i);
    }
    SplitFirst(b, '.');
    SplitLast(b, '.');
    assert "" !in SplitOn(b, '.') by { assert !IsName(""); }
    assert b[0] in b && b[|b| - 1] in b;
  }

  lemma CleanFixed(b: string)
    requires b != "" && IsNameChar(b[0]) && IsNameChar(b[|b| - 1])
    requires forall c :: c in b ==> IsNameChar(c) || c == '.'
    ensures Clean(b) == b
  {
    assert Strip(b) == b by { TrimFixed(b, IsSpace); }
    assert Lower(b) == b by { LowerFixed(b); }
    assert DropLeft(b, IsAt) == b;
    assert Trim(b, IsDot) == b by { TrimFixed(b, IsDot); }
  }

  lemma StripNewline(b: string)
    requires b != "" && !IsSpace(b[0]) && !IsSpace(b[|b| - 1])
    ensures Strip(b + "\n") == b
  {
    var s := b + "\n";
    assert DropLeft(s, IsSpace) == s;
    assert s[..|s| - 1] == b;
    assert DropRight(b, IsSpace) == b;
  }

  /** Cleaning an accepted domain again drops the overlooked newline and nothing else. */
  lemma CleanAgain(d: string)
    requires HasDomainShape(d)
    ensures Clean(d) == Body(d) && HasDomainShape(Body(d)) && Body(d) != ""
  {
    ShapeChars(d);
    var b := Body(d);
    assert Body(b) == b by { assert !EndsInNewline(b); }
    CleanFixed(b);
    if EndsInNewline(d) {
      assert d == b + "\n";
      StripNewline(b);
      TrimFixed(b, IsSpace);
      assert Strip(d) == Strip(b);
    }
  }

  /** An entry's domain has the domain shape. */
  lemma EntryShape(p: Part)
    requires Entry(p).Ok? && Entry(p).value != ""
    ensures HasDomainShape(Entry(p).value)
  {
  }

  lemma CollectedShape(parts: seq<Part>, d: string)
    requires Collected(parts).Ok? && d in Collected(parts).value
    ensures HasDomainShape(d)
  {
    CollectHolds(EntriesOf(parts), d);
    var i :| 0 <= i < |parts| && EntriesOf(parts)[i] == Ok(d);
    EntryShape(parts[i]);
  }

  /** The entries of an accepted list, read again. */
  function Bodies(ds: seq<string>): Entries {
    seq(|ds|, i requires 0 <= i < |ds| => Ok(Body(ds[i])))
  }

  lemma EntriesAgain(ds: seq<string>)
    requires forall i :: 0 <= i < |ds| ==> HasDomainShape(ds[i])
    ensures EntriesOf(Words(ds)) == Bodies(ds)
  {
    forall i | 0 <= i < |ds| ensures Entry(Words(ds)[i]) == Ok(Body(ds[i])) {
      CleanAgain(ds[i]);
    }
  }

  function Oks(ds: seq<string>): Entries {
    seq(|ds|, i requires 0 <= i < |ds| => Ok(ds[i]))
  }

  lemma {:induction false} CollectSame(ds: seq<string>)
    requires forall i, j :: 0 <= i < j < |ds| ==> ds[i] != ds[j]
    requires "" !in ds
    ensures Collect(Oks(ds)) == Ok(ds)
  {
    if ds != [] {
      var init, d := ds[..|ds| - 1], ds[|ds| - 1];
      CollectSame(init);
      assert Oks(ds)[..|ds| - 1] == Oks(init);
      assert ds == init + [d];
    }
  }

  /**
   Reading a normalised allowlist again always succeeds, and gives it back unchanged
   exactly when none of its domains ends in a newline the pattern overlooked.
   */
  lemma NormalisedAgain(parts: seq<Part>)
    requires Collected(parts).Ok?
    ensures var ds := Collected(parts).value;
            && Collected(Words(ds)).Ok?
            && (Collected(Words(ds)).value == ds <==> forall d :: d in ds ==> !EndsInNewline(d))
            && (ds != [] ==> Collected(Words(ds)).value != [])
  {
    var ds := Collected(parts).value;
    forall i | 0 <= i < |ds| ensures HasDomainShape(ds[i]) {
      CollectedShape(parts, ds[i]);
    }
    CollectDistinct(EntriesOf(parts));
    EntriesAgain(ds);
    ReadAgain(ds);
  }

  lemma ShapeBody(d: string)
    requires HasDomainShape(d)
    ensures d != "" && Body(d) != "" && !EndsInNewline(Body(d))
  {
    ShapeChars(d);
  }

  lemma BodiesCollect(ds: seq<string>)
    requires forall i :: 0 <= i < |ds| ==> HasDomainShape(ds[i])
    ensures Collect(Bodies(ds)).Ok?
    ensures ds != [] ==> Collect(Bodies(ds)).value != []
  {
    CollectOk(Bodies(ds));
    if ds != [] {
      ShapeBody(ds[0]);
      CollectHolds(Bodies(ds), Body(ds[0]));
      assert Bodies(ds)[0] in Bodies(ds);
    }
  }

  lemma ReadAgain(ds: seq<string>)
    requires forall i :: 0 <= i < |ds| ==> HasDomainShape(ds[i])
    requires forall i, j :: 0 <= i < j < |ds| ==> ds[i] != ds[j]
    ensures Collect(Bodies(ds)).Ok?
    ensures Collect(Bodies(ds)).value == ds <==> forall d :: d in ds ==> !EndsInNewline(d)
    ensures ds != [] ==> Collect(Bodies(ds)).value != []
  {
    BodiesCollect(ds);
    forall i | 0 <= i < |ds| ensures ds[i] != "" && !EndsInNewline(Body(ds[i])) {
      ShapeBody(ds[i]);
    }
    if forall i :: 0 <= i < |ds| ==> !EndsInNewline(ds[i]) {
      assert Bodies(ds) == Oks(ds);
      CollectSame(ds);
    } else {
      var k :| 0 <= k < |ds| && EndsInNewline(ds[k]);
      CollectHolds(Bodies(ds), ds[k]);
      assert ds[k] in ds;
    }
  }

  /** Such a domain comes only from a list entry; text with newlines is cut at them. */
  lemma LinesHaveNoNewlines(s: string)
    requires Domains(Line(s)).Ok?
    ensures forall d :: d in Domains(Line(s)).value ==> !EndsInNewline(d)
  {
    var line := CommaForNewline(s);
    var words := SplitOn(line, ',');
    forall d | d in Domains(Line(s)).value ensures !EndsInNewline(d) {
      CollectHolds(EntriesOf(Words(words)), d);
      var i :| 0 <= i < |words| && EntriesOf(Words(words))[i] == Ok(d);
      forall c | c in words[i] ensures c in line {
        SplitOnSubset(line, ',', words[i], c);
      }
      CleanSubset(words[i]);
    }
  }

  lemma {:induction false} SplitOnSubset(s: string, sep: char, name: string, c: char)
    requires name in SplitOn(s, sep) && c in name
    ensures c in s
  {
    if s != "" {
      var init, parts, all := s[..|s| - 1], SplitOn(s[..|s| - 1], sep), SplitOn(s, sep);
      assert s == init + [s[|s| - 1]];
      var j :| 0 <= j < |all| && all[j] == name;
      if j < |parts| && c in parts[j] {
        SplitOnSubset(init, sep, parts[j], c);
      }
    }
  }

  lemma CleanSubset(s: string)
    requires '\n' !in s
    ensures !EndsInNewline(Clean(s))
  {
    TrimSubset(s, IsSpace);
    forall i | 0 <= i < |Strip(s)| ensures Lower(Strip(s))[i] != '\n' {
      assert Strip(s)[i] in Strip(s);
    }
    DropLeftSubset(Lower(Strip(s)), IsAt);
    TrimSubset(DropLeft(Lower(Strip(s)), IsAt), IsSpace);
    TrimSubset(Strip(DropLeft(Lower(Strip(s)), IsAt)), IsDot);
    assert '\n' !in Lower(Strip(s));
    assert '\n' !in Clean(s);
  }

  lemma {:induction false} DropLeftSubset(s: string, p: char -> bool)
    ensures forall c :: c in DropLeft(s, p) ==> c in s
  {
    if s != "" && p(s[0]) {
      DropLeftSubset(s[1..], p);
    }
  }

  lemma TrimSubset(s: string, p: char -> bool)
    ensures forall c :: c in Trim(s, p) ==> c in s
  {
    DropLeftSubset(s, p);
    DropRightEnd(DropLeft(s, p), p);
  }

  /** The overlooked newline is real: any domain followed by a newline and a dot is accepted with its newline. */
  lemma NewlineSurvives(b: string)
    requires HasDomainShape(b) && !EndsInNewline(b)
    ensures Collected([Word(b + "\n.")]) == Ok([b + "\n"])
    ensures Collected(Words([b + "\n"])) == Ok([b])
  {
    ShapeChars(b);
    var s, d := b + "\n.", b + "\n";
    assert Body(d) == b && HasDomainShape(d);
    assert Strip(s) == s by { TrimFixed(s, IsSpace); }
    assert Lower(s) == s by { LowerFixed(s); }
    assert DropLeft(s, IsAt) == s;
    assert DropLeft(s, IsDot) == s;
    assert s[..|s| - 1] == d;
    assert DropRight(d, IsDot) == d;
    assert Clean(s) == d;
    CollectSame([d]);
    assert EntriesOf([Word(s)]) == Oks([d]);
    CollectSame([b]);
    EntriesAgain([d]);
    assert Bodies([d]) == Oks([b]);
  }
}
