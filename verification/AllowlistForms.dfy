/** The forms in which an allowlist is written, and which domains it then names. */
module AllowlistForms {
  import opened AccessPolicy
  import opened AllowedDomains
  import opened Prelude
  import opened Text
  import opened TextLaws

  predicate OnlyAts(s: string) {
    forall i :: 0 <= i < |s| ==> s[i] == '@'
  }

  /**
   An entry may be written in any letter case, with at-signs and dots before it, dots
   after it and blanks in between and around: it stands for the domain all the same.
   */
  lemma EntryWritten(a: string, ats: string, b: string, dots: string, written: string, more: string, c: string,
                     d: string)
    requires AllOf(a, IsSpace) && OnlyAts(ats) && AllOf(b, IsSpace) && AllOf(dots, IsDot) && AllOf(more, IsDot)
    requires AllOf(c, IsSpace) && (b != "" ==> ats != "")
    requires Lower(written) == d && HasDomainShape(d) && !EndsInNewline(d)
    ensures Entry(Word(a + (ats + (b + (dots + written + more))) + c)) == Ok(d)
  {
    var core := dots + written + more;
    ShapeChars(d);
    WrittenEnds(written, d);
    DotsEnds(dots, written, more);
    if ats == "" {
      assert ats + (b + core) == core;
    } else {
      BlankCharacters('@');
    }
    TrimOf(a, ats + (b + core), c, IsSpace);
    LowerConcat(ats, b + core);
    LowerConcat(b, core);
    assert Lower(ats) == ats by { LowerFixed(ats); }
    LowerCore(dots, written, more, d);
    AtsDropped(ats, Lower(b), dots + d + more);
    BlanksDropped(b, dots, d, more);
    TrimOf(dots, d, more, IsDot);
  }

  /** The written form begins and ends as the domain does, but for the letter case. */
  lemma WrittenEnds(written: string, d: string)
    requires Lower(written) == d && d != "" && IsNameChar(d[0]) && IsNameChar(d[|d| - 1])
    ensures |written| == |d| && !IsSpace(written[0]) && !IsSpace(written[|d| - 1])
  {
    assert |Lower(written)| == |written|;
    assert d[0] == LowerChar(written[0]) && d[|d| - 1] == LowerChar(written[|d| - 1]);
    BlankCharacters(written[0]);
    BlankCharacters(written[|d| - 1]);
  }

  lemma DotsEnds(dots: string, written: string, more: string)
    requires AllOf(dots, IsDot) && AllOf(more, IsDot) && written != ""
    requires !IsSpace(written[0]) && !IsSpace(written[|written| - 1])
    ensures var core := dots + written + more; !IsSpace(core[0]) && !IsSpace(core[|core| - 1])
  {
    var core := dots + written + more;
    BlankCharacters('.');
    assert core[0] == if dots != "" then dots[0] else written[0];
    assert core[|core| - 1] == if more != "" then more[|more| - 1] else written[|written| - 1];
  }

  lemma LowerCore(dots: string, written: string, more: string, d: string)
    requires AllOf(dots, IsDot) && AllOf(more, IsDot) && Lower(written) == d
    ensures Lower(dots + written + more) == dots + d + more
  {
    LowerConcat(dots + written, more);
    LowerConcat(dots, written);
    assert Lower(dots) == dots by { LowerFixed(dots); }
    assert Lower(more) == more by { LowerFixed(more); }
  }

  lemma AtsDropped(ats: string, b: string, core: string)
    requires OnlyAts(ats) && AllOf(b, IsSpace) && core != "" && core[0] != '@'
    ensures DropLeft(ats + (b + core), IsAt) == b + core
  {
    BlankCharacters('@');
    assert (b + core)[0] == if b != "" then b[0] else core[0];
    DropLeftOf(ats, b + core, IsAt);
  }

  lemma BlanksDropped(b: string, dots: string, d: string, more: string)
    requires AllOf(b, IsSpace) && AllOf(dots, IsDot) && AllOf(more, IsDot)
    requires d != "" && IsNameChar(d[0]) && IsNameChar(d[|d| - 1])
    ensures Strip(Lower(b) + (dots + d + more)) == dots + d + more
  {
    BlankCharacters(d[0]);
    BlankCharacters(d[|d| - 1]);
    DotsEnds(dots, d, more);
    forall i | 0 <= i < |b| ensures IsSpace(Lower(b)[i]) {
      LowerExactly(b, i);
    }
    assert Lower(b) + (dots + d + more) == Lower(b) + (dots + d + more) + "";
    TrimOf(Lower(b), dots + d + more, "", IsSpace);
  }

  /** A text is read as its entries, whether they are separated by commas or by line ends. */
  lemma LineOfEntries(entries: seq<string>, sep: char)
    requires entries != [] && (sep == ',' || sep == '\n')
    requires forall i :: 0 <= i < |entries| ==> ',' !in entries[i] && '\n' !in entries[i]
    ensures Domains(Line(Join(entries, sep))) == Domains(Listed(Words(entries)))
  {
    CommasJoin(entries, sep);
    SplitOfJoin(entries, ',');
  }

  lemma {:induction false} CommasJoin(entries: seq<string>, sep: char)
    requires entries != [] && (sep == ',' || sep == '\n')
    requires forall i :: 0 <= i < |entries| ==> '\n' !in entries[i]
    ensures CommaForNewline(Join(entries, sep)) == Join(entries, ',')
  {
    var last := entries[|entries| - 1];
    CommasFixed(last);
    if |entries| > 1 {
      var init := entries[..|entries| - 1];
      CommasJoin(init, sep);
      assert CommaForNewline(Join(init, sep) + [sep] + last)
             == CommaForNewline(Join(init, sep)) + [','] + CommaForNewline(last);
    }
  }

  lemma CommasFixed(s: string)
    requires '\n' !in s
    ensures CommaForNewline(s) == s
  {
  }

  /**
   No allowlist is an empty one; what is neither text nor a list is none; a list may hold
   domains and blanks alone.
   */
  lemma AllowlistAccepted(raw: RawDomains)
    ensures raw == Absent ==> Domains(raw) == Ok([])
    ensures raw == WrongType ==> Domains(raw).Err?
    ensures raw.Listed? ==>
              (Domains(raw).Ok? <==>
                 forall i :: 0 <= i < |raw.parts| ==>
                   raw.parts[i].Word? && (Clean(raw.parts[i].s) == "" || HasDomainShape(Clean(raw.parts[i].s))))
  {
    if raw.Listed? {
      CollectOk(EntriesOf(raw.parts));
      assert forall i :: 0 <= i < |raw.parts| ==> EntriesOf(raw.parts)[i] == Entry(raw.parts[i]);
    }
  }

  /** An entry of blanks stands for nothing, and is passed over. */
  lemma BlankEntry(s: string)
    requires AllOf(s, IsSpace)
    ensures Entry(Word(s)) == Ok("")
  {
    assert s == s + "" + "";
    TrimOf(s, "", "", IsSpace);
  }

  /** A name of a domain: letters, digits and hyphens. */
  predicate NameLike(s: string) {
    s != "" && forall i :: 0 <= i < |s| ==> ('a' <= s[i] <= 'z' || '0' <= s[i] <= '9' || s[i] == '-')
  }

  predicate NamesLike(names: seq<string>) {
    |names| >= 2 && names[0] != "" && names[0][0] != '-' && forall i :: 0 <= i < |names| ==> NameLike(names[i])
  }

  lemma NameLikeExactly(s: string)
    ensures IsName(s) <==> NameLike(s)
  {
    assert (forall c :: c in s ==> IsNameChar(c)) <==> (forall i :: 0 <= i < |s| ==> IsNameChar(s[i]));
  }

  lemma {:induction false} JoinBegins(names: seq<string>)
    requires |names| > 0 && names[0] != ""
    ensures Join(names, '.') != "" && Join(names, '.')[0] == names[0][0]
  {
    if |names| > 1 {
      JoinBegins(names[..|names| - 1]);
    }
  }

  /**
   A text without a line end has the shape of a domain exactly if it is two or more such
   names joined by dots, the first without a hyphen in front.
   */
  lemma ShapeExactly(text: string)
    requires '\n' !in text
    ensures HasDomainShape(text) <==> exists names :: NamesLike(names) && text == Join(names, '.')
  {
    assert Body(text) == text by {
      if text != "" { assert text[|text| - 1] in text; }
    }
    var parts := SplitOn(text, '.');
    if HasDomainShape(text) {
      JoinOfSplit(text, '.');
      SplitFirst(text, '.');
      forall i | 0 <= i < |parts| ensures NameLike(parts[i]) {
        assert parts[i] in parts;
        NameLikeExactly(parts[i]);
      }
      assert NamesLike(parts);
    }
    if names :| NamesLike(names) && text == Join(names, '.') {
      JoinBegins(names);
      forall i | 0 <= i < |names| ensures IsName(names[i]) && '.' !in names[i] {
        assert NameLike(names[i]);
        NameLikeExactly(names[i]);
      }
      SplitOfJoin(names, '.');
    }
  }

  // ------------------------------------------------------------------------
  // Which domains a stored allowlist lets in
  // ------------------------------------------------------------------------

  /** Some entry stands for the domain, an overlooked line end aside. */
  predicate Names(raw: RawDomains, d: string) {
    PartsOf(raw).Ok? && exists i :: 0 <= i < |PartsOf(raw).value| && StandsFor(PartsOf(raw).value[i], d)
  }

  predicate StandsFor(p: Part, d: string) {
    p.Word? && Clean(p.s) != "" && Body(Clean(p.s)) == d
  }

  /** Read again, an accepted allowlist holds exactly the domains its entries stand for. */
  lemma RereadExactly(raw: RawDomains, d: string)
    requires Domains(raw).Ok?
    ensures d in Reread(Domains(raw).value) <==> Names(raw, d)
  {
    RereadHolds(PartsOf(raw).value, d);
    if d in Reread(Domains(raw).value) {
      RereadIsNamed(raw, d);
    }
    if Names(raw, d) {
      NamedIsReread(raw, d);
    }
  }

  lemma RereadIsNamed(raw: RawDomains, d: string)
    requires Domains(raw).Ok? && exists j :: 0 <= j < |Domains(raw).value| && Body(Domains(raw).value[j]) == d
    ensures Names(raw, d)
  {
    var parts, ds := PartsOf(raw).value, Domains(raw).value;
    var j :| 0 <= j < |ds| && Body(ds[j]) == d;
    CollectHolds(EntriesOf(parts), ds[j]);
    var i :| 0 <= i < |parts| && EntriesOf(parts)[i] == Ok(ds[j]);
    assert StandsFor(parts[i], d);
  }

  lemma NamedIsReread(raw: RawDomains, d: string)
    requires Domains(raw).Ok? && Names(raw, d)
    ensures exists j :: 0 <= j < |Domains(raw).value| && Body(Domains(raw).value[j]) == d
  {
    var parts, ds := PartsOf(raw).value, Domains(raw).value;
    var i :| 0 <= i < |parts| && StandsFor(parts[i], d);
    CollectOk(EntriesOf(parts));
    assert EntriesOf(parts)[i].Ok?;
    assert EntriesOf(parts)[i] == Ok(Clean(parts[i].s));
    CollectHolds(EntriesOf(parts), Clean(parts[i].s));
    var j :| 0 <= j < |ds| && ds[j] == Clean(parts[i].s);
    assert Body(ds[j]) == d;
  }

  lemma RereadHolds(parts: seq<Part>, d: string)
    requires Collected(parts).Ok?
    ensures var ds := Collected(parts).value;
            d in Reread(ds) <==> exists j :: 0 <= j < |ds| && Body(ds[j]) == d
  {
    var ds := Collected(parts).value;
    forall j | 0 <= j < |ds| ensures HasDomainShape(ds[j]) && Body(ds[j]) != "" {
      CollectedShape(parts, ds[j]);
      ShapeBody(ds[j]);
    }
    EntriesAgain(ds);
    CollectOk(Bodies(ds));
    CollectHolds(Bodies(ds), d);
    if Ok(d) in Bodies(ds) {
      var j :| 0 <= j < |Bodies(ds)| && Bodies(ds)[j] == Ok(d);
      assert Body(ds[j]) == d;
    }
    if j :| 0 <= j < |ds| && Body(ds[j]) == d {
      assert Bodies(ds)[j] == Ok(d);
    }
  }
}
