/** Normalisation of user-entered custom domains and of request hosts. */
module Hostnames {
  import opened Prelude
  import opened Text

  datatype DomainError = NotADomain

  predicate IsDigit(c: char) {
    '0' <= c <= '9'
  }

  predicate IsLetter(c: char) {
    'a' <= c <= 'z'
  }

  predicate IsLabelChar(c: char) {
    IsLetter(c) || IsDigit(c) || c == '-'
  }

  /** One hostname label; the pattern's end also matches just before a final newline. */
  predicate IsLabel(name: string) {
    var body := if name != "" && name[|name| - 1] == '\n' then name[..|name| - 1] else name;
    && 1 <= |body| <= 63
    && (forall c :: c in body ==> IsLabelChar(c))
    && body[0] != '-' && body[|body| - 1] != '-'
  }

  /** Four dotted runs of one to three digits. */
  predicate LooksLikeIPv4(s: string) {
    var body := if s != "" && s[|s| - 1] == '\n' then s[..|s| - 1] else s;
    var parts := SplitOn(body, '.');
    |parts| == 4 && forall p :: p in parts ==> 1 <= |p| <= 3 && forall c :: c in p ==> IsDigit(c)
  }

  predicate IsTopLevel(name: string) {
    |name| >= 2 && forall c :: c in name ==> IsLetter(c)
  }

  function DropScheme(s: string): string {
    if "https://" <= s then s[8..] else if "http://" <= s then s[7..] else s
  }

  predicate EndsHost(c: char) {
    c == '/' || c == '?' || c == '#'
  }

  /** What is left of pasted text once case, scheme, path, credentials and a root dot are removed. */
  function BareHost(raw: string): string {
    DropRight(AfterLast(Before(DropScheme(Lower(Strip(raw))), EndsHost), '@'), IsDot)
  }

  /** A host that qualifies as a custom domain: at least three labels under an alphabetic top level. */
  predicate IsCustomDomain(text: string) {
    && text != "" && ' ' !in text && '\t' !in text && ':' !in text && !LooksLikeIPv4(text)
    && (forall name :: name in SplitOn(text, '.') ==> IsLabel(name))
    && IsTopLevel(SplitOn(text, '.')[|SplitOn(text, '.')| - 1])
    && |SplitOn(text, '.')| >= 3
    && |text| <= 253
  }

  function Normalise(raw: string): Result<string, DomainError> {
    var text := BareHost(raw);
    if IsCustomDomain(text) then Ok(text) else Err(NotADomain)
  }

  // ------------------------------------------------------------------------
  // Normalisation is idempotent
  // ------------------------------------------------------------------------

  /** The characters a custom domain can hold. */
  predicate IsHostChar(c: char) {
    IsLabelChar(c) || c == '.' || c == '\n'
  }

  lemma CustomDomainChars(text: string, i: nat)
    requires IsCustomDomain(text) && i < |text|
    ensures IsHostChar(text[i])
  {
    SplitChars(text, '.', i);
    if text[i] != '.' {
      var part :| part in SplitOn(text, '.') && text[i] in part;
      var body := if part[|part| - 1] == '\n' then part[..|part| - 1] else part;
      assert IsLabel(part);
      assert text[i] in body || text[i] == '\n';
    }
  }

  /** A custom domain starts and ends with a letter or digit. */
  lemma CustomDomainEnds(text: string)
    requires IsCustomDomain(text)
    ensures text != "" && IsLabelChar(text[0]) && IsLetter(text[|text| - 1])
  {
    var parts := SplitOn(text, '.');
    SplitFirst(text, '.');
    assert parts[0] in parts && IsLabel(parts[0]);
    SplitLast(text, '.');
    var tld := parts[|parts| - 1];
    assert tld[|tld| - 1] in tld;
    CustomDomainChars(text, 0);
  }

  lemma NoSchemeWithoutColon(s: string)
    requires ':' !in s
    ensures DropScheme(s) == s
  {
    assert "https://"[5] == ':' && "http://"[4] == ':';
    assert |s| > 5 ==> s[5] != ':';
    assert |s| > 4 ==> s[4] != ':';
  }

  /** Text made of host characters, with a letter or digit at each end, has nothing to remove. */
  lemma BareHostFixed(text: string)
    requires text != "" && IsLabelChar(text[0]) && IsLetter(text[|text| - 1])
    requires forall c :: c in text ==> IsHostChar(c)
    ensures BareHost(text) == text
  {
    assert Strip(text) == text by { TrimFixed(text, IsSpace); }
    assert Lower(text) == text by { LowerFixed(text); }
    assert DropScheme(text) == text by { NoSchemeWithoutColon(text); }
    assert Before(text, EndsHost) == text by { BeforeFixed(text, EndsHost); }
    assert AfterLast(text, '@') == text by { AfterLastFixed(text, '@'); }
  }

  /** A custom domain is left as it is. */
  lemma CustomDomainFixed(text: string)
    requires IsCustomDomain(text)
    ensures BareHost(text) == text
  {
    CustomDomainEnds(text);
    forall c | c in text ensures IsHostChar(c) {
      var i :| 0 <= i < |text| && text[i] == c;
      CustomDomainChars(text, i);
    }
    BareHostFixed(text);
  }

  /** Normalising a normalised domain changes nothing. */
  lemma NormaliseIdempotent(raw: string)
    requires Normalise(raw).Ok?
    ensures Normalise(Normalise(raw).value) == Normalise(raw)
  {
    CustomDomainFixed(BareHost(raw));
  }

  // ------------------------------------------------------------------------
  // Request hosts
  // ------------------------------------------------------------------------

  function CountChar(s: string, c: char): nat {
    if s == "" then 0 else CountChar(s[..|s| - 1], c) + if s[|s| - 1] == c then 1 else 0
  }

  predicate IsColon(c: char) {
    c == ':'
  }

  /** A host in lower case without its port; more than one colon is left alone. */
  function WithoutPort(host: string): string {
    var candidate := Lower(Strip(host));
    if CountChar(candidate, ':') == 1 then Before(candidate, IsColon) else candidate
  }

  /** The deployment's own host, up to a root dot. */
  predicate RecognisedHost(host: string, base: string) {
    Strip(host) != "" && DropRight(WithoutPort(host), IsDot) == base
  }

  /** The host is exactly the domain a room recorded. */
  predicate HostMatches(host: string, domain: string) {
    Normalise(domain) == Ok(WithoutPort(host))
  }

  /** The custom domain a host names, if it names one. */
  function HostDomain(host: string): Result<string, DomainError> {
    Normalise(if CountChar(host, ':') == 1 then Before(Lower(Strip(host)), IsColon) else host)
  }

  lemma {:induction false} NoneToCount(s: string, c: char)
    requires c !in s
    ensures CountChar(s, c) == 0
  {
    if s != "" {
      assert forall x :: x in s[1..] ==> x in s;
      assert forall x :: x in s[..|s| - 1] ==> x in s;
      NoneToCount(s[1..], c);
      NoneToCount(s[..|s| - 1], c);
    }
  }

  lemma NormalHasNoColon(d: string)
    requires Normalise(d) == Ok(d)
    ensures CountChar(d, ':') == 0
  {
    forall i | 0 <= i < |d| ensures d[i] != ':' {
      CustomDomainChars(d, i);
    }
    NoneToCount(d, ':');
  }
}
