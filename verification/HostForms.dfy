/** The forms in which people and requests write a host, and what each is taken for. */
module HostForms {
  import opened Domains
  import opened Hostnames
  import opened Prelude
  import opened Text
  import opened TextLaws

  // ------------------------------------------------------------------------
  // Request hosts
  // ------------------------------------------------------------------------

  /** A host as a request may carry it: without a port, or with one. */
  function HostText(a: string, h: string, port: Option<string>, b: string): string {
    a + (if port.None? then h else h + ":" + port.value) + b
  }

  /** `written` is host `h` in any letter case, with blanks around it and perhaps a port after it. */
  ghost predicate Writes(a: string, written: string, port: Option<string>, b: string, h: string) {
    && h != "" && ':' !in h && Trimmed(h, IsSpace) && Lower(written) == Lower(h)
    && AllOf(a, IsSpace) && AllOf(b, IsSpace)
    && (port.Some? ==> ':' !in port.value && Trimmed(written + ":" + port.value, IsSpace))
  }

  lemma {:induction false} CountConcat(a: string, b: string, c: char)
    ensures CountChar(a + b, c) == CountChar(a, c) + CountChar(b, c)
  {
    if b == "" {
      assert a + b == a;
    } else {
      CountConcat(a, b[..|b| - 1], c);
      assert (a + b)[..|a + b| - 1] == a + b[..|b| - 1];
    }
  }

  lemma CaseKeeps(written: string, h: string)
    requires Lower(written) == Lower(h)
    ensures |written| == |h|
    ensures ':' !in h ==> ':' !in written && ':' !in Lower(h)
    ensures Trimmed(h, IsSpace) ==> Trimmed(written, IsSpace)
  {
    assert |Lower(written)| == |written| && |Lower(h)| == |h|;
    forall i | 0 <= i < |h| ensures Lower(written)[i] == LowerChar(written[i]) == LowerChar(h[i]) {
    }
  }

  lemma BlanksHoldNoColon(a: string)
    requires AllOf(a, IsSpace)
    ensures CountChar(a, ':') == 0
  {
    BlankCharacters(':');
    NoneToCount(a, ':');
  }

  /** The text with its blanks off, and how many colons it has. */
  lemma HostTextParts(a: string, written: string, port: Option<string>, b: string, h: string)
    requires Writes(a, written, port, b, h)
    ensures var middle := if port.None? then written else written + ":" + port.value;
            && Strip(HostText(a, written, port, b)) == middle
            && CountChar(HostText(a, written, port, b), ':') == CountChar(Lower(middle), ':')
            && CountChar(Lower(middle), ':') == (if port.None? then 0 else 1)
            && Lower(middle) == (if port.None? then Lower(h) else Lower(h) + ":" + Lower(port.value))
  {
    var middle := if port.None? then written else written + ":" + port.value;
    CaseKeeps(written, h);
    TrimOf(a, middle, b, IsSpace);
    BlanksHoldNoColon(a);
    BlanksHoldNoColon(b);
    CountConcat(a + middle, b, ':');
    CountConcat(a, middle, ':');
    NoneToCount(written, ':');
    NoneToCount(Lower(h), ':');
    if port.Some? {
      PortCounts(written, port.value);
      PortCounts(Lower(h), Lower(port.value));
      LowerConcat(written, ":");
      LowerConcat(written + ":", port.value);
      assert Lower(":") == ":";
    }
  }

  lemma PortCounts(h: string, port: string)
    requires ':' !in h && ':' !in port
    ensures CountChar(h + ":" + port, ':') == 1
  {
    CountConcat(h + ":", port, ':');
    CountConcat(h, ":", ':');
    NoneToCount(h, ':');
    NoneToCount(port, ':');
    assert CountChar(":", ':') == 1 by { assert ":"[..0] == ""; }
  }

  lemma PortEnds(h: string, port: string)
    requires ':' !in h
    ensures Before(h + ":" + port, IsColon) == h
  {
    assert h + ":" + port == h + (":" + port);
    BeforeOf(h, ":" + port, IsColon);
  }

  /** The port, the blanks and the letter case go; the host stays. */
  lemma PortDropped(a: string, written: string, port: Option<string>, b: string, h: string)
    requires Writes(a, written, port, b, h)
    ensures WithoutPort(HostText(a, written, port, b)) == Lower(h) && Strip(HostText(a, written, port, b)) != ""
  {
    var host := HostText(a, written, port, b);
    var middle := if port.None? then written else written + ":" + port.value;
    assert Strip(host) == middle
           && Lower(middle) == (if port.None? then Lower(h) else Lower(h) + ":" + Lower(port.value))
           && CountChar(Lower(middle), ':') == (if port.None? then 0 else 1) by {
      HostTextParts(a, written, port, b, h);
    }
    assert |written| == |h| && ':' !in Lower(h) by { CaseKeeps(written, h); }
    if port.Some? {
      PortEnds(Lower(h), Lower(port.value));
    }
  }

  lemma BareHostOf(x: string, y: string)
    requires Lower(Strip(x)) == Lower(Strip(y))
    ensures Normalise(x) == Normalise(y)
  {
  }

  lemma HostDomainDropped(a: string, written: string, port: Option<string>, b: string, h: string)
    requires Writes(a, written, port, b, h)
    ensures HostDomain(HostText(a, written, port, b)) == Normalise(h)
  {
    HostTextParts(a, written, port, b, h);
    TrimFixed(h, IsSpace);
    if port.None? {
      BareHostOf(HostText(a, written, port, b), h);
    } else {
      CaseKeeps(h, h);
      PortEnds(Lower(h), Lower(port.value));
      LowerTrimmed(h);
      TrimFixed(Lower(h), IsSpace);
      LowerTwice(h);
      BareHostOf(Lower(h), h);
    }
  }

  /**
   A host is served, or not, the same in any letter case, with blanks around it, and
   with any port or none.
   */
  lemma ServedInAnyForm(rooms: Rooms, base: string, room: Room, a: string, written: string, port: Option<string>,
                        b: string,
                        h: string)
    requires Writes(a, written, port, b, h)
    ensures HostServed(rooms, base, room, HostText(a, written, port, b)) <==> HostServed(rooms, base, room, h)
  {
    assert HostText("", h, None, "") == h;
    PortDropped(a, written, port, b, h);
    PortDropped("", h, None, "", h);
    HostDomainDropped(a, written, port, b, h);
    HostDomainDropped("", h, None, "", h);
  }

  /** The deployment is always served under its own name, in any of those forms, whatever rooms there are. */
  lemma OwnNameServed(rooms: Rooms, base: string, room: Room, a: string, written: string, port: Option<string>,
                      b: string)
    requires Writes(a, written, port, b, base) && Lower(base) == base && base[|base| - 1] != '.'
    ensures HostServed(rooms, base, room, HostText(a, written, port, b))
    ensures RecognisedHost(base + ".", base)
  {
    PortDropped(a, written, port, b, base);
    DropRightOf(base, "", IsDot);
    assert base + "" == base;
    RootDot(base);
  }

  lemma RootDot(base: string)
    requires base != "" && ':' !in base && Trimmed(base, IsSpace) && Lower(base) == base && base[|base| - 1] != '.'
    ensures RecognisedHost(base + ".", base)
  {
    var dotted := base + ".";
    BlankCharacters('.');
    TrimFixed(dotted, IsSpace);
    LowerConcat(base, ".");
    assert Lower(".") == ".";
    NoneToCount(dotted, ':');
    DropRightOf(base, ".", IsDot);
  }

  /** Another name is not the deployment's. */
  lemma OtherNameNotOwn(base: string, a: string, written: string, port: Option<string>, b: string, h: string)
    requires Writes(a, written, port, b, h) && Lower(h) != base && h[|h| - 1] != '.'
    ensures !RecognisedHost(HostText(a, written, port, b), base)
  {
    PortDropped(a, written, port, b, h);
    assert Lower(h)[|h| - 1] == LowerChar(h[|h| - 1]) != '.';
    DropRightOf(Lower(h), "", IsDot);
    assert Lower(h) + "" == Lower(h);
  }

  /**
   A room is on its custom domain exactly if it is verified for it and the request names
   it, in any of those forms.
   */
  lemma OnCustomDomainExactly(room: Room, a: string, written: string, port: Option<string>, b: string, h: string)
    requires Writes(a, written, port, b, h) && room.domain.Some?
             && Normalise(room.domain.value) == Ok(room.domain.value)
    ensures OnCustomDomain(room, Some(HostText(a, written, port, b))) <==>
            room.status == Verified && Lower(h) == room.domain.value
  {
    PortDropped(a, written, port, b, h);
    assert Normalise("").Err?;
    TrimNothing(HostText(a, written, port, b));
  }

  lemma TrimNothing(s: string)
    requires Strip(s) != ""
    ensures s != ""
  {
  }

  // ------------------------------------------------------------------------
  // Entered domains
  // ------------------------------------------------------------------------

  /** A scheme people paste along. */
  predicate IsScheme(s: string) {
    Lower(s) in {"", "http://", "https://"}
  }

  predicate HoldsNoHostEnd(s: string) {
    forall i :: 0 <= i < |s| ==> s[i] != '/' && s[i] != '?' && s[i] != '#'
  }

  /** Credentials people paste along; only after a scheme can they hold what looks like one. */
  predicate IsCredentials(s: string, scheme: string) {
    s == "" || (s[|s| - 1] == '@' && HoldsNoHostEnd(s) && scheme != "")
  }

  predicate IsPath(s: string) {
    s == "" || s[0] == '/' || s[0] == '?' || s[0] == '#'
  }

  lemma SchemeDropped(scheme: string, rest: string)
    requires scheme in {"http://", "https://"}
    ensures DropScheme(scheme + rest) == rest
  {
    if scheme == "http://" {
      assert (scheme + rest)[4] == ':' && "https://"[4] == 's';
    }
  }

  lemma NoSchemeInDomain(d: string, rest: string)
    requires IsCustomDomain(d)
    ensures DropScheme(d + rest) == d + rest
  {
    LongEnough(d);
    assert ':' !in d;
    assert (d + rest)[4] == d[4] && "http://"[4] == ':' && "https://"[5] == ':' && "https://"[4] == 's';
    if |d| > 5 {
      assert (d + rest)[5] == d[5];
    }
  }

  /** Three labels, the last of two letters at least, and the dots between them. */
  lemma LongEnough(d: string)
    requires IsCustomDomain(d)
    ensures |d| >= 6
  {
    var parts := SplitOn(d, '.');
    var n := |parts|;
    JoinOfSplit(d, '.');
    forall i | 0 <= i < n ensures |parts[i]| >= 1 {
      assert parts[i] in parts && IsLabel(parts[i]);
    }
    JoinLength(parts);
  }

  lemma {:induction false} JoinLength(parts: seq<string>)
    requires |parts| > 0 && forall i :: 0 <= i < |parts| ==> |parts[i]| >= 1
    ensures |Join(parts, '.')| >= 2 * (|parts| - 1) + |parts[|parts| - 1]|
  {
    if |parts| > 1 {
      JoinLength(parts[..|parts| - 1]);
    }
  }

  /**
   A domain pasted in any letter case, as an address with scheme, credentials, root
   dots, path, query or fragment and with blanks around it, is that domain.
   */
  lemma PastedDomain(a: string, scheme: string, credentials: string, written: string, dots: string, path: string,
                     b: string,
                     d: string)
    requires IsCustomDomain(d) && Lower(written) == d
    requires IsScheme(scheme) && IsCredentials(credentials, scheme) && AllOf(dots, IsDot) && IsPath(path)
    requires AllOf(a, IsSpace) && AllOf(b, IsSpace)
    requires Trimmed(scheme + (credentials + written + dots + path), IsSpace)
    ensures Normalise(a + (scheme + (credentials + written + dots + path)) + b) == Ok(d)
  {
    TrimOf(a, scheme + (credentials + written + dots + path), b, IsSpace);
    LowerPasted(scheme, credentials, written, dots, path);
    LoweredPasted(Lower(scheme), Lower(credentials), d, dots, Lower(path));
  }

  lemma LowerPasted(scheme: string, credentials: string, written: string, dots: string, path: string)
    requires AllOf(dots, IsDot)
    ensures Lower(scheme + (credentials + written + dots + path))
            == Lower(scheme) + (Lower(credentials) + Lower(written) + dots + Lower(path))
  {
    LowerConcat(scheme, credentials + written + dots + path);
    LowerConcat(credentials + written + dots, path);
    LowerConcat(credentials + written, dots);
    LowerConcat(credentials, written);
    assert Lower(dots) == dots by { LowerFixed(dots); }
  }

  lemma LoweredPasted(scheme: string, credentials: string, d: string, dots: string, path: string)
    requires IsCustomDomain(d) && scheme in {"", "http://", "https://"} && IsCredentials(credentials, scheme)
    requires AllOf(dots, IsDot) && IsPath(path)
    ensures DropRight(AfterLast(Before(DropScheme(scheme + (credentials + d + dots + path)), EndsHost), '@'), IsDot)
            == d
  {
    PastedScheme(scheme, credentials, d, dots, path);
    PastedPath(credentials, d, dots, path);
    PastedCredentials(credentials, d, dots);
    CustomDomainEnds(d);
    DropRightOf(d, dots, IsDot);
  }

  lemma PastedScheme(scheme: string, credentials: string, d: string, dots: string, path: string)
    requires IsCustomDomain(d) && scheme in {"", "http://", "https://"} && (scheme == "" ==> credentials == "")
    ensures DropScheme(scheme + (credentials + d + dots + path)) == credentials + d + dots + path
  {
    var rest := credentials + d + dots + path;
    if scheme == "" {
      assert rest == d + (dots + path);
      assert scheme + rest == rest;
      NoSchemeInDomain(d, dots + path);
    } else {
      SchemeDropped(scheme, rest);
    }
  }

  lemma PastedPath(credentials: string, d: string, dots: string, path: string)
    requires IsCustomDomain(d) && HoldsNoHostEnd(credentials) && AllOf(dots, IsDot) && IsPath(path)
    ensures Before(credentials + d + dots + path, EndsHost) == credentials + d + dots
  {
    HostCharsOnly(d);
    BeforeOf(credentials + d + dots, path, EndsHost);
  }

  lemma PastedCredentials(credentials: string, d: string, dots: string)
    requires IsCustomDomain(d) && AllOf(dots, IsDot) && (credentials != "" ==> credentials[|credentials| - 1] == '@')
    ensures AfterLast(credentials + d + dots, '@') == d + dots
  {
    HostCharsOnly(d);
    assert credentials + d + dots == credentials + (d + dots);
    AfterLastOf(credentials, d + dots, '@');
  }

  lemma HostCharsOnly(d: string)
    requires IsCustomDomain(d)
    ensures forall i :: 0 <= i < |d| ==> IsHostChar(d[i])
  {
    forall i | 0 <= i < |d| ensures IsHostChar(d[i]) {
      CustomDomainChars(d, i);
    }
  }

  /** One to 63 letters, digits and hyphens, with no hyphen at either end. */
  predicate ProperLabel(s: string) {
    && 1 <= |s| <= 63 && s[0] != '-' && s[|s| - 1] != '-'
    && forall i :: 0 <= i < |s| ==> ('a' <= s[i] <= 'z' || '0' <= s[i] <= '9' || s[i] == '-')
  }

  predicate OnlyLetters(s: string) {
    forall i :: 0 <= i < |s| ==> 'a' <= s[i] <= 'z'
  }

  /** At least three proper labels, the last of two letters or more and no other characters. */
  predicate ProperLabels(labels: seq<string>) {
    && |labels| >= 3 && (forall i :: 0 <= i < |labels| ==> ProperLabel(labels[i]))
    && |labels[|labels| - 1]| >= 2 && OnlyLetters(labels[|labels| - 1])
  }

  lemma ProperIsLabel(s: string)
    requires '\n' !in s
    ensures IsLabel(s) <==> ProperLabel(s)
  {
    if s != "" {
      assert s[|s| - 1] in s;
    }
    assert (forall c :: c in s ==> IsLabelChar(c)) <==> (forall i :: 0 <= i < |s| ==> IsLabelChar(s[i]));
  }

  lemma {:induction false} JoinHolds(parts: seq<string>, c: char)
    requires |parts| > 0
    ensures c in Join(parts, '.') ==> c == '.' || exists i :: 0 <= i < |parts| && c in parts[i]
    ensures forall i :: 0 <= i < |parts| && c in parts[i] ==> c in Join(parts, '.')
  {
    if |parts| > 1 {
      JoinHolds(parts[..|parts| - 1], c);
    }
  }

  /** Under a top level of letters nothing looks like an address in numbers. */
  lemma LettersAreNoIPv4(text: string, parts: seq<string>)
    requires '\n' !in text && SplitOn(text, '.') == parts && IsTopLevel(parts[|parts| - 1])
    ensures !LooksLikeIPv4(text)
  {
    if text != "" {
      assert text[|text| - 1] in text;
    }
    var top := parts[|parts| - 1];
    assert top in parts && top[0] in top;
  }

  /**
   A text without a line end is a custom domain exactly if it is proper labels joined by
   dots, 253 characters at most.
   */
  lemma CustomDomainExactly(text: string)
    requires '\n' !in text
    ensures IsCustomDomain(text) <==>
            |text| <= 253 && exists labels :: ProperLabels(labels) && text == Join(labels, '.')
  {
    if IsCustomDomain(text) {
      var labels := SplitOn(text, '.');
      JoinOfSplit(text, '.');
      forall i | 0 <= i < |labels| ensures ProperLabel(labels[i]) {
        JoinHolds(labels, '\n');
        ProperIsLabel(labels[i]);
      }
      TopLevelLetters(labels[|labels| - 1]);
      assert ProperLabels(labels);
    }
    if labels :| |text| <= 253 && ProperLabels(labels) && text == Join(labels, '.') {
      JoinedIsCustom(labels);
    }
  }

  lemma TopLevelLetters(s: string)
    ensures IsTopLevel(s) <==> |s| >= 2 && OnlyLetters(s)
  {
    assert (forall c :: c in s ==> IsLetter(c)) <==> (forall i :: 0 <= i < |s| ==> IsLetter(s[i]));
  }

  lemma JoinedIsCustom(labels: seq<string>)
    requires ProperLabels(labels) && |Join(labels, '.')| <= 253
    ensures IsCustomDomain(Join(labels, '.'))
  {
    var text := Join(labels, '.');
    forall i | 0 <= i < |labels|
      ensures IsLabel(labels[i]) && '.' !in labels[i] && '\n' !in labels[i] && ' ' !in labels[i] && '\t' !in labels[i]
              && ':' !in labels[i]
    {
      assert ProperLabel(labels[i]);
      ProperIsLabel(labels[i]);
    }
    SplitOfJoin(labels, '.');
    JoinHolds(labels, '\n');
    JoinHolds(labels, ' ');
    JoinHolds(labels, '\t');
    JoinHolds(labels, ':');
    TopLevelLetters(labels[|labels| - 1]);
    LettersAreNoIPv4(text, labels);
    JoinLength(labels);
  }

  /** So proper labels joined by dots are accepted as they are. */
  lemma ProperDomainAccepted(labels: seq<string>)
    requires ProperLabels(labels) && |Join(labels, '.')| <= 253
    ensures Normalise(Join(labels, '.')) == Ok(Join(labels, '.'))
  {
    JoinedIsCustom(labels);
    CustomDomainFixed(Join(labels, '.'));
  }
}
