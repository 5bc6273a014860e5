/** The string operations the services lean on. Case folding is ASCII only. */
module Text {

  /** What `str.strip()` removes. */
  predicate IsSpace(c: char) {
    || '\t' <= c <= '\r' || '\U{1c}' <= c <= ' ' || c == '\U{85}' || c == '\U{a0}' || c == '\U{1680}'
    || '\U{2000}' <= c <= '\U{200a}' || c == '\U{2028}' || c == '\U{2029}' || c == '\U{202f}' || c == '\U{205f}'
    || c == '\U{3000}'
  }

  predicate IsDot(c: char) {
    c == '.'
  }

  function LowerChar(c: char): char {
    if 'A' <= c <= 'Z' then c - 'A' + 'a' else c
  }

  function Lower(s: string): string {
    seq(|s|, i requires 0 <= i < |s| => LowerChar(s[i]))
  }

  function DropLeft(s: string, p: char -> bool): string {
    if s != "" && p(s[0]) then DropLeft(s[1..], p) else s
  }

  function DropRight(s: string, p: char -> bool): string {
    if s != "" && p(s[|s| - 1]) then DropRight(s[..|s| - 1], p) else s
  }

  function Trim(s: string, p: char -> bool): string {
    DropRight(DropLeft(s, p), p)
  }

  function Strip(s: string): string {
    Trim(s, IsSpace)
  }

  /** The parts of a string between separators; always at least one. */
  function SplitOn(s: string, sep: char): (parts: seq<string>)
    ensures |parts| > 0
  {
    if s == "" then [""]
    else
      var parts := SplitOn(s[..|s| - 1], sep);
      var last := s[|s| - 1];
      if last == sep then parts + [""] else parts[..|parts| - 1] + [parts[|parts| - 1] + [last]]
  }

  /** Everything before the first separator. */
  function Before(s: string, p: char -> bool): string {
    if s == "" || p(s[0]) then "" else [s[0]] + Before(s[1..], p)
  }

  /** Everything after the last separator. */
  function AfterLast(s: string, sep: char): string {
    if s == "" || s[|s| - 1] == sep then "" else AfterLast(s[..|s| - 1], sep) + [s[|s| - 1]]
  }

  /** A text whose two ends are not to be removed. */
  predicate Trimmed(s: string, p: char -> bool) {
    s == "" || (!p(s[0]) && !p(s[|s| - 1]))
  }

  lemma TrimFixed(s: string, p: char -> bool)
    requires Trimmed(s, p)
    ensures Trim(s, p) == s
  {
  }

  lemma {:induction false} DropRightEnd(s: string, p: char -> bool)
    ensures DropRight(s, p) == "" || !p(DropRight(s, p)[|DropRight(s, p)| - 1])
    ensures DropRight(s, p) <= s
  {
    if s != "" && p(s[|s| - 1]) {
      DropRightEnd(s[..|s| - 1], p);
    }
  }

  lemma LowerFixed(s: string)
    requires forall c :: c in s ==> !('A' <= c <= 'Z')
    ensures Lower(s) == s
  {
    forall i | 0 <= i < |s| ensures Lower(s)[i] == s[i] {
      assert s[i] in s;
    }
  }

  lemma {:induction false} BeforeFixed(s: string, p: char -> bool)
    requires forall c :: c in s ==> !p(c)
    ensures Before(s, p) == s
  {
    if s != "" {
      BeforeFixed(s[1..], p);
    }
  }

  lemma {:induction false} AfterLastFixed(s: string, sep: char)
    requires sep !in s
    ensures AfterLast(s, sep) == s
  {
    if s != "" {
      assert s == s[..|s| - 1] + [s[|s| - 1]];
      AfterLastFixed(s[..|s| - 1], sep);
    }
  }

  /** Every character of a text is the separator or belongs to one of the parts. */
  lemma {:induction false} SplitChars(s: string, sep: char, i: nat)
    requires i < |s|
    ensures s[i] == sep || exists part :: part in SplitOn(s, sep) && s[i] in part
  {
    var init, parts := s[..|s| - 1], SplitOn(s[..|s| - 1], sep);
    var all := SplitOn(s, sep);
    if i < |s| - 1 {
      SplitChars(init, sep, i);
      if part :| part in parts && s[i] in part {
        var j :| 0 <= j < |parts| && parts[j] == part;
        assert s[i] in all[j];
      }
    } else if s[i] != sep {
      assert s[i] in all[|all| - 1];
    }
  }

  lemma SplitLast(s: string, sep: char)
    requires s != ""
    ensures var parts := SplitOn(s, sep); parts[|parts| - 1] == "" <==> s[|s| - 1] == sep
    ensures var parts := SplitOn(s, sep); s[|s| - 1] != sep ==>
            parts[|parts| - 1][|parts[|parts| - 1]| - 1] == s[|s| - 1]
  {
  }

  lemma {:induction false} SplitFirst(s: string, sep: char)
    ensures s != "" && s[0] != sep ==> SplitOn(s, sep)[0] != "" && SplitOn(s, sep)[0][0] == s[0]
    ensures s != "" && s[0] == sep ==> SplitOn(s, sep)[0] == ""
  {
    if |s| > 1 {
      SplitFirst(s[..|s| - 1], sep);
    } else if |s| == 1 {
      assert SplitOn("", sep) == [""];
      assert s[..0] == "";
    }
  }
}
