/** What the string operations mean, in terms of the characters of the text. */
module TextLaws {
  import opened Text

  predicate AllOf(s: string, p: char -> bool) {
    forall i :: 0 <= i < |s| ==> p(s[i])
  }

  lemma {:induction false} DropLeftOf(a: string, t: string, p: char -> bool)
    requires AllOf(a, p) && (t != "" ==> !p(t[0]))
    ensures DropLeft(a + t, p) == t
  {
    if a != "" {
      assert (a + t)[1..] == a[1..] + t;
      DropLeftOf(a[1..], t, p);
    } else {
      assert a + t == t;
    }
  }

  lemma {:induction false} DropRightOf(t: string, b: string, p: char -> bool)
    requires AllOf(b, p) && (t != "" ==> !p(t[|t| - 1]))
    ensures DropRight(t + b, p) == t
  {
    if b != "" {
      assert (t + b)[..|t + b| - 1] == t + b[..|b| - 1];
      DropRightOf(t, b[..|b| - 1], p);
    } else {
      assert t + b == t;
    }
  }

  /** Trimming takes away what is to go at both ends and nothing else. */
  lemma TrimOf(a: string, t: string, b: string, p: char -> bool)
    requires AllOf(a, p) && AllOf(b, p) && Trimmed(t, p)
    ensures Trim(a + t + b, p) == t
  {
    assert a + t + b == a + (t + b);
    if t == "" {
      assert AllOf(a + b, p) && a + (t + b) == a + b + "";
      DropLeftOf(a + b, "", p);
    } else {
      DropLeftOf(a, t + b, p);
      DropRightOf(t, b, p);
    }
  }

  /** Spaces, tabs and line ends are blank; what hosts, addresses and domains are made of is not. */
  lemma BlankCharacters(c: char)
    ensures c in " \t\n\r" ==> IsSpace(c)
    ensures 'a' <= c <= 'z' || 'A' <= c <= 'Z' || '0' <= c <= '9' || c in "-.@:/?#_,+" ==> !IsSpace(c)
  {
  }

  /** Lower-casing turns the letters A to Z into a to z, in place, and nothing else. */
  lemma LowerExactly(s: string, i: nat)
    requires i < |s|
    ensures |Lower(s)| == |s|
    ensures 'A' <= s[i] <= 'Z' ==> Lower(s)[i] as int == s[i] as int + 32
    ensures !('A' <= s[i] <= 'Z') ==> Lower(s)[i] == s[i]
  {
  }

  lemma LowerConcat(a: string, b: string)
    ensures Lower(a + b) == Lower(a) + Lower(b)
  {
  }

  lemma LowerTwice(s: string)
    ensures Lower(Lower(s)) == Lower(s)
  {
  }

  /** Lower-casing leaves blanks blank and everything else not. */
  lemma LowerTrimmed(s: string)
    requires Trimmed(s, IsSpace)
    ensures Trimmed(Lower(s), IsSpace)
  {
  }

  lemma {:induction false} BeforeOf(a: string, b: string, p: char -> bool)
    requires forall i :: 0 <= i < |a| ==> !p(a[i])
    requires b != "" ==> p(b[0])
    ensures Before(a + b, p) == a
  {
    if a != "" {
      assert (a + b)[1..] == a[1..] + b;
      BeforeOf(a[1..], b, p);
      assert a == [a[0]] + a[1..];
    } else {
      assert a + b == b;
    }
  }

  lemma {:induction false} AfterLastOf(a: string, b: string, sep: char)
    requires sep !in b && (a != "" ==> a[|a| - 1] == sep)
    ensures AfterLast(a + b, sep) == b
  {
    if b != "" {
      var init, c := b[..|b| - 1], b[|b| - 1];
      assert b == init + [c];
      assert (a + b)[..|a + b| - 1] == a + init;
      AfterLastOf(a, init, sep);
    } else {
      assert a + b == a;
    }
  }

  // ------------------------------------------------------------------------
  // Splitting and joining
  // ------------------------------------------------------------------------

  /** The parts with the separator between them. */
  function Join(parts: seq<string>, sep: char): string
    requires |parts| > 0
  {
    if |parts| == 1 then parts[0] else Join(parts[..|parts| - 1], sep) + [sep] + parts[|parts| - 1]
  }

  lemma {:induction false} SplitWhole(s: string, sep: char)
    requires sep !in s
    ensures SplitOn(s, sep) == [s]
  {
    if s != "" {
      assert s == s[..|s| - 1] + [s[|s| - 1]];
      SplitWhole(s[..|s| - 1], sep);
    }
  }

  /** One more part after one more separator. */
  lemma {:induction false} SplitMore(a: string, sep: char, b: string)
    requires sep !in b
    ensures SplitOn(a + [sep] + b, sep) == SplitOn(a, sep) + [b]
  {
    var s := a + [sep] + b;
    if b == "" {
      assert s[..|s| - 1] == a;
    } else {
      var init, c := b[..|b| - 1], b[|b| - 1];
      assert b == init + [c];
      SplitMore(a, sep, init);
      assert s[..|s| - 1] == a + [sep] + init;
    }
  }

  lemma SplitPair(a: string, sep: char, b: string)
    requires sep !in a && sep !in b
    ensures SplitOn(a + [sep] + b, sep) == [a, b]
  {
    SplitWhole(a, sep);
    SplitMore(a, sep, b);
  }

  /** Splitting what was joined gives the parts back. */
  lemma {:induction false} SplitOfJoin(parts: seq<string>, sep: char)
    requires |parts| > 0 && forall i :: 0 <= i < |parts| ==> sep !in parts[i]
    ensures SplitOn(Join(parts, sep), sep) == parts
  {
    if |parts| == 1 {
      SplitWhole(parts[0], sep);
    } else {
      var init := parts[..|parts| - 1];
      SplitOfJoin(init, sep);
      SplitMore(Join(init, sep), sep, parts[|parts| - 1]);
    }
  }

  /** Joining what was split gives the text back, and no part holds the separator. */
  lemma {:induction false} JoinOfSplit(s: string, sep: char)
    ensures Join(SplitOn(s, sep), sep) == s
    ensures forall i :: 0 <= i < |SplitOn(s, sep)| ==> sep !in SplitOn(s, sep)[i]
  {
    if s != "" {
      var init, last, parts := s[..|s| - 1], s[|s| - 1], SplitOn(s[..|s| - 1], sep);
      JoinOfSplit(init, sep);
      assert s == init + [last];
      if last == sep {
        assert SplitOn(s, sep)[..|parts|] == parts;
      } else {
        var more := SplitOn(s, sep);
        assert more[..|more| - 1] == parts[..|parts| - 1];
        if |parts| > 1 {
          assert Join(parts[..|parts| - 1], sep) + [sep] + (parts[|parts| - 1] + [last])
                 == Join(parts[..|parts| - 1], sep) + [sep] + parts[|parts| - 1] + [last];
        }
      }
    }
  }

  /** Two parts are what stands on either side of the one separator. */
  lemma SplitTwo(s: string, sep: char)
    ensures |SplitOn(s, sep)| == 1 ==> SplitOn(s, sep) == [s] && sep !in s
    ensures |SplitOn(s, sep)| == 2 ==>
              var parts := SplitOn(s, sep);
              s == parts[0] + [sep] + parts[1] && sep !in parts[0] && sep !in parts[1]
  {
    JoinOfSplit(s, sep);
    var parts := SplitOn(s, sep);
    if |parts| == 2 {
      assert parts[..1] == [parts[0]];
    }
  }
}
