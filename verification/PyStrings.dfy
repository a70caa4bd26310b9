/**
 The Python string operations the modelled code uses: str.split, str.join, str.replace, str.strip, str(int), int(str).
 */
module PyStrings {
  import opened Sequences

  /** Whether sub occurs in s, as Python's "in" tests it. */
  predicate Contains(s: string, sub: string) {
    sub <= s || (s != "" && Contains(s[1..], sub))
  }

  /** A string is contained when it is a stretch of the other. */
  lemma {:induction false} ContainsMeans(s: string, sub: string)
    ensures Contains(s, sub) <==> exists i, j :: 0 <= i <= j <= |s| && s[i..j] == sub
  {
    if sub <= s {
      assert s[0..|sub|] == sub;
    } else if s != "" {
      ContainsMeans(s[1..], sub);
      if i, j :| 0 <= i <= j <= |s| && s[i..j] == sub {
        assert i > 0;
        assert s[1..][i - 1..j - 1] == sub;
      }
      if i, j :| 0 <= i <= j <= |s[1..]| && s[1..][i..j] == sub {
        assert s[i + 1..j + 1] == sub;
      }
    }
  }

  /** s.split(sep): cuts at the leftmost non-overlapping occurrences. */
  function Split(s: string, sep: string): (parts: seq<string>)
    requires sep != ""
    ensures parts != []
  {
    if s == "" then [""]
    else if sep <= s then [""] + Split(s[|sep|..], sep)
    else var rest := Split(s[1..], sep); [[s[0]] + rest[0]] + rest[1..]
  }

  /** sep.join(parts). */
  function Join(parts: seq<string>, sep: string): string {
    if parts == [] then "" else if |parts| == 1 then parts[0] else parts[0] + sep + Join(parts[1..], sep)
  }

  lemma {:induction false} JoinSplit(s: string, sep: string)
    requires sep != ""
    ensures Join(Split(s, sep), sep) == s
  {
    if s == "" {
    } else if sep <= s {
      hide Join;
      JoinSplit(s[|sep|..], sep);
      JoinBlank(Split(s[|sep|..], sep), sep);
      assert s == sep + s[|sep|..];
    } else {
      hide Join;
      JoinSplit(s[1..], sep);
      JoinLonger(s[0], Split(s[1..], sep), sep);
      assert s == [s[0]] + s[1..];
    }
  }

  lemma JoinBlank(parts: seq<string>, sep: string)
    requires parts != []
    ensures Join([""] + parts, sep) == sep + Join(parts, sep)
  {
    assert ([""] + parts)[1..] == parts && "" + sep == sep;
  }

  lemma JoinLonger(c: char, parts: seq<string>, sep: string)
    requires parts != []
    ensures Join([[c] + parts[0]] + parts[1..], sep) == [c] + Join(parts, sep)
  {
    var longer := [[c] + parts[0]] + parts[1..];
    assert longer[1..] == parts[1..];
    if |parts| > 1 {
      assert [c] + parts[0] + sep + Join(parts[1..], sep) == [c] + (parts[0] + sep + Join(parts[1..], sep));
    }
  }

  /** The first separator after a piece that holds no separator character ends that piece. */
  lemma {:induction false} SplitPrefix(a: string, s: string, sep: string)
    requires sep != "" && sep[0] !in a
    ensures Split(a + sep + s, sep) == [a] + Split(s, sep)
  {
    var whole, rest := a + sep + s, Split(s, sep);
    if a == "" {
      assert whole == sep + s;
      SplitAt(s, sep);
    } else {
      hide Split;
      var next := a[1..] + sep + s;
      assert whole == [a[0]] + next && a[0] in a;
      SplitAfter(a[0], next, sep);
      SplitPrefix(a[1..], s, sep);
      assert ([a[1..]] + rest)[1..] == rest && [a[0]] + a[1..] == a;
    }
  }

  lemma SplitAt(s: string, sep: string)
    requires sep != ""
    ensures Split(sep + s, sep) == [""] + Split(s, sep)
  {
    assert (sep + s)[|sep|..] == s;
  }

  lemma SplitAfter(c: char, s: string, sep: string)
    requires sep != "" && c != sep[0]
    ensures Split([c] + s, sep) == [[c] + Split(s, sep)[0]] + Split(s, sep)[1..]
  {
    assert ([c] + s)[1..] == s;
  }

  lemma {:induction false} SplitNoSeparator(s: string, sep: string)
    requires sep != "" && sep[0] !in s
    ensures Split(s, sep) == [s]
  {
    if s != "" {
      assert s[0] in s;
      SplitNoSeparator(s[1..], sep);
      assert s == [s[0]] + s[1..];
    }
  }

  /** s.replace(old, ""): the leftmost non-overlapping occurrences are taken out. */
  function RemoveAll(s: string, old_: string): string
    requires old_ != ""
  {
    if s == "" then ""
    else if old_ <= s then RemoveAll(s[|old_|..], old_)
    else [s[0]] + RemoveAll(s[1..], old_)
  }

  lemma {:induction false} RemoveAllAbsent(s: string, sub: string)
    requires sub != "" && !Contains(s, sub)
    ensures RemoveAll(s, sub) == s
  {
    if s != "" {
      RemoveAllAbsent(s[1..], sub);
      assert s == [s[0]] + s[1..];
    }
  }

  lemma {:induction false} RemoveAllShrinks(s: string, sub: string)
    requires sub != ""
    ensures |RemoveAll(s, sub)| <= |s|
    ensures Contains(s, sub) ==> |RemoveAll(s, sub)| < |s|
  {
    if s != "" {
      RemoveAllShrinks(if sub <= s then s[|sub|..] else s[1..], sub);
    }
  }

  /** str(n) for n >= 0. */
  function Decimal(n: nat): (s: string)
    ensures s != "" && forall c :: c in s ==> '0' <= c <= '9'
  {
    var digit := ['0' + (n % 10) as char];
    if n < 10 then digit else Decimal(n / 10) + digit
  }

  /** int(s) for a string of digits; None where Python raises ValueError. */
  function ParseDecimal(s: string): Option<nat> {
    if s == "" then None
    else
      var last := s[|s| - 1];
      if !('0' <= last <= '9') then None
      else if |s| == 1 then Some((last - '0') as nat)
      else match ParseDecimal(s[..|s| - 1])
        case None => None
        case Some(n) => Some(10 * n + (last - '0') as nat)
  }

  lemma {:induction false} ParsePrinted(n: nat)
    ensures ParseDecimal(Decimal(n)) == Some(n)
  {
    var s := Decimal(n);
    if n >= 10 {
      ParsePrinted(n / 10);
      assert s[..|s| - 1] == Decimal(n / 10);
    }
  }

  /** str.isspace for one character. */
  predicate IsSpace(c: char) {
    var u := c as int;
    9 <= u <= 13 || 28 <= u <= 32 || u == 0x85 || u == 0xa0 || u == 0x1680 || 0x2000 <= u <= 0x200a ||
    u == 0x2028 || u == 0x2029 || u == 0x202f || u == 0x205f || u == 0x3000
  }

  /** The characters that count as white space. */
  lemma SpacesAre(c: char)
    ensures IsSpace(c) <==>
      || c in "\t\n\U{b}\U{c}\r\U{1c}\U{1d}\U{1e}\U{1f} \U{85}\U{a0}\U{1680}"
      || c in "\U{2000}\U{2001}\U{2002}\U{2003}\U{2004}\U{2005}\U{2006}\U{2007}\U{2008}\U{2009}\U{200a}"
      || c in "\U{2028}\U{2029}\U{202f}\U{205f}\U{3000}"
  {
  }

  function LStrip(s: string): (r: string)
    ensures r == "" || !IsSpace(r[0])
  {
    if s != "" && IsSpace(s[0]) then LStrip(s[1..]) else s
  }

  function RStrip(s: string): (r: string)
    ensures r == "" || !IsSpace(r[|r| - 1])
    ensures r <= s
  {
    if s != "" && IsSpace(s[|s| - 1]) then RStrip(s[..|s| - 1]) else s
  }

  /** s.strip() */
  function Strip(s: string): string {
    RStrip(LStrip(s))
  }

  ghost predicate AllSpace(s: string) {
    forall c :: c in s ==> IsSpace(c)
  }

  /** Neither end is white space. */
  predicate Tight(s: string) {
    s == "" || (!IsSpace(s[0]) && !IsSpace(s[|s| - 1]))
  }

  lemma {:induction false} LStripParts(s: string) returns (a: string)
    ensures AllSpace(a) && s == a + LStrip(s)
  {
    if s != "" && IsSpace(s[0]) {
      a := LStripParts(s[1..]);
      a := [s[0]] + a;
    } else {
      a := "";
    }
  }

  lemma {:induction false} RStripParts(s: string) returns (b: string)
    ensures AllSpace(b) && s == RStrip(s) + b
  {
    if s != "" && IsSpace(s[|s| - 1]) {
      b := RStripParts(s[..|s| - 1]);
      b := b + [s[|s| - 1]];
    } else {
      b := "";
    }
  }

  /** What strip takes away is white space, and what it leaves has none at its ends. */
  lemma StripParts(s: string) returns (a: string, b: string)
    ensures AllSpace(a) && AllSpace(b) && s == a + Strip(s) + b && Tight(Strip(s))
  {
    a := LStripParts(s);
    b := RStripParts(LStrip(s));
    assert Strip(s) != "" ==> Strip(s)[0] == LStrip(s)[0];
  }

  lemma {:induction false} LStripIs(a: string, m: string)
    requires AllSpace(a) && (m == "" || !IsSpace(m[0]))
    ensures LStrip(a + m) == m
  {
    if a == "" {
      assert a + m == m;
    } else {
      assert a[0] in a && (a + m)[1..] == a[1..] + m;
      LStripIs(a[1..], m);
    }
  }

  lemma {:induction false} RStripIs(m: string, b: string)
    requires AllSpace(b) && (m == "" || !IsSpace(m[|m| - 1]))
    ensures RStrip(m + b) == m
  {
    if b == "" {
      assert m + b == m;
    } else {
      assert b[|b| - 1] in b && (m + b)[..|m + b| - 1] == m + b[..|b| - 1];
      RStripIs(m, b[..|b| - 1]);
    }
  }

  /** There is no other way to trim. */
  lemma StripIs(a: string, m: string, b: string)
    requires AllSpace(a) && AllSpace(b) && m != "" && Tight(m)
    ensures Strip(a + m + b) == m
  {
    assert a + m + b == a + (m + b) && (m + b)[0] == m[0];
    LStripIs(a, m + b);
    RStripIs(m, b);
  }

  lemma StripIdempotent(s: string)
    ensures Strip(Strip(s)) == Strip(s)
  {
    var r := Strip(s);
    if r != "" {
      assert r[0] == LStrip(s)[0];
    }
  }
}
