/** The string operations the source relies on: split and join on a character, and Python's strip and int(). */
module Texts {
  import opened Outcomes
  import opened Decimal

  // ---------------------------------------------------------------- split and join

  /** s.split(sep): one part more than there are separators. */
  function Split(s: string, sep: char): (r: seq<string>)
    ensures |r| >= 1
  {
    if s == [] then [[]]
    else
      var rest := Split(s[1..], sep);
      if s[0] == sep then [[]] + rest else [[s[0]] + rest[0]] + rest[1..]
  }

  function Join(parts: seq<string>, sep: char): string {
    if |parts| == 0 then []
    else if |parts| == 1 then parts[0]
    else parts[0] + [sep] + Join(parts[1..], sep)
  }

  lemma {:induction false} SplitPart(part: string, rest: string, sep: char)
    requires sep !in part
    ensures Split(part + [sep] + rest, sep) == [part] + Split(rest, sep)
  {
    var s := part + [sep] + rest;
    if part == [] {
      assert s[1..] == rest;
    } else {
      assert s[1..] == part[1..] + [sep] + rest;
      SplitPart(part[1..], rest, sep);
      assert [part[0]] + part[1..] == part;
    }
  }

  lemma {:induction false} SplitNone(part: string, sep: char)
    requires sep !in part
    ensures Split(part, sep) == [part]
  {
    if part != [] {
      SplitNone(part[1..], sep);
      assert [part[0]] + part[1..] == part;
    }
  }

  /** Joining parts free of the separator and splitting again gives the parts back. */
  lemma {:induction false} SplitJoin(parts: seq<string>, sep: char)
    requires parts != [] && forall i | 0 <= i < |parts| :: sep !in parts[i]
    ensures Split(Join(parts, sep), sep) == parts
  {
    if |parts| == 1 {
      SplitNone(parts[0], sep);
    } else {
      SplitJoin(parts[1..], sep);
      SplitPart(parts[0], Join(parts[1..], sep), sep);
    }
  }

  /** Splitting and joining again gives the text back. */
  lemma {:induction false} JoinSplit(s: string, sep: char)
    ensures Join(Split(s, sep), sep) == s
    ensures forall i | 0 <= i < |Split(s, sep)| :: sep !in Split(s, sep)[i]
  {
    if s != [] {
      var rest := Split(s[1..], sep);
      JoinSplit(s[1..], sep);
      if s[0] == sep {
        assert ([[]] + rest)[1..] == rest;
      } else {
        JoinPrefix(s[0], rest, sep);
      }
      assert [s[0]] + s[1..] == s;
    }
  }

  lemma JoinPrefix(c: char, parts: seq<string>, sep: char)
    requires parts != []
    ensures Join([[c] + parts[0]] + parts[1..], sep) == [c] + Join(parts, sep)
  {
    var longer := [[c] + parts[0]] + parts[1..];
    assert longer[1..] == parts[1..];
    if |parts| > 1 {
      assert [c] + parts[0] + [sep] + Join(parts[1..], sep) == [c] + (parts[0] + [sep] + Join(parts[1..], sep));
    }
  }

  // ---------------------------------------------------------------- strip

  /** The characters str.isspace accepts. */
  predicate IsSpace(c: char) {
    var n := c as int;
    9 <= n <= 13 || 28 <= n <= 32 || n == 0x85 || n == 0xA0 || n == 0x1680 || 0x2000 <= n <= 0x200A
    || n == 0x2028 || n == 0x2029 || n == 0x202F || n == 0x205F || n == 0x3000
  }

  /** All of them, listed. */
  lemma SpacesAre(c: char)
    ensures IsSpace(c) <==>
            c as int in {0x09, 0x0A, 0x0B, 0x0C, 0x0D, 0x1C, 0x1D, 0x1E, 0x1F, 0x20, 0x85, 0xA0, 0x1680, 0x2000, 0x2001, 0x2002,
                         0x2003, 0x2004, 0x2005, 0x2006, 0x2007, 0x2008, 0x2009, 0x200A, 0x2028, 0x2029, 0x202F, 0x205F, 0x3000}
  {
  }

  function Strip(s: string): string {
    if s != [] && IsSpace(s[0]) then Strip(s[1..])
    else if s != [] && IsSpace(s[|s| - 1]) then Strip(s[..|s| - 1])
    else s
  }

  predicate AllSpace(s: string) { forall i | 0 <= i < |s| :: IsSpace(s[i]) }

  predicate Trimmed(s: string) { s == [] || (!IsSpace(s[0]) && !IsSpace(s[|s| - 1])) }

  lemma {:induction false} TrimmedAfterStrip(s: string)
    ensures Trimmed(Strip(s))
  {
    if s != [] && IsSpace(s[0]) {
      TrimmedAfterStrip(s[1..]);
    } else if s != [] && IsSpace(s[|s| - 1]) {
      TrimmedAfterStrip(s[..|s| - 1]);
    }
  }

  lemma MoreSpace(c: char, s: string)
    requires IsSpace(c) && AllSpace(s)
    ensures AllSpace([c] + s) && AllSpace(s + [c])
  {
  }

  /** Stripping takes the blanks at both ends and nothing else. */
  lemma {:induction false} StripExactly(s: string) returns (lead: string, trail: string)
    ensures s == lead + Strip(s) + trail && AllSpace(lead) && AllSpace(trail) && Trimmed(Strip(s))
  {
    TrimmedAfterStrip(s);
    if s != [] && IsSpace(s[0]) {
      var l, t := StripExactly(s[1..]);
      lead, trail := [s[0]] + l, t;
      MoreSpace(s[0], l);
      assert s == [s[0]] + s[1..] && [s[0]] + (l + Strip(s) + t) == lead + Strip(s) + trail;
    } else if s != [] && IsSpace(s[|s| - 1]) {
      var l, t := StripExactly(s[..|s| - 1]);
      lead, trail := l, t + [s[|s| - 1]];
      MoreSpace(s[|s| - 1], t);
      assert s == s[..|s| - 1] + [s[|s| - 1]] && (l + Strip(s) + t) + [s[|s| - 1]] == lead + Strip(s) + trail;
    } else {
      lead, trail := [], [];
    }
  }

  /** Whatever blanks stand around a text, stripping gives the text. */
  lemma {:induction false} StripGives(lead: string, core: string, trail: string)
    requires AllSpace(lead) && AllSpace(trail) && Trimmed(core) && core != []
    ensures Strip(lead + core + trail) == core
    decreases |lead| + |trail|
  {
    var s := lead + core + trail;
    if lead != [] {
      assert s[1..] == lead[1..] + core + trail && s[0] == lead[0];
      StripGives(lead[1..], core, trail);
    } else if trail != [] {
      var n := |trail| - 1;
      assert s[..|s| - 1] == lead + core + trail[..n] && s[|s| - 1] == trail[n] && s[0] == core[0];
      StripGives(lead, core, trail[..n]);
    } else {
      assert s == core;
    }
  }

  // ---------------------------------------------------------------- int()

  predicate IsDigit(c: char) { '0' <= c <= '9' }

  /** Digits with single underscores between digits. */
  predicate IsNumeral(s: string) {
    && s != [] && IsDigit(s[0]) && IsDigit(s[|s| - 1])
    && (forall i | 0 <= i < |s| :: IsDigit(s[i]) || s[i] == '_')
    && (forall i | 0 <= i < |s| - 1 :: !(s[i] == '_' && s[i + 1] == '_'))
  }

  function WithoutUnderscores(s: string): string {
    if s == [] then []
    else if s[0] == '_' then WithoutUnderscores(s[1..])
    else [s[0]] + WithoutUnderscores(s[1..])
  }

  /** The underscores go and everything else stays. */
  lemma {:induction false} UnderscoresGo(s: string, c: char, t: string)
    ensures WithoutUnderscores(s + [c] + t) == WithoutUnderscores(s) + (if c == '_' then "" else [c]) + WithoutUnderscores(t)
    ensures WithoutUnderscores("") == ""
  {
    if s == [] {
      assert ([c] + t)[1..] == t && s + [c] + t == [c] + t;
    } else {
      assert (s + [c] + t)[1..] == s[1..] + [c] + t;
      UnderscoresGo(s[1..], c, t);
    }
  }

  /** int(text): surrounding whitespace, one sign, then a numeral; None for ValueError. */
  function ParseInt(text: string): Option<int> { ParseSigned(Strip(text)) }

  function ParseSigned(s: string): Option<int> {
    var negative := s != [] && s[0] == '-';
    var body := if s != [] && (s[0] == '-' || s[0] == '+') then s[1..] else s;
    if !IsNumeral(body) then None
    else
      var value := DigitsValue(WithoutUnderscores(body));
      Some(if negative then -value else value)
  }

  lemma {:induction false} NoUnderscores(s: string)
    requires forall c | c in s :: IsDigit(c)
    ensures WithoutUnderscores(s) == s
  {
    if s != [] {
      assert s[0] in s;
      NoUnderscores(s[1..]);
      assert [s[0]] + s[1..] == s;
    }
  }

  lemma DigitsAreNumeral(s: string)
    requires s != [] && forall c | c in s :: IsDigit(c)
    ensures IsNumeral(s)
  {
    assert s[0] in s && s[|s| - 1] in s;
    assert forall i | 0 <= i < |s| :: s[i] in s;
  }

  lemma NothingToStrip(s: string)
    requires forall c | c in s :: IsDigit(c) || c == '-'
    ensures Strip(s) == s
  {
    assert forall i | 0 <= i < |s| :: s[i] in s;
  }

  /** What str() prints, int() reads. */
  lemma IntRoundTrip(n: int)
    ensures ParseInt(IntText(n)) == Some(n)
  {
    var s, body := IntText(n), Digits(if n < 0 then -n else n);
    IntTextShape(n);
    NothingToStrip(s);
    assert body[0] in body;
    assert n < 0 ==> s[1..] == body;
    DigitsAreNumeral(body);
    NoUnderscores(body);
  }

  predicate SignOf(sign: string) { sign == "" || sign == "+" || sign == "-" }

  function SignedValue(sign: string, numeral: string): int {
    if sign == "-" then -DigitsValue(WithoutUnderscores(numeral)) else DigitsValue(WithoutUnderscores(numeral))
  }

  /** What int() accepts: blanks, at most one sign, digits with single underscores between them, blanks. */
  ghost predicate DenotesInt(text: string, n: int) {
    exists lead, sign, numeral, trail ::
      && text == lead + (sign + numeral) + trail && AllSpace(lead) && AllSpace(trail) && SignOf(sign) && IsNumeral(numeral)
      && n == SignedValue(sign, numeral)
  }

  lemma SignedReads(sign: string, numeral: string)
    requires IsNumeral(numeral) && SignOf(sign)
    ensures sign + numeral != [] && Trimmed(sign + numeral)
    ensures ParseSigned(sign + numeral) == Some(SignedValue(sign, numeral))
  {
    var core := sign + numeral;
    assert core[|core| - 1] == numeral[|numeral| - 1];
    assert if sign == "" then core == numeral else core[0] == sign[0] && core[1..] == numeral;
  }

  lemma ReadIsSigned(s: string, n: int) returns (sign: string, numeral: string)
    requires ParseSigned(s) == Some(n)
    ensures s == sign + numeral && SignOf(sign) && IsNumeral(numeral) && n == SignedValue(sign, numeral)
  {
    if s != [] && (s[0] == '-' || s[0] == '+') {
      sign, numeral := if s[0] == '-' then "-" else "+", s[1..];
      assert s == [s[0]] + s[1..] && sign == [s[0]];
    } else {
      sign, numeral := "", s;
    }
  }

  /** int() reads exactly these texts, with exactly this value. */
  lemma ParseIntExactly(text: string, n: int)
    ensures ParseInt(text) == Some(n) <==> DenotesInt(text, n)
  {
    if ParseInt(text) == Some(n) {
      var lead, trail := StripExactly(text);
      var sign, numeral := ReadIsSigned(Strip(text), n);
      assert text == lead + (sign + numeral) + trail;
    }
    if DenotesInt(text, n) {
      var lead, sign, numeral, trail :|
        && text == lead + (sign + numeral) + trail && AllSpace(lead) && AllSpace(trail) && SignOf(sign) && IsNumeral(numeral)
        && n == SignedValue(sign, numeral);
      SignedReads(sign, numeral);
      StripGives(lead, sign + numeral, trail);
    }
  }
}
