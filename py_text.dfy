/**
  The handful of Python 2 `str` and `int` operations the two log parsers are
  built from, with their Python meaning: `rstrip`/`lstrip`/`strip` with a set of
  characters, `startswith`, `split` with an explicit separator, `int()` on a
  string and `str()` of an integer.
 */
module PyText {
  import opened Wrappers

  /** The characters `int()` ignores around a numeral (Python's `isspace`). */
  const Whitespace: set<char> := {' ', '\t', '\n', '\r', '\U{B}', '\U{C}'}

  /** `s.lstrip(cs)`: drop every leading character that is in `cs`. */
  function LStrip(s: string, cs: set<char>): (r: string)
    ensures |r| <= |s| && r == s[|s| - |r|..]
    ensures forall i :: 0 <= i < |s| - |r| ==> s[i] in cs
    ensures r == [] || r[0] !in cs
    decreases |s|
  {
    if |s| > 0 && s[0] in cs then LStrip(s[1..], cs) else s
  }

  /** `s.rstrip(cs)`: drop every trailing character that is in `cs`. */
  function RStrip(s: string, cs: set<char>): (r: string)
    ensures |r| <= |s| && r == s[..|r|]
    ensures forall i :: |r| <= i < |s| ==> s[i] in cs
    ensures r == [] || r[|r| - 1] !in cs
    decreases |s|
  {
    if |s| > 0 && s[|s| - 1] in cs then RStrip(s[..|s| - 1], cs) else s
  }

  /** Every character of `w` is in `cs`. */
  predicate AllIn(w: string, cs: set<char>)
  {
    forall i :: 0 <= i < |w| ==> w[i] in cs
  }

  /** `s.strip(cs)`: both of the above. */
  function Strip(s: string, cs: set<char>): (r: string)
    ensures |r| <= |s|
    ensures r == [] || (r[0] !in cs && r[|r| - 1] !in cs)
  {
    RStrip(LStrip(s, cs), cs)
  }

  /**
    What `strip` leaves is `s` with a run of `cs` characters cut from each
    end: `s` is that run, the result, and another run.
   */
  lemma StripCuts(s: string, cs: set<char>) returns (lead: string, trail: string)
    ensures s == lead + Strip(s, cs) + trail && AllIn(lead, cs) && AllIn(trail, cs)
  {
    var l := LStrip(s, cs);
    lead := LStripCut(s, cs);
    trail := RStripCut(l, cs);
    var r := RStrip(l, cs);
    assert Strip(s, cs) == r;
    Regroup(lead, r, trail);
  }

  /** Concatenation is associative (stated for the strings at hand). */
  lemma Regroup(a: string, b: string, c: string)
    ensures a + (b + c) == a + b + c
  {
  }

  /** `s` is the characters `lstrip` drops, all in `cs`, followed by its result. */
  lemma LStripCut(s: string, cs: set<char>) returns (lead: string)
    ensures s == lead + LStrip(s, cs) && AllIn(lead, cs)
  {
    var k := |s| - |LStrip(s, cs)|;
    lead := s[..k];
    assert s == s[..k] + s[k..];
  }

  /** `s` is the result of `rstrip` followed by the characters it drops, all in `cs`. */
  lemma RStripCut(s: string, cs: set<char>) returns (trail: string)
    ensures s == RStrip(s, cs) + trail && AllIn(trail, cs)
  {
    var m := |RStrip(s, cs)|;
    trail := s[m..];
    assert s == s[..m] + s[m..];
    forall k | 0 <= k < |trail|
      ensures trail[k] in cs
    {
      assert trail[k] == s[m + k];
    }
  }

  /** Stripping leaves a string alone when neither end is strippable. */
  lemma StripUnchanged(s: string, cs: set<char>)
    requires s == [] || (s[0] !in cs && s[|s| - 1] !in cs)
    ensures Strip(s, cs) == s
  {
  }

  predicate StartsWith(s: string, prefix: string)
  {
    |prefix| <= |s| && s[..|prefix|] == prefix
  }

  /**
    `s.split(sep)` for a non-empty separator: the occurrences of `sep` are
    found left to right without overlap, and the pieces between them (empty
    ones included) are returned; there is always at least one piece.
   */
  function Split(s: string, sep: string): (parts: seq<string>)
    requires |sep| > 0
    ensures |parts| >= 1
  {
    SplitFrom(s, sep, [])
  }

  /** The scan behind `Split`: `cur` is the piece collected so far. */
  function SplitFrom(s: string, sep: string, cur: string): (parts: seq<string>)
    requires |sep| > 0
    ensures |parts| >= 1
    decreases |s|
  {
    if |s| < |sep| then [cur + s]
    else if s[..|sep|] == sep then [cur] + SplitFrom(s[|sep|..], sep, [])
    else SplitFrom(s[1..], sep, cur + [s[0]])
  }

  /** `sep` occurs in `s` starting at position `j`. */
  predicate OccursAt(s: string, sep: string, j: int)
  {
    0 <= j && j + |sep| <= |s| && s[j..j + |sep|] == sep
  }

  /** No occurrence of `sep` starts at any of the first `n` positions of `s`. */
  predicate NoSeparatorBefore(s: string, sep: string, n: int)
  {
    forall j :: 0 <= j < n ==> !OccursAt(s, sep, j)
  }

  lemma {:induction false} SplitFromNone(s: string, sep: string, cur: string)
    requires |sep| > 0 && NoSeparatorBefore(s, sep, |s|)
    ensures SplitFrom(s, sep, cur) == [cur + s]
    decreases |s|
  {
    if |s| >= |sep| {
      assert !OccursAt(s, sep, 0);
      assert NoSeparatorBefore(s[1..], sep, |s| - 1) by {
        forall j | 0 <= j < |s| - 1
          ensures !OccursAt(s[1..], sep, j)
        {
          assert !OccursAt(s, sep, j + 1);
          if j + |sep| <= |s| - 1 {
            assert s[1..][j..j + |sep|] == s[j + 1..j + 1 + |sep|];
          }
        }
      }
      SplitFromNone(s[1..], sep, cur + [s[0]]);
      assert cur + [s[0]] + s[1..] == cur + s;
    }
  }

  /** A string in which `sep` does not occur is its own single piece. */
  lemma SplitNone(s: string, sep: string)
    requires |sep| > 0 && NoSeparatorBefore(s, sep, |s|)
    ensures Split(s, sep) == [s]
  {
    SplitFromNone(s, sep, []);
    assert [] + s == s;
  }

  lemma {:induction false} SplitFromAtFirst(a: string, sep: string, b: string, cur: string)
    requires |sep| > 0 && NoSeparatorBefore(a + sep + b, sep, |a|)
    ensures SplitFrom(a + sep + b, sep, cur) == [cur + a] + SplitFrom(b, sep, [])
    decreases |a|
  {
    var s := a + sep + b;
    if a == [] {
      assert s == sep + b;
      assert s[..|sep|] == sep && s[|sep|..] == b;
      assert cur + a == cur;
    } else {
      assert !OccursAt(s, sep, 0);
      var t := a[1..] + sep + b;
      assert s[1..] == t;
      assert NoSeparatorBefore(t, sep, |a| - 1) by {
        forall j | 0 <= j < |a| - 1
          ensures !OccursAt(t, sep, j)
        {
          assert !OccursAt(s, sep, j + 1);
          if j + |sep| <= |t| {
            assert t[j..j + |sep|] == s[j + 1..j + 1 + |sep|];
          }
        }
      }
      SplitFromAtFirst(a[1..], sep, b, cur + [s[0]]);
      assert cur + [s[0]] + a[1..] == cur + a;
    }
  }

  /** The first piece of a split ends where the first occurrence of the separator starts. */
  lemma SplitAtFirst(a: string, sep: string, b: string)
    requires |sep| > 0 && NoSeparatorBefore(a + sep + b, sep, |a|)
    ensures Split(a + sep + b, sep) == [a] + Split(b, sep)
  {
    SplitFromAtFirst(a, sep, b, []);
    assert [] + a == a;
  }

  /** `sep.join(parts)`. */
  function Join(parts: seq<string>, sep: string): string
  {
    if |parts| == 0 then []
    else if |parts| == 1 then parts[0]
    else parts[0] + sep + Join(parts[1..], sep)
  }

  lemma {:induction false} JoinSplitFrom(s: string, sep: string, cur: string)
    requires |sep| > 0
    ensures Join(SplitFrom(s, sep, cur), sep) == cur + s
    decreases |s|
  {
    if |s| < |sep| {
    } else if s[..|sep|] == sep {
      var rest := SplitFrom(s[|sep|..], sep, []);
      JoinSplitFrom(s[|sep|..], sep, []);
      assert SplitFrom(s, sep, cur) == [cur] + rest;
      assert Join([cur] + rest, sep) == cur + sep + Join(rest, sep);
      assert s == sep + s[|sep|..];
    } else {
      JoinSplitFrom(s[1..], sep, cur + [s[0]]);
      assert cur + [s[0]] + s[1..] == cur + s;
    }
  }

  /** Joining the pieces of a split with the same separator gives back the string. */
  lemma JoinSplit(s: string, sep: string)
    requires |sep| > 0
    ensures Join(Split(s, sep), sep) == s
  {
    JoinSplitFrom(s, sep, []);
  }

  lemma {:induction false} SplitFromNoSeparator(s: string, t: string, c: char, cur: string)
    requires c !in s
    ensures SplitFrom(s + t, [c], cur) == SplitFrom(t, [c], cur + s)
    decreases |s|
  {
    if s != [] {
      assert (s + t)[..1] == [s[0]];
      assert (s + t)[1..] == s[1..] + t;
      SplitFromNoSeparator(s[1..], t, c, cur + [s[0]]);
      assert cur + [s[0]] + s[1..] == cur + s;
    } else {
      assert s + t == t;
      assert cur + s == cur;
    }
  }

  lemma {:induction false} SplitFromJoin(parts: seq<string>, c: char)
    requires |parts| >= 1
    requires forall i :: 0 <= i < |parts| ==> c !in parts[i]
    ensures SplitFrom(Join(parts, [c]), [c], []) == parts
    decreases |parts|
  {
    if |parts| == 1 {
      SplitFromNoSeparator(parts[0], [], c, []);
      assert parts[0] + [] == parts[0];
      assert [] + parts[0] == parts[0];
    } else {
      var tail := [c] + Join(parts[1..], [c]);
      assert Join(parts, [c]) == parts[0] + tail;
      SplitFromNoSeparator(parts[0], tail, c, []);
      assert [] + parts[0] == parts[0];
      assert tail[..1] == [c] && tail[1..] == Join(parts[1..], [c]);
      SplitFromJoin(parts[1..], c);
      assert parts == [parts[0]] + parts[1..];
    }
  }

  /** Splitting on a one-character separator undoes joining pieces that do not contain it. */
  lemma SplitJoin(parts: seq<string>, c: char)
    requires |parts| >= 1
    requires forall i :: 0 <= i < |parts| ==> c !in parts[i]
    ensures Split(Join(parts, [c]), [c]) == parts
  {
    SplitFromJoin(parts, c);
  }

  predicate IsDigit(c: char)
  {
    '0' <= c <= '9'
  }

  /** A non-empty run of ASCII decimal digits. */
  predicate IsNumeral(ds: string)
  {
    |ds| > 0 && forall i :: 0 <= i < |ds| ==> IsDigit(ds[i])
  }

  function DigitValue(c: char): nat
    requires IsDigit(c)
  {
    (c as int) - ('0' as int)
  }

  /** The value of a run of decimal digits, most significant first. */
  function DigitsValue(ds: string): nat
    requires forall i :: 0 <= i < |ds| ==> IsDigit(ds[i])
  {
    if ds == [] then 0 else DigitsValue(ds[..|ds| - 1]) * 10 + DigitValue(ds[|ds| - 1])
  }

  /**
    Python 2 `int(s)` for a `str`: surrounding whitespace is ignored, one
    optional sign is allowed and may be followed by whitespace, the rest must
    be decimal digits (leading zeros allowed). Anything else raises
    `ValueError`, here `None`.
   */
  function ParseInt(s: string): Option<int>
    decreases |s|
  {
    if |s| > 0 && s[0] in Whitespace then ParseInt(s[1..])
    else if |s| > 0 && s[|s| - 1] in Whitespace then ParseInt(s[..|s| - 1])
    else ParseNumeral(s)
  }

  /**
    `int()` on a string without surrounding whitespace. Whitespace between
    the sign and the digits is skipped as well, as CPython 2 does (its
    unsigned reader skips leading whitespace again after the sign).
   */
  function ParseNumeral(t: string): Option<int>
  {
    if |t| > 0 && (t[0] == '-' || t[0] == '+') then
      var digits := LStrip(t[1..], Whitespace);
      if IsNumeral(digits) then
        var magnitude: int := DigitsValue(digits);
        Some(if t[0] == '-' then -magnitude else magnitude)
      else None
    else if IsNumeral(t) then Some(DigitsValue(t))
    else None
  }

  lemma {:induction false} LStripWhitespace(w: string, t: string)
    requires AllIn(w, Whitespace) && (t == [] || t[0] !in Whitespace)
    ensures LStrip(w + t, Whitespace) == t
    decreases |w|
  {
    if w == [] {
      assert w + t == t;
    } else {
      assert (w + t)[1..] == w[1..] + t;
      LStripWhitespace(w[1..], t);
    }
  }

  lemma {:induction false} RStripWhitespace(t: string, w: string)
    requires AllIn(w, Whitespace) && (t == [] || t[|t| - 1] !in Whitespace)
    ensures RStrip(t + w, Whitespace) == t
    decreases |w|
  {
    if w == [] {
      assert t + w == t;
    } else {
      assert (t + w)[..|t + w| - 1] == t + w[..|w| - 1];
      RStripWhitespace(t, w[..|w| - 1]);
    }
  }

  /**
    `core` is `sign + gap + ds`: a numeral `ds` after an optional sign, with
    whitespace `gap` allowed only after a sign, and `n` is its value.
   */
  predicate SignedNumeral(core: string, n: int, sign: string, gap: string, ds: string)
  {
    && core == sign + gap + ds
    && (sign == "" || sign == "-" || sign == "+")
    && (sign == "" ==> gap == "")
    && AllIn(gap, Whitespace) && IsNumeral(ds)
    && n == (if sign == "-" then -(DigitsValue(ds) as int) else DigitsValue(ds))
  }

  /** `s` is such a signed numeral with whitespace `lead` before it and `trail` after it. */
  predicate IntLiteral(s: string, n: int, lead: string, sign: string, gap: string, ds: string, trail: string)
  {
    && s == lead + sign + gap + ds + trail
    && AllIn(lead, Whitespace) && AllIn(trail, Whitespace)
    && SignedNumeral(sign + gap + ds, n, sign, gap, ds)
  }

  /**
    `int()` accepts a numeral with an optional sign, whitespace before and
    after it, and whitespace between the sign and the digits, and returns its
    value.
   */
  lemma ParseIntAccepts(s: string, n: int, lead: string, sign: string, gap: string, ds: string, trail: string)
    requires IntLiteral(s, n, lead, sign, gap, ds, trail)
    ensures ParseInt(s) == Some(n)
  {
    var core := sign + gap + ds;
    assert s == lead + core + trail;
    assert core[0] == (if sign == "" then ds[0] else sign[0]);
    assert core[|core| - 1] == ds[|ds| - 1];
    assert IsDigit(ds[0]) && IsDigit(ds[|ds| - 1]);
    ParseIntAround(lead, core, trail);
    if sign == "" {
      assert core == ds;
      ParseNumeralPlain(ds);
    } else {
      assert core == [sign[0]] + gap + ds;
      ParseNumeralSigned(sign[0], gap, ds);
    }
  }

  /** Conversely, every string `int()` accepts is such a literal of the value it returns. */
  lemma ParseIntShape(s: string)
    requires ParseInt(s).Some?
    ensures exists lead, sign, gap, ds, trail :: IntLiteral(s, ParseInt(s).value, lead, sign, gap, ds, trail)
  {
    var n := ParseInt(s).value;
    ParseIntStrips(s);
    var core := Strip(s, Whitespace);
    var lead, trail := StripCuts(s, Whitespace);
    ParseNumeralShape(core);
    IntLiteralAround(s, n, lead, core, trail);
  }

  lemma IntLiteralAround(s: string, n: int, lead: string, core: string, trail: string)
    requires s == lead + core + trail && AllIn(lead, Whitespace) && AllIn(trail, Whitespace)
    requires exists sign, gap, ds :: SignedNumeral(core, n, sign, gap, ds)
    ensures exists lead, sign, gap, ds, trail :: IntLiteral(s, n, lead, sign, gap, ds, trail)
  {
    var sign, gap, ds :| SignedNumeral(core, n, sign, gap, ds);
    assert s == lead + sign + gap + ds + trail;
    assert IntLiteral(s, n, lead, sign, gap, ds, trail);
  }


  lemma ParseNumeralShape(core: string)
    requires ParseNumeral(core).Some?
    ensures exists sign, gap, ds :: SignedNumeral(core, ParseNumeral(core).value, sign, gap, ds)
  {
    var n := ParseNumeral(core).value;
    if |core| > 0 && (core[0] == '-' || core[0] == '+') {
      var rest := core[1..];
      assert core == [core[0]] + rest;
      var gap := SignedShape(core[0], rest, n);
    } else {
      assert core == "" + "" + core;
      assert SignedNumeral(core, n, "", "", core);
    }
  }

  /** A sign followed by whitespace and a numeral is a `SignedNumeral` of its value. */
  lemma SignedShape(c: char, rest: string, n: int) returns (gap: string)
    requires c == '-' || c == '+'
    requires IsNumeral(LStrip(rest, Whitespace))
    requires n == (if c == '-' then -(DigitsValue(LStrip(rest, Whitespace)) as int) else DigitsValue(LStrip(rest, Whitespace)))
    ensures SignedNumeral([c] + rest, n, [c], gap, LStrip(rest, Whitespace))
  {
    var ds := LStrip(rest, Whitespace);
    gap := LStripCut(rest, Whitespace);
    Regroup([c], gap, ds);
  }

  /** Whitespace around a numeral does not change what `int()` reads. */
  lemma ParseIntAround(lead: string, core: string, trail: string)
    requires AllIn(lead, Whitespace) && AllIn(trail, Whitespace)
    requires core != [] && core[0] !in Whitespace && core[|core| - 1] !in Whitespace
    ensures ParseInt(lead + core + trail) == ParseNumeral(core)
  {
    var s := lead + core + trail;
    assert s == lead + (core + trail);
    LStripWhitespace(lead, core + trail);
    RStripWhitespace(core, trail);
    assert Strip(s, Whitespace) == core;
    ParseIntStrips(s);
  }

  lemma ParseNumeralSigned(c: char, gap: string, ds: string)
    requires AllIn(gap, Whitespace) && IsNumeral(ds)
    requires c == '-' || c == '+'
    ensures ParseNumeral([c] + gap + ds) == Some(if c == '-' then -(DigitsValue(ds) as int) else DigitsValue(ds))
  {
    var core := [c] + gap + ds;
    assert core[1..] == gap + ds;
    assert IsDigit(ds[0]);
    LStripWhitespace(gap, ds);
  }

  lemma ParseNumeralPlain(ds: string)
    requires IsNumeral(ds)
    ensures ParseNumeral(ds) == Some(DigitsValue(ds))
  {
    assert IsDigit(ds[0]);
    assert ds[0] != '-' && ds[0] != '+';
  }

  /** `int('- 5')` is `-5`: whitespace may separate the sign from the digits. */
  lemma ParseIntSignGap()
    ensures ParseInt("- 5") == Some(-5)
  {
    assert DigitsValue("5") == 5 by {
      assert "5"[..0] == [];
    }
    assert "- 5" == [] + "-" + " " + "5" + [];
    assert IntLiteral("- 5", -5, [], "-", " ", "5", []);
    ParseIntAccepts("- 5", -5, [], "-", " ", "5", []);
  }

  /** `int('- ')` raises: a sign needs digits after it. */
  lemma ParseIntSignAlone()
    ensures ParseInt("- ") == None
  {
    assert "- "[|"- "| - 1] == ' ';
    assert "- "[..1] == "-";
    assert ParseInt("- ") == ParseInt("-");
    assert "-"[1..] == [];
  }

  /** `int(s)` reads the numeral left once the whitespace around it is stripped. */
  lemma {:induction false} ParseIntStrips(s: string)
    ensures ParseInt(s) == ParseNumeral(Strip(s, Whitespace))
    decreases |s|
  {
    if |s| > 0 && s[0] in Whitespace {
      ParseIntStrips(s[1..]);
      assert LStrip(s, Whitespace) == LStrip(s[1..], Whitespace);
    } else if |s| > 0 && s[|s| - 1] in Whitespace {
      var init := s[..|s| - 1];
      ParseIntStrips(init);
      assert |s| > 1;
      assert LStrip(s, Whitespace) == s;
      assert init[0] == s[0];
      assert LStrip(init, Whitespace) == init;
      assert RStrip(s, Whitespace) == RStrip(init, Whitespace);
    } else {
      StripUnchanged(s, Whitespace);
    }
  }

  function Digit(d: nat): (c: char)
    requires d < 10
    ensures IsDigit(c) && DigitValue(c) == d
  {
    (('0' as int) + d) as char
  }

  /** `str(n)` for a non-negative integer: its shortest decimal numeral. */
  function NatToString(n: nat): (r: string)
    decreases n
  {
    if n < 10 then [Digit(n)] else NatToString(n / 10) + [Digit(n % 10)]
  }

  /** `str(i)` for any integer. */
  function IntToString(i: int): string
  {
    if i < 0 then "-" + NatToString(-i) else NatToString(i)
  }

  lemma {:induction false} NatToStringDigits(n: nat)
    ensures IsNumeral(NatToString(n)) && DigitsValue(NatToString(n)) == n
    decreases n
  {
    if n >= 10 {
      NatToStringDigits(n / 10);
      var s := NatToString(n);
      assert s[..|s| - 1] == NatToString(n / 10);
    }
  }

  /** `int(str(i)) == i`: the integer parser reads back what `str` prints. */
  lemma ParseIntOfIntToString(i: int)
    ensures ParseInt(IntToString(i)) == Some(i)
  {
    var n: nat := if i < 0 then -i else i;
    NatToStringDigits(n);
    if i < 0 {
      ParseIntNegativeNumeral(NatToString(n));
    } else {
      ParseIntNumeral(NatToString(n));
    }
  }

  /** `int()` of a bare numeral is its value. */
  lemma ParseIntNumeral(ds: string)
    requires IsNumeral(ds)
    ensures ParseInt(ds) == Some(DigitsValue(ds))
  {
    assert IsDigit(ds[0]) && IsDigit(ds[|ds| - 1]);
    ParseIntBare(ds);
    ParseNumeralPlain(ds);
  }

  /** `int()` of a minus sign and a numeral is the negated value. */
  lemma ParseIntNegativeNumeral(ds: string)
    requires IsNumeral(ds)
    ensures ParseInt("-" + ds) == Some(-(DigitsValue(ds) as int))
  {
    var core := "-" + ds;
    assert IsDigit(ds[|ds| - 1]);
    assert core[0] == '-' && core[|core| - 1] == ds[|ds| - 1];
    ParseIntBare(core);
    ParseNumeralSigned('-', [], ds);
    assert ['-'] + [] == "-";
  }

  /** Without whitespace at either end, `int()` reads the string as it is. */
  lemma ParseIntBare(core: string)
    requires core != [] && core[0] !in Whitespace && core[|core| - 1] !in Whitespace
    ensures ParseInt(core) == ParseNumeral(core)
  {
  }

  /** `str(i)` is made of digits and a leading minus sign only. */
  lemma IntToStringChars(i: int)
    ensures forall k :: 0 <= k < |IntToString(i)| ==> IntToString(i)[k] == '-' || IsDigit(IntToString(i)[k])
  {
    var n: nat := if i < 0 then -i else i;
    NatToStringDigits(n);
  }
}
