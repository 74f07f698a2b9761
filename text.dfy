/**
 * The string operations the handlers rely on: splitting on a separator with
 * empty pieces dropped, joining, letter case, and rendering and parsing numbers.
 */
module Text {
  import opened Wrappers

  // ------------------------------------------------------------------ split and join

  /** The longest prefix of `s` that does not contain `sep`. */
  function Word(s: string, sep: char): (w: string)
    ensures w <= s && sep !in w
    ensures |w| < |s| ==> s[|w|] == sep
    ensures s != [] && s[0] != sep ==> |w| >= 1
  {
    if s == [] || s[0] == sep then [] else [s[0]] + Word(s[1..], sep)
  }

  /**
   * `s.Split(sep, StringSplitOptions.RemoveEmptyEntries)`: the maximal runs of
   * characters other than `sep`, in order.
   */
  function Split(s: string, sep: char): (parts: seq<string>)
    ensures forall i :: 0 <= i < |parts| ==> parts[i] != [] && sep !in parts[i]
    decreases |s|
  {
    if s == [] then []
    else if s[0] == sep then Split(s[1..], sep)
    else
      var w := Word(s, sep);
      [w] + Split(s[|w|..], sep)
  }

  /** `string.Join(sep, parts)`. */
  function Join(parts: seq<string>, sep: char): string
  {
    if parts == [] then []
    else if |parts| == 1 then parts[0]
    else parts[0] + [sep] + Join(parts[1..], sep)
  }

  /** A word followed by anything keeps its place as the word of the whole. */
  lemma {:induction false} WordOfConcat(p: string, t: string, sep: char)
    requires sep !in p
    ensures Word(p + t, sep) == p + Word(t, sep)
  {
    if p == [] {
      assert p + t == t;
    } else {
      var s := p + t;
      assert s[0] == p[0] && s[1..] == p[1..] + t;
      assert p[0] != sep;
      calc {
        Word(s, sep);
        [s[0]] + Word(s[1..], sep);
        { WordOfConcat(p[1..], t, sep); }
        [p[0]] + (p[1..] + Word(t, sep));
        { assert [p[0]] + p[1..] == p; }
        p + Word(t, sep);
      }
    }
  }

  /** A piece followed by nothing or by a separator splits off as the first piece. */
  lemma SplitWordThen(p: string, tail: string, sep: char)
    requires p != [] && sep !in p
    requires tail == [] || tail[0] == sep
    ensures Split(p + tail, sep) == [p] + Split(tail, sep)
  {
    var s := p + tail;
    assert Word(tail, sep) == [];
    WordOfConcat(p, tail, sep);
    assert p + [] == p;
    assert s[0] == p[0] != sep;
    assert s[|p|..] == tail;
  }

  /** Splitting what was joined gives back the pieces, when none is empty or holds the separator. */
  lemma {:induction false} SplitJoin(parts: seq<string>, sep: char)
    requires forall i :: 0 <= i < |parts| ==> parts[i] != [] && sep !in parts[i]
    ensures Split(Join(parts, sep), sep) == parts
  {
    if parts == [] {
    } else if |parts| == 1 {
      var p := parts[0];
      WordOfConcat(p, [], sep);
      assert p + [] == p;
      assert p[|p|..] == [];
    } else {
      var p, rest := parts[0], Join(parts[1..], sep);
      var s := p + [sep] + rest;
      assert s == Join(parts, sep);
      WordOfConcat(p, [sep] + rest, sep);
      assert p + ([sep] + rest) == s;
      assert Word([sep] + rest, sep) == [];
      assert Word(s, sep) == p;
      assert s[0] == p[0] != sep;
      assert s[|p|..] == [sep] + rest;
      assert ([sep] + rest)[1..] == rest;
      assert Split(s, sep) == [p] + Split([sep] + rest, sep);
      SplitJoin(parts[1..], sep);
      assert [p] + parts[1..] == parts;
    }
  }

  /** `n` separators in a row. */
  function Run(n: nat, sep: char): (r: string)
    ensures |r| == n && forall i :: 0 <= i < n ==> r[i] == sep
  {
    seq(n, _ => sep)
  }

  /**
   * The pieces, each followed by its own run of separators: `gaps[i]` after
   * `parts[i]`.
   */
  function Spaced(parts: seq<string>, gaps: seq<nat>, sep: char): string
    requires |gaps| == |parts|
  {
    if parts == [] then [] else parts[0] + Run(gaps[0], sep) + Spaced(parts[1..], gaps[1..], sep)
  }

  /** Leading separators are dropped. */
  lemma {:induction false} SplitRun(n: nat, t: string, sep: char)
    ensures Split(Run(n, sep) + t, sep) == Split(t, sep)
  {
    if n > 0 {
      var s := Run(n, sep) + t;
      assert s[0] == sep;
      assert s[1..] == Run(n - 1, sep) + t;
      SplitRun(n - 1, t, sep);
    } else {
      assert Run(n, sep) + t == t;
    }
  }

  /**
   * A text made of non-empty, separator-free pieces, with runs of at least one
   * separator between them and runs of any length before the first and after
   * the last, splits into exactly those pieces.
   */
  lemma {:induction false} SplitSpaced(lead: nat, parts: seq<string>, gaps: seq<nat>, sep: char)
    requires forall i :: 0 <= i < |parts| ==> parts[i] != [] && sep !in parts[i]
    requires |gaps| == |parts| && forall i :: 0 <= i < |parts| - 1 ==> gaps[i] >= 1
    ensures Split(Run(lead, sep) + Spaced(parts, gaps, sep), sep) == parts
  {
    SplitRun(lead, Spaced(parts, gaps, sep), sep);
    SplitSpacedTail(parts, gaps, sep);
  }

  lemma {:induction false} SplitSpacedTail(parts: seq<string>, gaps: seq<nat>, sep: char)
    requires forall i :: 0 <= i < |parts| ==> parts[i] != [] && sep !in parts[i]
    requires |gaps| == |parts| && forall i :: 0 <= i < |parts| - 1 ==> gaps[i] >= 1
    ensures Split(Spaced(parts, gaps, sep), sep) == parts
  {
    if parts != [] {
      var p := parts[0];
      var rest := Spaced(parts[1..], gaps[1..], sep);
      var tail := Run(gaps[0], sep) + rest;
      assert p + tail == Spaced(parts, gaps, sep);
      if gaps[0] == 0 {
        assert |parts| == 1 && rest == [] && tail == [];
      } else {
        assert tail[0] == sep;
      }
      SplitWordThen(p, tail, sep);
      SplitRun(gaps[0], rest, sep);
      SplitSpacedTail(parts[1..], gaps[1..], sep);
      assert [p] + parts[1..] == parts;
    }
  }

  // ------------------------------------------------------------------ letter case

  /** Lower-case letters of the Latin and Russian alphabets. */
  predicate IsLower(c: char)
  {
    ('a' <= c <= 'z') || ('а' <= c <= 'я') || c == 'ё'
  }

  /** Upper-case letters of the Latin and Russian alphabets. */
  predicate IsUpper(c: char)
  {
    ('A' <= c <= 'Z') || ('А' <= c <= 'Я') || c == 'Ё'
  }

  /** The upper-case form of a letter; other characters are kept. */
  function UpperChar(c: char): (u: char)
    ensures !IsLower(u)
    ensures !IsLower(c) ==> u == c
    ensures IsLower(c) ==> IsUpper(u) && LowerChar(u) == c
  {
    if 'a' <= c <= 'z' || 'а' <= c <= 'я' then (c as int - 32) as char
    else if c == 'ё' then 'Ё'
    else c
  }

  /** The lower-case form of a letter; other characters are kept. */
  function LowerChar(c: char): (l: char)
    ensures !IsUpper(l)
    ensures !IsUpper(c) ==> l == c
  {
    if 'A' <= c <= 'Z' || 'А' <= c <= 'Я' then (c as int + 32) as char
    else if c == 'Ё' then 'ё'
    else c
  }

  /** `s.ToUpper()`: the same length, no lower-case letter left, everything else kept. */
  function ToUpper(s: string): (r: string)
    ensures |r| == |s|
    ensures forall i :: 0 <= i < |s| ==> !IsLower(r[i]) && (IsLower(s[i]) || r[i] == s[i])
  {
    seq(|s|, i requires 0 <= i < |s| => UpperChar(s[i]))
  }

  /** `s.ToLower()`: the same length, no upper-case letter left, everything else kept. */
  function ToLower(s: string): (r: string)
    ensures |r| == |s|
    ensures forall i :: 0 <= i < |s| ==> !IsUpper(r[i]) && (IsUpper(s[i]) || r[i] == s[i])
  {
    seq(|s|, i requires 0 <= i < |s| => LowerChar(s[i]))
  }

  /** Upper-casing twice is upper-casing once. */
  lemma ToUpperIdempotent(s: string)
    ensures ToUpper(ToUpper(s)) == ToUpper(s)
  {
  }

  /** Lower-casing ignores the case the text was written in. */
  lemma ToLowerIgnoresCase(s: string)
    ensures ToLower(ToUpper(s)) == ToLower(s)
  {
    forall i | 0 <= i < |s|
      ensures LowerChar(UpperChar(s[i])) == LowerChar(s[i])
    {
      var c := s[i];
      if 'a' <= c <= 'z' || 'а' <= c <= 'я' {
        assert LowerChar(UpperChar(c)) == c;
      }
    }
  }

  // ------------------------------------------------------------------ numbers

  predicate IsDigit(c: char)
  {
    '0' <= c <= '9'
  }

  predicate AllDigits(s: string)
  {
    forall i :: 0 <= i < |s| ==> IsDigit(s[i])
  }

  function DigitChar(d: int): (c: char)
    requires 0 <= d < 10
    ensures IsDigit(c)
  {
    ('0' as int + d) as char
  }

  /** The value of a string of decimal digits. */
  function DigitsValue(s: string): nat
    requires AllDigits(s)
  {
    if s == [] then 0 else DigitsValue(s[..|s| - 1]) * 10 + (s[|s| - 1] as int - '0' as int)
  }

  /** The decimal rendering of a natural number, without leading zeros. */
  function NatToString(n: nat): (s: string)
    ensures s != [] && AllDigits(s)
  {
    if n < 10 then [DigitChar(n)] else NatToString(n / 10) + [DigitChar(n % 10)]
  }

  /** The invariant-culture rendering of an integer, as string interpolation writes it. */
  function IntToString(i: int): (s: string)
    ensures s != [] && '_' !in s && ' ' !in s
  {
    var s := if i < 0 then "-" + NatToString(-i) else NatToString(i);
    assert forall k :: 0 <= k < |s| ==> s[k] == '-' || IsDigit(s[k]);
    s
  }

  /** Reading back a rendered natural number gives the number. */
  lemma {:induction false} DigitsValueOfNatToString(n: nat)
    ensures DigitsValue(NatToString(n)) == n
  {
    if n >= 10 {
      var s := NatToString(n);
      assert s[..|s| - 1] == NatToString(n / 10);
      DigitsValueOfNatToString(n / 10);
    }
  }

  /** An integer in decimal with an optional leading '-'; None for anything else. */
  function ParseInt(s: string): Option<int>
  {
    if |s| >= 2 && s[0] == '-' && AllDigits(s[1..]) then Some(-(DigitsValue(s[1..]) as int))
    else if s != [] && AllDigits(s) then Some(DigitsValue(s))
    else None
  }

  /** Parsing a rendered integer gives the integer back. */
  lemma IntRoundTrip(i: int)
    ensures ParseInt(IntToString(i)) == Some(i)
  {
    if i < 0 {
      var s := IntToString(i);
      assert s[1..] == NatToString(-i);
      DigitsValueOfNatToString(-i);
    } else {
      DigitsValueOfNatToString(i);
    }
  }

  function Pow10(k: nat): (p: nat)
    ensures p >= 1
  {
    if k == 0 then 1 else 10 * Pow10(k - 1)
  }

  /** The number written with whole part `w` and fractional digits `f`. */
  function Decimal(w: string, f: string): (v: real)
    requires AllDigits(w) && AllDigits(f)
    ensures v >= 0.0
  {
    DigitsValue(w) as real + DigitsValue(f) as real / Pow10(|f|) as real
  }

  /**
   * An unsigned decimal number: digits, optionally followed by '.' and more
   * digits, with at least one digit in all.
   */
  function ParseUnsigned(s: string): (r: Option<real>)
    ensures r.Some? ==> r.value >= 0.0
    ensures '.' !in s ==> (r.Some? <==> s != [] && AllDigits(s))
    ensures '.' !in s && s != [] && AllDigits(s) ==> r == Some(DigitsValue(s) as real)
  {
    WordWithout(s, '.');
    var whole := Word(s, '.');
    if |whole| == |s| then
      if s != [] && AllDigits(s) then Some(DigitsValue(s) as real) else None
    else
      var frac := s[|whole| + 1..];
      if AllDigits(whole) && AllDigits(frac) && |whole| + |frac| >= 1
      then Some(Decimal(whole, frac))
      else None
  }

  /**
   * `decimal.TryParse` with the invariant culture, on the subset of its grammar
   * modelled here: an optional '+' or '-' followed by an unsigned decimal number.
   * No sign of the value is required.
   */
  function ParseDecimal(s: string): (r: Option<real>)
    ensures r.Some? ==> s != [] && exists i :: 0 <= i < |s| && IsDigit(s[i])
  {
    if s != [] && s[0] == '-' then
      match ParseUnsigned(s[1..])
      case Some(v) => Some(-v)
      case None => None
    else if s != [] && s[0] == '+' then ParseUnsigned(s[1..])
    else ParseUnsigned(s)
  }

  /** A string free of the separator is its own word. */
  lemma WordWithout(s: string, sep: char)
    ensures sep !in s ==> Word(s, sep) == s
  {
    if sep !in s {
      WordOfConcat(s, [], sep);
      assert s + [] == s;
    }
  }

  /** Digits, a point and digits read as the whole part plus the fraction scaled by its length. */
  lemma ParseUnsignedFraction(w: string, f: string)
    requires AllDigits(w) && AllDigits(f) && |w| + |f| >= 1
    ensures ParseUnsigned(w + "." + f) == Some(Decimal(w, f))
  {
    var s := w + "." + f;
    assert '.' !in w;
    WordOfConcat(w, "." + f, '.');
    assert s == w + ("." + f);
    assert Word(s, '.') == w;
    assert s[|w| + 1..] == f;
  }

  /** A string with two points is not a number. */
  lemma ParseUnsignedTwoPoints(w: string, f: string, g: string)
    requires '.' !in w
    ensures ParseUnsigned(w + "." + f + "." + g) == None
  {
    var s := w + "." + f + "." + g;
    WordOfConcat(w, "." + f + "." + g, '.');
    assert s == w + ("." + f + "." + g);
    var frac := s[|w| + 1..];
    assert frac == f + "." + g;
    assert frac[|f|] == '.';
  }

  /**
   * A leading '-' negates the unsigned reading and a leading '+' keeps it; a
   * string with no leading sign is read as unsigned.
   */
  lemma ParseDecimalSign(s: string)
    ensures ParseDecimal("+" + s) == ParseUnsigned(s)
    ensures ParseDecimal("-" + s) == (if ParseUnsigned(s).Some? then Some(-ParseUnsigned(s).value) else None)
    ensures (s == [] || (s[0] != '+' && s[0] != '-')) ==> ParseDecimal(s) == ParseUnsigned(s)
  {
    assert ("+" + s)[1..] == s;
    assert ("-" + s)[1..] == s;
  }

  /** Unsigned amounts read as the number they write: digits, or digits, a point and digits. */
  lemma ParseDecimalValue(w: string, f: string)
    requires AllDigits(w) && AllDigits(f)
    ensures w != [] ==> ParseDecimal(w) == Some(DigitsValue(w) as real)
    ensures |w| + |f| >= 1 ==> ParseDecimal(w + "." + f) == Some(Decimal(w, f))
  {
    if w != [] {
      assert IsDigit(w[0]) && '.' !in w;
      ParseDecimalSign(w);
    }
    if |w| + |f| >= 1 {
      var s := w + "." + f;
      assert s[0] == (if w != [] then w[0] else '.');
      ParseDecimalSign(s);
      ParseUnsignedFraction(w, f);
    }
  }

  /** "1500.50" reads as 1500.5. */
  lemma ParseFractionExample()
    ensures ParseDecimal("1500.50") == Some(1500.5)
  {
    assert "1500" + "." + "50" == "1500.50";
    ParseUnsignedFraction("1500", "50");
    DigitsExample();
  }

  lemma DigitsExample()
    ensures Decimal("1500", "50") == 1500.5
    ensures Decimal("2", "25") == 2.25
  {
    assert "1500"[..3] == "150" && "150"[..2] == "15" && "15"[..1] == "1";
    assert "50"[..1] == "5" && "25"[..1] == "2";
    assert DigitsValue("1500") == 1500 && DigitsValue("50") == 50;
    assert DigitsValue("25") == 25 && DigitsValue("2") == 2;
    assert Pow10(2) == 100;
  }

  /** ".5" reads as 0.5: the whole part may be empty. */
  lemma ParseNoWholeExample()
    ensures ParseDecimal(".5") == Some(0.5)
  {
    assert "" + "." + "5" == ".5";
    ParseUnsignedFraction("", "5");
    assert DigitsValue("5") == 5;
  }

  /** "-2.25" reads as -2.25. */
  lemma ParseNegativeExample()
    ensures ParseDecimal("-2.25") == Some(-2.25)
  {
    UnsignedExample();
    ParseDecimalSign("2.25");
    assert "-" + "2.25" == "-2.25";
  }

  lemma UnsignedExample()
    ensures ParseUnsigned("2.25") == Some(2.25)
  {
    assert "2" + "." + "25" == "2.25";
    ParseUnsignedFraction("2", "25");
    DigitsExample();
  }

  /** "+5" reads as 5. */
  lemma ParsePlusExample()
    ensures ParseDecimal("+5") == Some(5.0)
  {
    assert ParseUnsigned("5") == Some(5.0);
    ParseDecimalSign("5");
    assert "+" + "5" == "+5";
  }

  /** "007" reads as 7: leading zeros are allowed. */
  lemma ParseZerosExample()
    ensures ParseDecimal("007") == Some(7.0)
  {
    assert "007"[..2] == "00" && "00"[..1] == "0";
    assert DigitsValue("007") == 7;
    ParseDecimalValue("007", "");
  }

  /** "1.2.3", "." and "12a" are not amounts. */
  lemma ParseRejectExamples()
    ensures ParseDecimal("1.2.3") == None
    ensures ParseDecimal(".") == None
    ensures ParseDecimal("12a") == None
  {
    assert "1" + "." + "2" + "." + "3" == "1.2.3";
    ParseUnsignedTwoPoints("1", "2", "3");
    assert !AllDigits("12a") by { assert !IsDigit("12a"[2]); }
  }

  /** An integer written out in the invariant culture parses back to the same amount. */
  lemma DecimalOfInt(i: int)
    ensures ParseDecimal(IntToString(i)) == Some(i as real)
  {
    var s := IntToString(i);
    if i < 0 {
      var t := NatToString(-i);
      assert s[1..] == t;
      assert '.' !in t by { assert AllDigits(t); }
      WordOfConcat(t, [], '.');
      assert t + [] == t;
      DigitsValueOfNatToString(-i);
    } else {
      assert AllDigits(s);
      WordOfConcat(s, [], '.');
      assert s + [] == s;
      DigitsValueOfNatToString(i);
    }
  }
}
