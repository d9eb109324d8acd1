/** The parts of Rust's string handling that the solvers rely on, restricted to
    ASCII text so that a `char` is a byte: searching for a separator, `str::split`,
    `str::split_once`, `str::lines`, `str::parse::<i64>` and `i64::to_string`. */
module Text {
  import opened Results

  const I64_MIN: int := -0x8000_0000_0000_0000
  const I64_MAX: int := 0x7FFF_FFFF_FFFF_FFFF

  predicate IsAsciiDigit(c: char) {
    '0' <= c <= '9'
  }

  predicate AllDigits(s: string) {
    forall i :: 0 <= i < |s| ==> IsAsciiDigit(s[i])
  }

  function DigitValue(c: char): (d: int)
    requires IsAsciiDigit(c)
    ensures 0 <= d <= 9
  {
    c as int - '0' as int
  }

  function DigitChar(d: int): (c: char)
    requires 0 <= d <= 9
    ensures IsAsciiDigit(c) && DigitValue(c) == d
  {
    (d + '0' as int) as char
  }

  /** Value of a string of decimal digits, most significant digit first. */
  function DigitsValue(s: string): nat
    requires AllDigits(s)
  {
    if s == [] then 0 else 10 * DigitsValue(s[..|s| - 1]) + DigitValue(s[|s| - 1])
  }

  // ---------------------------------------------------------------- searching

  /** Index of the first occurrence of `c` in `s`, if any. */
  function IndexOf(s: string, c: char): (r: Option<nat>)
    ensures r.None? <==> c !in s
    ensures r.Some? ==> r.value < |s| && s[r.value] == c && c !in s[..r.value]
  {
    if s == [] then None
    else if s[0] == c then Some(0)
    else
      match IndexOf(s[1..], c)
      case None => None
      case Some(k) =>
        assert s[..k + 1] == [s[0]] + s[1..][..k];
        Some(k + 1)
  }

  /** Rust's `str::split` on a character: the pieces between the separators, at
      least one of them (the empty string gives one empty piece). */
  function SplitOn(s: string, sep: char): (pieces: seq<string>)
    ensures |pieces| >= 1
    ensures forall i :: 0 <= i < |pieces| ==> sep !in pieces[i]
    ensures Join(pieces, sep) == s
    decreases |s|
  {
    match IndexOf(s, sep)
    case None => [s]
    case Some(k) =>
      var rest := SplitOn(s[k + 1..], sep);
      assert s == s[..k] + [sep] + s[k + 1..];
      [s[..k]] + rest
  }

  /** The inverse of `SplitOn`: the pieces with the separator between each two. */
  function Join(pieces: seq<string>, sep: char): string
    requires |pieces| >= 1
  {
    if |pieces| == 1 then pieces[0] else pieces[0] + [sep] + Join(pieces[1..], sep)
  }

  lemma {:induction false} SplitOnJoin(pieces: seq<string>, sep: char)
    requires |pieces| >= 1
    requires forall i :: 0 <= i < |pieces| ==> sep !in pieces[i]
    ensures SplitOn(Join(pieces, sep), sep) == pieces
    decreases |pieces|
  {
    var s := Join(pieces, sep);
    if |pieces| == 1 {
      assert IndexOf(s, sep).None?;
    } else {
      var head := pieces[0];
      var tail := Join(pieces[1..], sep);
      assert s == head + [sep] + tail;
      assert s[|head|] == sep && s[..|head|] == head;
      assert IndexOf(s, sep) == Some(|head|);
      assert s[|head| + 1..] == tail;
      SplitOnJoin(pieces[1..], sep);
    }
  }

  /** Rust's `str::split_once`: the text before and after the first separator. */
  function SplitOnce(s: string, sep: char): (r: Option<(string, string)>)
    ensures r.None? <==> sep !in s
    ensures r.Some? ==> sep !in r.value.0 && s == r.value.0 + [sep] + r.value.1
  {
    match IndexOf(s, sep)
    case None => None
    case Some(k) =>
      assert s == s[..k] + [sep] + s[k + 1..];
      Some((s[..k], s[k + 1..]))
  }

  /** Rust's `str::lines`: pieces between `'\n'`; a final line ending is optional
      (so it does not start an empty last line) and a `'\r'` just before a
      `'\n'` belongs to the line ending. */
  function Lines(s: string): (lines: seq<string>)
    ensures s == [] ==> lines == []
  {
    LinesOfPieces(SplitOn(s, '\n'))
  }

  /** The lines, given the pieces between the `'\n'`s. */
  function LinesOfPieces(pieces: seq<string>): seq<string>
    requires |pieces| >= 1
  {
    var last := pieces[|pieces| - 1];
    var terminated := StripEach(pieces[..|pieces| - 1]);
    if last == [] then terminated else terminated + [last]
  }

  function StripEach(lines: seq<string>): (r: seq<string>)
    ensures |r| == |lines|
    ensures forall i :: 0 <= i < |lines| ==> r[i] == StripCR(lines[i])
  {
    if lines == [] then [] else [StripCR(lines[0])] + StripEach(lines[1..])
  }

  function StripCR(line: string): (r: string)
    ensures '\n' in r ==> '\n' in line
  {
    if line != [] && line[|line| - 1] == '\r' then line[..|line| - 1] else line
  }

  /** Text made of these lines, none of which contains a line ending, reads
      back as exactly these lines. */
  lemma LinesOfJoin(lines: seq<string>)
    requires |lines| >= 1 && lines[|lines| - 1] != []
    requires forall i :: 0 <= i < |lines| ==> '\n' !in lines[i] && '\r' !in lines[i]
    ensures Lines(Join(lines, '\n')) == lines
  {
    SplitOnJoin(lines, '\n');
    PiecesWithoutCR(lines);
  }

  lemma PiecesWithoutCR(pieces: seq<string>)
    requires |pieces| >= 1 && pieces[|pieces| - 1] != []
    requires forall i :: 0 <= i < |pieces| ==> '\r' !in pieces[i]
    ensures LinesOfPieces(pieces) == pieces
  {
    var n := |pieces|;
    var terminated := StripEach(pieces[..n - 1]);
    forall i | 0 <= i < n - 1
      ensures terminated[i] == pieces[i]
    {
      StripCRKeeps(pieces[i]);
    }
    assert pieces == terminated + [pieces[n - 1]];
  }

  lemma StripCRKeeps(line: string)
    requires '\r' !in line
    ensures StripCR(line) == line
  {
    if line != [] {
      assert line[|line| - 1] in line;
    }
  }

  // ----------------------------------------------------------- integer parsing

  /** The text after an optional leading `+` or `-`. */
  function Unsigned(s: string): string
  {
    if |s| > 0 && (s[0] == '+' || s[0] == '-') then s[1..] else s
  }

  /** A magnitude, negated when the sign is `-`. */
  function WithSign(negative: bool, magnitude: nat): int
  {
    if negative then -(magnitude as int) else magnitude
  }

  /** The largest magnitude an `i64` with this sign can have. */
  function MagnitudeLimit(negative: bool): int
  {
    if negative then -I64_MIN else I64_MAX
  }

  /** Rust's `str::parse::<i64>`: an optional `+` or `-`, then one or more ASCII
      digits, whose value must fit in an `i64`. */
  function ParseI64(s: string): (r: Option<int>)
    ensures r.Some? ==> I64_MIN <= r.value <= I64_MAX
    ensures r.Some? ==> |s| >= 1 && (IsAsciiDigit(s[0]) || s[0] in "+-")
    ensures r.Some? ==> Unsigned(s) != [] && AllDigits(Unsigned(s))
    ensures r.Some? ==> r.value == WithSign(s[0] == '-', DigitsValue(Unsigned(s)))
    ensures (Unsigned(s) != [] && AllDigits(Unsigned(s)) &&
             DigitsValue(Unsigned(s)) <= MagnitudeLimit(|s| > 0 && s[0] == '-')) ==> r.Some?
  {
    var negative := |s| > 0 && s[0] == '-';
    var digits := Unsigned(s);
    if digits == [] || !AllDigits(digits) then None
    else
      var value := WithSign(negative, DigitsValue(digits));
      if I64_MIN <= value <= I64_MAX then Some(value) else None
  }

  /** A sign (none, `+` or `-`) followed by digits whose value fits parses as
      that signed value. */
  lemma ParseSigned(sign: string, digits: string)
    requires sign == "" || sign == "+" || sign == "-"
    requires digits != [] && AllDigits(digits) && DigitsValue(digits) <= MagnitudeLimit(sign == "-")
    ensures ParseI64(sign + digits) == Some(WithSign(sign == "-", DigitsValue(digits)))
  {
    var s := sign + digits;
    if sign == "" {
      assert s == digits;
      assert IsAsciiDigit(s[0]);
    } else {
      assert s[0] == sign[0] && s[1..] == digits;
    }
  }

  /** Two digits parse as the two-digit number they spell. */
  lemma ParseTwoDigits(a: int, b: int)
    requires 0 <= a <= 9 && 0 <= b <= 9
    ensures ParseI64([DigitChar(a), DigitChar(b)]) == Some(10 * a + b)
  {
    var s := [DigitChar(a), DigitChar(b)];
    assert s[..1] == [DigitChar(a)] && s[..1][..0] == [];
    assert DigitsValue(s[..1]) == a;
    assert DigitsValue(s) == 10 * a + b;
    assert "" + s == s;
    ParseSigned("", s);
  }

  /** One digit parses as its value. */
  lemma ParseOneDigit(a: int)
    requires 0 <= a <= 9
    ensures ParseI64([DigitChar(a)]) == Some(a)
  {
    var s := [DigitChar(a)];
    assert s[..0] == [];
    assert "" + s == s;
    ParseSigned("", s);
  }

  /** The decimal digits of a natural number, without leading zeros. */
  function NatDigits(n: nat): (s: string)
    ensures |s| >= 1 && AllDigits(s)
    ensures DigitsValue(s) == n
    ensures s[0] == '0' ==> n == 0
  {
    if n < 10 then [DigitChar(n)]
    else
      var s := NatDigits(n / 10) + [DigitChar(n % 10)];
      assert s[..|s| - 1] == NatDigits(n / 10);
      s
  }

  /** Rust's `i64::to_string`: a `-` for negative numbers, then the digits. */
  function Decimal(n: int): (s: string)
    ensures |s| >= 1
    ensures n < 0 <==> s[0] == '-'
    ensures n >= 0 ==> AllDigits(s) && DigitsValue(s) == n && (s[0] == '0' ==> s == "0")
    ensures n < 0 ==> |s| >= 2 && AllDigits(s[1..]) && DigitsValue(s[1..]) == -n && s[1] != '0'
    ensures forall i :: 0 < i < |s| ==> IsAsciiDigit(s[i])
  {
    if n < 0 then "-" + NatDigits(-n) else NatDigits(n)
  }

  /** Parsing the decimal form of any `i64` gives the number back. */
  lemma DecimalParses(n: int)
    requires I64_MIN <= n <= I64_MAX
    ensures ParseI64(Decimal(n)) == Some(n)
  {
    var s := Decimal(n);
    if n < 0 {
      assert s[1..] == NatDigits(-n);
    } else {
      assert s == NatDigits(n);
    }
  }
}
