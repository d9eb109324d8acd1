/** Day 2: comma-separated ranges `start-end` of product IDs; an ID is invalid
    when its decimal form is some block of digits written twice, and the answer
    is the sum of the invalid IDs over all ranges. */
module Day02 {
  import opened Results
  import opened Text

  /** `IdRange`: the inclusive range `start..=end`. Nothing orders the bounds:
      a range whose start exceeds its end holds no ID. */
  datatype IdRange = IdRange(start: int, end: int)

  /** Carries the offending token verbatim. */
  datatype ParseError = ParseError(input: string)

  // ---------------------------------------------------------------- invalid IDs

  /** `is_invalid_id` as the code states it: for some size from 1 to half the
      length, the first `size` characters equal the whole rest of the string.
      The caller must not pass the empty string (the code asserts it). */
  predicate IsInvalidId(s: string)
    requires |s| > 0
  {
    exists size :: 1 <= size <= |s| / 2 && s[..size] == s[size..]
  }

  /** The loop of `is_invalid_id`: try each size in turn and stop at the first
      one whose prefix equals the remainder. */
  method ScanInvalidId(s: string) returns (invalid: bool)
    requires |s| > 0
    ensures invalid == IsInvalidId(s)
  {
    var l := |s|;
    for size := 1 to l / 2 + 1
      invariant forall k :: 1 <= k < size ==> s[..k] != s[k..]
    {
      if s[..size] == s[size..] {
        return true;
      }
    }
    return false;
  }

  /** Because the prefix is compared with the WHOLE remainder, only the size
      that halves the string can match: an ID is invalid exactly when its
      length is even and its two halves are equal. */
  lemma InvalidIffEqualHalves(s: string)
    requires |s| > 0
    ensures IsInvalidId(s) <==> |s| % 2 == 0 && s[..|s| / 2] == s[|s| / 2..]
  {
    var half := |s| / 2;
    if IsInvalidId(s) {
      var size :| 1 <= size <= half && s[..size] == s[size..];
      assert |s[..size]| == |s[size..]|;
      assert size == half && |s| % 2 == 0;
    }
    if |s| % 2 == 0 && s[..half] == s[half..] {
      assert 1 <= half;
    }
  }

  /** No string of odd length, in particular no single character, is invalid. */
  lemma OddLengthIsValid(s: string)
    requires |s| % 2 == 1
    ensures !IsInvalidId(s)
  {
    InvalidIffEqualHalves(s);
  }

  /** Any non-empty block written twice is invalid. */
  lemma DoubledBlockIsInvalid(block: string)
    requires |block| > 0
    ensures IsInvalidId(block + block)
  {
    var s := block + block;
    assert s[..|block|] == block && s[|block|..] == block;
  }

  /** The doubled blocks `1212` and `55` are invalid; `1121` is not, although
      its first character repeats right after itself: the check is not anchored
      at the start with a short block, it compares the two halves. */
  lemma InvalidExamples()
    ensures IsInvalidId("1212") && IsInvalidId("55")
    ensures !IsInvalidId("1121")
  {
    DoubledBlockIsInvalid("12");
    assert "12" + "12" == "1212";
    DoubledBlockIsInvalid("5");
    assert "5" + "5" == "55";
    InvalidIffEqualHalves("1121");
    assert "1121"[..2] == "11" && "1121"[2..] == "21";
  }

  /** Some block at the start is repeated right after itself. */
  predicate BlockRepeatsAtStart(s: string)
  {
    exists k :: 1 <= k <= |s| / 2 && s[..k] == s[k..2 * k]
  }

  /** Every invalid ID starts with a block repeated right after itself. */
  lemma InvalidStartsWithRepeatedBlock(s: string)
    requires |s| > 0
    ensures IsInvalidId(s) ==> BlockRepeatsAtStart(s)
  {
    if IsInvalidId(s) {
      var size :| 1 <= size <= |s| / 2 && s[..size] == s[size..];
      assert |s| == 2 * size;
      assert s[size..2 * size] == s[size..];
    }
  }

  /** The converse fails: `1121` starts with `1` repeated and is still valid,
      because the code compares the block with the whole rest of the string. */
  lemma RepeatedBlockIsNotEnough()
    ensures BlockRepeatsAtStart("1121") && !IsInvalidId("1121")
  {
    assert "1121"[..1] == "1121"[1..2];
    InvalidExamples();
  }

  /** A negative ID is never invalid: its first half starts with `-`, which
      its second half, made of digits, cannot. */
  lemma NegativeIdIsValid(id: int)
    requires id < 0
    ensures !IsInvalidId(Decimal(id))
  {
    var s := Decimal(id);
    var half := |s| / 2;
    InvalidIffEqualHalves(s);
    if |s| % 2 == 0 {
      assert s[..half][0] == '-';
      assert s[half..][0] != '-';
    }
  }

  // ------------------------------------------------------------- range sums

  /** `IdRange::invalid_sum`: the sum of the IDs of the range whose decimal
      form is invalid. */
  function InvalidSum(range: IdRange): int
  {
    SumInvalid(range.start, range.end)
  }

  /** The filter of `invalid_sum`: `is_invalid_id(&id.to_string())`. */
  predicate IsInvalidNumber(id: int)
  {
    IsInvalidId(Decimal(id))
  }

  /** The sum of the IDs `id` with `lo <= id <= hi` and `Decimal(id)` invalid. */
  function SumInvalid(lo: int, hi: int): int
    decreases hi - lo + 1
  {
    if lo > hi then 0 else (if IsInvalidNumber(lo) then lo else 0) + SumInvalid(lo + 1, hi)
  }

  /** A range whose start exceeds its end contributes nothing. */
  lemma EmptyRangeSum(range: IdRange)
    requires range.start > range.end
    ensures InvalidSum(range) == 0
  {
  }

  /** A one-ID range contributes that ID if it is invalid, and 0 otherwise. */
  lemma SingleIdRangeSum(id: int)
    ensures InvalidSum(IdRange(id, id)) == if IsInvalidId(Decimal(id)) then id else 0
  {
    assert SumInvalid(id + 1, id) == 0;
  }

  /** Cutting a range in two splits its sum. */
  lemma {:induction false} SumInvalidSplit(lo: int, mid: int, hi: int)
    requires lo - 1 <= mid <= hi
    ensures SumInvalid(lo, hi) == SumInvalid(lo, mid) + SumInvalid(mid + 1, hi)
    decreases mid - lo + 1
  {
    if lo <= mid {
      SumInvalidSplit(lo + 1, mid, hi);
    }
  }

  /** Every sum of invalid IDs is at least 0, since negative IDs are never
      invalid. */
  lemma {:induction false} SumInvalidNonNegative(lo: int, hi: int)
    ensures SumInvalid(lo, hi) >= 0
    decreases hi - lo + 1
  {
    if lo <= hi {
      if lo < 0 {
        NegativeIdIsValid(lo);
      }
      SumInvalidNonNegative(lo + 1, hi);
    }
  }

  /** A range holding no invalid ID sums to 0. */
  lemma {:induction false} SumInvalidNone(lo: int, hi: int)
    requires forall id :: lo <= id <= hi ==> !IsInvalidId(Decimal(id))
    ensures SumInvalid(lo, hi) == 0
    decreases hi - lo + 1
  {
    if lo <= hi {
      SumInvalidNone(lo + 1, hi);
    }
  }

  // ------------------------------------------------------------------ parsing

  /** `IdRange::from_str`: split at the first `-`, and both halves must parse
      as `i64`; the bounds are not compared. */
  function RangeFromStr(s: string): (r: Result<IdRange, ParseError>)
    ensures '-' !in s ==> r == Err(ParseError(s))
    ensures r.Err? ==> r.error == ParseError(s)
  {
    match SplitOnce(s, '-')
    case None => Err(ParseError(s))
    case Some((startStr, endStr)) =>
      match (ParseI64(startStr), ParseI64(endStr))
      case (Some(start), Some(end)) => Ok(IdRange(start, end))
      case _ => Err(ParseError(s))
  }

  /** Position `k` holds the first `-` of `s`. */
  predicate FirstDash(s: string, k: int)
  {
    0 <= k < |s| && s[k] == '-' && '-' !in s[..k]
  }

  /** A token is accepted exactly when the text before its first `-` and the
      text after it both parse as `i64`; those are the bounds. */
  lemma RangeFromStrAccepts(s: string, k: int)
    requires FirstDash(s, k)
    ensures RangeFromStr(s).Ok? <==> ParseI64(s[..k]).Some? && ParseI64(s[k + 1..]).Some?
    ensures RangeFromStr(s).Ok? ==>
              RangeFromStr(s).value == IdRange(ParseI64(s[..k]).value, ParseI64(s[k + 1..]).value)
  {
    var i := IndexOf(s, '-').value;
    assert i == k;
  }

  /** A token that starts with `-` is rejected, whatever follows: its start
      half is empty (so `-5-10` is an error). */
  lemma LeadingDashRejected(s: string)
    requires |s| > 0 && s[0] == '-'
    ensures RangeFromStr(s) == Err(ParseError(s))
  {
    assert FirstDash(s, 0);
    RangeFromStrAccepts(s, 0);
  }

  /** A range written the way the input writes it: `11-22`. */
  function FormatRange(range: IdRange): string
  {
    Decimal(range.start) + "-" + Decimal(range.end)
  }

  /** A range with a non-negative `i64` start and any `i64` end, written out and
      parsed back, is the same range (a negative start cannot come back, as its
      own `-` would be taken for the separator). */
  lemma FormatRangeParses(range: IdRange)
    requires 0 <= range.start <= I64_MAX && I64_MIN <= range.end <= I64_MAX
    ensures RangeFromStr(FormatRange(range)) == Ok(range)
  {
    var a, b := Decimal(range.start), Decimal(range.end);
    var s := FormatRange(range);
    var k := |a|;
    assert s[..k] == a && s[k] == '-' && s[k + 1..] == b;
    assert forall i :: 0 <= i < k ==> s[..k][i] == a[i] && IsAsciiDigit(a[i]);
    assert FirstDash(s, k);
    DecimalParses(range.start);
    DecimalParses(range.end);
    RangeFromStrAccepts(s, k);
  }

  /** `parse_input`: split the whole text on `,` (nothing is trimmed); one range
      per token, in order, or the error of the first malformed token. */
  function ParseInput(file: string): (r: Result<seq<IdRange>, ParseError>)
    ensures r.Ok? ==> |r.value| == |SplitOn(file, ',')|
    ensures r.Ok? ==> forall i :: 0 <= i < |r.value| ==> RangeFromStr(SplitOn(file, ',')[i]) == Ok(r.value[i])
    ensures r.Err? ==> exists k :: FirstFailure(SplitOn(file, ','), RangeFromStr, k) && r.error == ParseError(SplitOn(file, ',')[k])
  {
    Collect(SplitOn(file, ','), RangeFromStr)
  }

  // ------------------------------------------------------------------- total

  /** `total_count_invalid_ids`: the per-range sums added up, in order. */
  function TotalCountInvalidIds(ranges: seq<IdRange>): (total: int)
    ensures total >= 0
  {
    if ranges == [] then 0
    else
      SumInvalidNonNegative(ranges[0].start, ranges[0].end);
      InvalidSum(ranges[0]) + TotalCountInvalidIds(ranges[1..])
  }

  /** The total over two lists of ranges is the sum of their totals. */
  lemma {:induction false} TotalOfConcat(a: seq<IdRange>, b: seq<IdRange>)
    ensures TotalCountInvalidIds(a + b) == TotalCountInvalidIds(a) + TotalCountInvalidIds(b)
    decreases |a|
  {
    if a != [] {
      assert (a + b)[1..] == a[1..] + b;
      TotalOfConcat(a[1..], b);
    } else {
      assert a + b == b;
    }
  }

  // ------------------------------------------------------------------ example

  /** In the range 11-22 the invalid IDs are 11 and 22, which add up to 33. */
  lemma ExampleRange()
    ensures InvalidSum(IdRange(11, 22)) == 33
  {
    ExampleRangeMiddle();
    RepeatedDigitIsInvalid(1);
    RepeatedDigitIsInvalid(2);
    assert SumInvalid(11, 11) == 11 by {
      assert SumInvalid(12, 11) == 0;
    }
    assert SumInvalid(22, 22) == 22 by {
      assert SumInvalid(23, 22) == 0;
    }
    SumInvalidSplit(11, 11, 22);
    SumInvalidSplit(12, 21, 22);
  }

  /** No ID from 12 to 21 is invalid: its two digits differ. */
  lemma ExampleRangeMiddle()
    ensures SumInvalid(12, 21) == 0
  {
    forall id | 12 <= id <= 21
      ensures !IsInvalidId(Decimal(id))
    {
      TwoDigitDecimal(id);
      InvalidIffEqualHalves(Decimal(id));
    }
    SumInvalidNone(12, 21);
  }

  /** `11`, `22`, ..., `99` are invalid. */
  lemma RepeatedDigitIsInvalid(d: int)
    requires 1 <= d <= 9
    ensures IsInvalidNumber(11 * d)
  {
    TwoDigitDecimal(11 * d);
    assert (11 * d) / 10 == d && (11 * d) % 10 == d;
    DoubledBlockIsInvalid([DigitChar(d)]);
    assert [DigitChar(d)] + [DigitChar(d)] == Decimal(11 * d);
  }

  /** The decimal form of a two-digit number is its two digits. */
  lemma TwoDigitDecimal(n: int)
    requires 10 <= n <= 99
    ensures Decimal(n) == [DigitChar(n / 10), DigitChar(n % 10)]
  {
    assert NatDigits(n) == NatDigits(n / 10) + [DigitChar(n % 10)];
  }
}
