/** Day 3: each line is a bank of batteries, one decimal digit each; a bank's
    joltage is the largest two-digit number formed by a battery followed by a
    later one, and the answer is the sum over all banks. */
module Day03 {
  import opened Results
  import opened Text

  /** The joltage of one battery. */
  type Digit = d: int | 0 <= d <= 9

  /** `BatteryBank`: the batteries of one line, in order. */
  datatype BatteryBank = BatteryBank(batteries: seq<Digit>)

  /** Carries the offending line verbatim. */
  datatype ParseError = ParseError(input: string)

  // ------------------------------------------------------------------ parsing

  /** One character parsed as a `u8`: only the ten ASCII digits succeed. */
  function ParseBattery(c: char): (r: Option<Digit>)
    ensures r.Some? <==> IsAsciiDigit(c)
    ensures r.Some? ==> r.value == DigitValue(c)
  {
    if IsAsciiDigit(c) then Some(DigitValue(c)) else None
  }

  /** The batteries of a line, character by character, or `None` as soon as
      one character is not a digit. */
  function BankDigits(s: string): (r: Option<seq<Digit>>)
    ensures r.Some? <==> AllDigits(s)
    ensures r.Some? ==> |r.value| == |s|
    ensures r.Some? ==> forall i :: 0 <= i < |s| ==> r.value[i] == DigitValue(s[i])
  {
    if s == [] then Some([])
    else
      var init := s[..|s| - 1];
      assert forall i :: 0 <= i < |init| ==> init[i] == s[i];
      match (BankDigits(init), ParseBattery(s[|s| - 1]))
      case (Some(prefix), Some(d)) => Some(prefix + [d])
      case _ => None
  }

  /** `BatteryBank::from_str`: a line is a bank exactly when every character
      is a digit; the bank then holds those digits in order, and otherwise the
      whole line is the error (no partial bank). */
  function BankFromStr(s: string): (r: Result<BatteryBank, ParseError>)
    ensures r.Ok? <==> AllDigits(s)
    ensures r.Ok? ==> |r.value.batteries| == |s|
    ensures r.Ok? ==> forall i :: 0 <= i < |s| ==> r.value.batteries[i] == DigitValue(s[i])
    ensures r.Err? ==> r.error == ParseError(s)
  {
    match BankDigits(s)
    case None => Err(ParseError(s))
    case Some(batteries) => Ok(BatteryBank(batteries))
  }

  /** The loop of `from_str`: push each parsed digit, and give up with the
      whole line at the first character that is not one. */
  method FromStr(s: string) returns (r: Result<BatteryBank, ParseError>)
    ensures r == BankFromStr(s)
  {
    var bank: seq<Digit> := [];
    for i := 0 to |s|
      invariant BankDigits(s[..i]) == Some(bank)
    {
      var parsed := ParseBattery(s[i]);
      if parsed.None? {
        assert !AllDigits(s);
        return Err(ParseError(s));
      }
      assert s[..i + 1][..i] == s[..i];
      bank := bank + [parsed.value];
    }
    assert s[..|s|] == s;
    return Ok(BatteryBank(bank));
  }

  /** An empty line is an empty bank. */
  lemma EmptyLineIsEmptyBank()
    ensures BankFromStr("") == Ok(BatteryBank([]))
  {
  }

  /** `parse_input`: one bank per line, in order, or the error of the first
      malformed line. */
  function ParseInput(file: string): (r: Result<seq<BatteryBank>, ParseError>)
    ensures r.Ok? ==> |r.value| == |Lines(file)|
    ensures r.Ok? ==> forall i :: 0 <= i < |r.value| ==> BankFromStr(Lines(file)[i]) == Ok(r.value[i])
    ensures r.Err? ==> exists k :: FirstFailure(Lines(file), BankFromStr, k) && r.error == ParseError(Lines(file)[k])
  {
    Collect(Lines(file), BankFromStr)
  }

  // ------------------------------------------------------------------ joltage

  /** `format!("{jolt1}{jolt2}").parse()`: two batteries written side by side
      and read back as a number. */
  function PairJoltage(a: Digit, b: Digit): (v: int)
    ensures v == 10 * a + b
  {
    assert Decimal(a) + Decimal(b) == [DigitChar(a), DigitChar(b)];
    ParseTwoDigits(a, b);
    ParseI64(Decimal(a) + Decimal(b)).value
  }

  /** The values the inner loop of `joltage` pushes for first battery `i`: the
      two-digit number of battery `i` followed by each later battery, in order
      (what `PairJoltage` computes for that pair). */
  function PairsFrom(bank: seq<Digit>, i: nat): (vs: seq<int>)
    requires i < |bank|
    ensures |vs| == |bank| - i - 1
  {
    seq(|bank| - i - 1, t requires 0 <= t < |bank| - i - 1 => 10 * (bank[i] as int) + bank[i + 1 + t])
  }

  /** Everything the nested loops of `joltage` have pushed once the first `n`
      batteries have been taken as the first of the pair. */
  function PairJoltages(bank: seq<Digit>, n: nat): seq<int>
    requires n <= |bank|
  {
    if n == 0 then [] else PairJoltages(bank, n - 1) + PairsFrom(bank, n - 1)
  }

  /** The pushed values are exactly the pair values `10 * bank[i] + bank[j]`
      for `i < j`, with `i` among the first `n` batteries. */
  lemma {:induction false} PairJoltagesMembers(bank: seq<Digit>, n: nat, v: int)
    requires n <= |bank|
    ensures v in PairJoltages(bank, n) <==> IsPairValue(bank, n, v)
  {
    if n > 0 {
      var prev, row := PairJoltages(bank, n - 1), PairsFrom(bank, n - 1);
      assert PairJoltages(bank, n) == prev + row;
      PairJoltagesMembers(bank, n - 1, v);
      PairsFromMembers(bank, n - 1, v);
      if v in prev + row {
        assert IsPairValue(bank, n, v) by {
          if v in prev {
            var i, j :| 0 <= i < n - 1 && i < j < |bank| && v == 10 * (bank[i] as int) + bank[j];
            assert 0 <= i < n;
          } else {
            var j :| n - 1 < j < |bank| && v == 10 * (bank[n - 1] as int) + bank[j];
            assert 0 <= n - 1 < n;
          }
        }
      }
      if IsPairValue(bank, n, v) {
        assert v in prev + row by {
          var i, j :| 0 <= i < n && i < j < |bank| && v == 10 * (bank[i] as int) + bank[j];
          if i < n - 1 {
            assert IsPairValue(bank, n - 1, v);
          } else {
            assert v in row;
          }
        }
      }
    }
  }

  /** `v` is the pair value of some `i < j` with `i < n`. */
  ghost predicate IsPairValue(bank: seq<Digit>, n: nat, v: int)
  {
    exists i, j :: 0 <= i < n && i < j < |bank| && v == 10 * (bank[i] as int) + bank[j]
  }

  /** The values pushed for first battery `i` are the pair values of `i`. */
  lemma PairsFromMembers(bank: seq<Digit>, i: nat, v: int)
    requires i < |bank|
    ensures v in PairsFrom(bank, i) <==> exists j :: i < j < |bank| && v == 10 * (bank[i] as int) + bank[j]
  {
    var row := PairsFrom(bank, i);
    if v in row {
      var t :| 0 <= t < |row| && row[t] == v;
      assert v == 10 * (bank[i] as int) + bank[i + 1 + t];
    }
    if exists j :: i < j < |bank| && v == 10 * (bank[i] as int) + bank[j] {
      var j :| i < j < |bank| && v == 10 * (bank[i] as int) + bank[j];
      var t := j - i - 1;
      assert row[t] == 10 * (bank[i] as int) + bank[i + 1 + t];
    }
  }

  /** The largest element of a non-empty sequence. */
  function Max(xs: seq<int>): (m: int)
    requires |xs| > 0
    ensures m in xs
    ensures forall i :: 0 <= i < |xs| ==> xs[i] <= m
  {
    if |xs| == 1 then xs[0]
    else
      var rest := Max(xs[1..]);
      assert forall i :: 1 <= i < |xs| ==> xs[i] == xs[1..][i - 1];
      if xs[0] >= rest then xs[0] else rest
  }

  /** `BatteryBank::joltage`: the largest pushed value, or 0 when there is none. */
  function Joltage(bank: BatteryBank): int
  {
    var values := PairJoltages(bank.batteries, |bank.batteries|);
    if values == [] then 0 else Max(values)
  }

  /** No pair beats the joltage: it is at least `10 * b[i] + b[j]` for every
      `i < j`. */
  lemma JoltageBoundsPairs(bank: BatteryBank)
    ensures forall i, j :: 0 <= i < j < |bank.batteries| ==>
              Joltage(bank) >= 10 * (bank.batteries[i] as int) + bank.batteries[j]
  {
    var b := bank.batteries;
    var values := PairJoltages(b, |b|);
    forall i, j | 0 <= i < j < |b|
      ensures Joltage(bank) >= 10 * (b[i] as int) + b[j]
    {
      var v := 10 * (b[i] as int) + b[j];
      PairJoltagesMembers(b, |b|, v);
      var k :| 0 <= k < |values| && values[k] == v;
    }
  }

  /** With two batteries or more, the joltage is the value of one pair `i < j`. */
  lemma JoltageIsSomePair(bank: BatteryBank)
    requires |bank.batteries| >= 2
    ensures exists i, j :: 0 <= i < j < |bank.batteries| && Joltage(bank) == 10 * (bank.batteries[i] as int) + bank.batteries[j]
  {
    var b := bank.batteries;
    var values := PairJoltages(b, |b|);
    PairJoltagesMembers(b, |b|, 10 * (b[0] as int) + b[1]);
    var m := Max(values);
    PairJoltagesMembers(b, |b|, m);
  }

  /** A bank of fewer than two batteries has no pair, and joltage 0. */
  lemma JoltageOfShortBank(bank: BatteryBank)
    requires |bank.batteries| < 2
    ensures Joltage(bank) == 0
  {
    var b := bank.batteries;
    if |b| == 1 {
      assert PairJoltages(b, 1) == PairJoltages(b, 0) + PairsFrom(b, 0);
    }
  }

  /** Every joltage is a two-digit number: between 0 and 99. */
  lemma JoltageRange(bank: BatteryBank)
    ensures 0 <= Joltage(bank) <= 99
  {
    var b := bank.batteries;
    if |b| < 2 {
      JoltageOfShortBank(bank);
    } else {
      JoltageIsSomePair(bank);
    }
  }

  /** The loops of `joltage`: for each battery, push its pair value with each
      later battery; then take the largest value, or 0 if none was pushed. */
  method BankJoltage(bank: BatteryBank) returns (joltage: int)
    ensures joltage == Joltage(bank)
  {
    var b := bank.batteries;
    var joltages: seq<int> := [];
    for idx := 0 to |b|
      invariant joltages == PairJoltages(b, idx)
    {
      var jolt1 := b[idx];
      var withoutIdx := b[idx + 1..];
      for t := 0 to |withoutIdx|
        invariant joltages == PairJoltages(b, idx) + PairsFrom(b, idx)[..t]
      {
        var jolt2 := withoutIdx[t];
        var num := PairJoltage(jolt1, jolt2);
        assert PairsFrom(b, idx)[..t + 1] == PairsFrom(b, idx)[..t] + [num];
        joltages := joltages + [num];
      }
      assert PairsFrom(b, idx)[..|withoutIdx|] == PairsFrom(b, idx);
    }
    joltage := if joltages == [] then 0 else Max(joltages);
  }

  // ------------------------------------------------------------------- total

  /** `total_output_joltage`: the bank joltages added up, in order. */
  function TotalOutputJoltage(banks: seq<BatteryBank>): (total: int)
    ensures 0 <= total <= 99 * |banks|
  {
    if banks == [] then 0
    else
      JoltageRange(banks[0]);
      Joltage(banks[0]) + TotalOutputJoltage(banks[1..])
  }

  /** The total over two lists of banks is the sum of their totals. */
  lemma {:induction false} TotalOfConcat(a: seq<BatteryBank>, b: seq<BatteryBank>)
    ensures TotalOutputJoltage(a + b) == TotalOutputJoltage(a) + TotalOutputJoltage(b)
    decreases |a|
  {
    if a != [] {
      assert (a + b)[1..] == a[1..] + b;
      TotalOfConcat(a[1..], b);
    } else {
      assert a + b == b;
    }
  }

  // ------------------------------------------------------------------ example

  const EXAMPLE_BANK: seq<Digit> := [8, 1, 8, 1, 8, 1, 9, 1, 1, 1, 1, 2, 1, 1, 1]

  /** The line `818181911112111` is the bank above. */
  lemma ExampleBankParses()
    ensures BankFromStr("818181911112111") == Ok(BatteryBank(EXAMPLE_BANK))
  {
    var r := BankFromStr("818181911112111");
    assert AllDigits("818181911112111");
    assert r.value.batteries == EXAMPLE_BANK;
  }

  /** Its joltage is 92: the 9 followed by the 2. */
  lemma ExampleJoltage()
    ensures Joltage(BatteryBank(EXAMPLE_BANK)) == 92
  {
    var bank := BatteryBank(EXAMPLE_BANK);
    var b := EXAMPLE_BANK;
    assert Joltage(bank) <= 92 by {
      JoltageIsSomePair(bank);
      var i, j :| 0 <= i < j < |b| && Joltage(bank) == 10 * (b[i] as int) + b[j];
      if i == 6 {
        assert b[j] <= 2;
      } else {
        assert b[i] <= 8;
      }
    }
    JoltageBoundsPairs(bank);
    assert 10 * (b[6] as int) + b[11] == 92;
  }
}
