/** Day 1: a dial numbered 0 to 99 starts at 50 and is turned left or right by
    the amounts listed one per line; the password is the number of rotations
    after which the dial points at 0. */
module Day01 {
  import opened Results
  import opened Text

  /** Largest number on the dial. */
  const MAX_NUMBER: int := 99
  /** Number of positions on the dial, so that one step left from 0 is 99. */
  const ROTATION_THRESHOLD: int := MAX_NUMBER + 1
  /** Where the dial points before the first rotation. */
  const STARTING_POSITION: int := 50

  /** One instruction. The amount is whatever `i64` the line holds: the parser
      does not reject a negative one. */
  datatype Rotation = Left(amount: int) | Right(amount: int)

  /** Carries the offending line verbatim. */
  datatype ParseError = ParseError(input: string)

  // ------------------------------------------------------------------ parsing

  /** `Rotation::from_str`: a direction letter, then an `i64`. */
  function RotationFromStr(s: string): (r: Result<Rotation, ParseError>)
    ensures |s| < 2 ==> r == Err(ParseError(s))
    ensures r.Ok? <==> |s| >= 2 && s[0] in "LR" && ParseI64(s[1..]).Some?
    ensures r.Ok? && s[0] == 'L' ==> r.value == Left(ParseI64(s[1..]).value)
    ensures r.Ok? && s[0] == 'R' ==> r.value == Right(ParseI64(s[1..]).value)
    ensures r.Err? ==> r.error == ParseError(s)
  {
    if |s| < 2 then Err(ParseError(s))
    else
      var direction, amount := s[..1], ParseI64(s[1..]);
      if direction == "L" && amount.Some? then Ok(Left(amount.value))
      else if direction == "R" && amount.Some? then Ok(Right(amount.value))
      else Err(ParseError(s))
  }

  /** A rotation written the way the input writes it: `L68`, `R14`. */
  function FormatRotation(rotation: Rotation): (s: string)
    ensures |s| >= 2 && s[0] == (if rotation.Left? then 'L' else 'R') && s[1..] == Decimal(rotation.amount)
  {
    match rotation
    case Left(n) => "L" + Decimal(n)
    case Right(n) => "R" + Decimal(n)
  }

  /** Formatting any rotation with an `i64` amount and parsing it back gives the
      same direction and amount. */
  lemma FormatRotationParses(rotation: Rotation)
    requires I64_MIN <= rotation.amount <= I64_MAX
    ensures RotationFromStr(FormatRotation(rotation)) == Ok(rotation)
  {
    var s := FormatRotation(rotation);
    DecimalParses(rotation.amount);
    assert s[1..] == Decimal(rotation.amount);
  }

  /** Every accepted line, reformatted, is accepted again as the same rotation. */
  lemma AcceptedRotationRoundTrips(s: string)
    requires RotationFromStr(s).Ok?
    ensures RotationFromStr(FormatRotation(RotationFromStr(s).value)) == RotationFromStr(s)
  {
    FormatRotationParses(RotationFromStr(s).value);
  }

  /** `parse_input`: one rotation per line, in order, or the error of the first
      malformed line. */
  function ParseInput(file: string): (r: Result<seq<Rotation>, ParseError>)
    ensures r.Ok? ==> |r.value| == |Lines(file)|
    ensures r.Ok? ==> forall i :: 0 <= i < |r.value| ==> RotationFromStr(Lines(file)[i]) == Ok(r.value[i])
    ensures r.Err? ==> exists k :: FirstFailure(Lines(file), RotationFromStr, k) && r.error == ParseError(Lines(file)[k])
  {
    Collect(Lines(file), RotationFromStr)
  }

  // ------------------------------------------------------------------ the dial

  /** Rust's `a % ROTATION_THRESHOLD` on integers: division truncates, so the
      remainder has the sign of `a`. */
  function Rem(a: int): int
  {
    if a >= 0 then a % ROTATION_THRESHOLD else -((-a) % ROTATION_THRESHOLD)
  }

  /** The truncated remainder lies strictly between -100 and 100, has the sign
      of the dividend and is congruent to it modulo 100. */
  lemma RemIsTruncated(a: int)
    ensures -ROTATION_THRESHOLD < Rem(a) < ROTATION_THRESHOLD
    ensures Rem(a) % ROTATION_THRESHOLD == a % ROTATION_THRESHOLD
    ensures a >= 0 ==> Rem(a) >= 0
    ensures a <= 0 ==> Rem(a) <= 0
  {
    if a < 0 {
      var m := (-a) % ROTATION_THRESHOLD;
      assert -a == ((-a) / ROTATION_THRESHOLD) * ROTATION_THRESHOLD + m;
      ModShift(-m, -((-a) / ROTATION_THRESHOLD));
    }
  }

  /** Where one rotation takes the dial (the body of the loop in `door_password`). */
  function Step(position: int, rotation: Rotation): int
  {
    match rotation
    case Left(amount) =>
      var wrapped := Rem(amount);
      if position - wrapped < 0 then position - wrapped + ROTATION_THRESHOLD else position - wrapped
    case Right(amount) => Rem(position + amount)
  }

  /** Left rotation on the dial: a non-negative amount moves to
      `(position - amount)` taken modulo 100 (so L1 from 0 is 99). */
  lemma LeftStepWraps(position: int, amount: int)
    requires 0 <= position <= MAX_NUMBER && amount >= 0
    ensures Step(position, Left(amount)) == (position - amount) % ROTATION_THRESHOLD
    ensures 0 <= Step(position, Left(amount)) <= MAX_NUMBER
  {
    var wrapped := amount % ROTATION_THRESHOLD;
    var q := amount / ROTATION_THRESHOLD;
    assert amount == q * ROTATION_THRESHOLD + wrapped;
    ModShift(position - wrapped, -q);
  }

  /** Right rotation on the dial: a non-negative amount moves to
      `(position + amount) % 100`, again a dial position. */
  lemma RightStepWraps(position: int, amount: int)
    requires 0 <= position <= MAX_NUMBER && amount >= 0
    ensures Step(position, Right(amount)) == (position + amount) % ROTATION_THRESHOLD
    ensures 0 <= Step(position, Right(amount)) <= MAX_NUMBER
  {
  }

  /** Adding a multiple of 100 does not change a value modulo 100. */
  lemma ModShift(x: int, k: int)
    ensures (x + k * ROTATION_THRESHOLD) % ROTATION_THRESHOLD == x % ROTATION_THRESHOLD
  {
    var m := ROTATION_THRESHOLD;
    var q, r := x / m, x % m;
    assert x + k * m == (q + k) * m + r;
  }

  /** Both branches are the same rule, as long as amounts are not negative:
      add the signed amount, then reduce into 0..99. */
  lemma StepIsSignedTurn(position: int, rotation: Rotation)
    requires 0 <= position <= MAX_NUMBER && rotation.amount >= 0
    ensures Step(position, rotation) == (position + SignedAmount(rotation)) % ROTATION_THRESHOLD
  {
    match rotation
    case Left(amount) => LeftStepWraps(position, amount);
    case Right(amount) => RightStepWraps(position, amount);
  }

  function SignedAmount(rotation: Rotation): int
  {
    match rotation
    case Left(n) => -n
    case Right(n) => n
  }

  /** The parser accepts negative amounts (`L-5`), and with them the dial can
      leave 0..99: Rust's `%` keeps the sign, and the Left branch only corrects
      a result below 0. */
  lemma NegativeAmountsLeaveTheDial()
    ensures Step(99, Left(-5)) == 104
    ensures Step(0, Right(-5)) == -5
  {
  }

  /** Where the dial points after all of `rotations`: the last position of the
      trace, or the start when there is no rotation. */
  function Final(position: int, rotations: seq<Rotation>): (p: int)
    ensures rotations == [] ==> p == position
    ensures rotations != [] ==> p == Trace(position, rotations)[|rotations| - 1]
    decreases |rotations|
  {
    if rotations == [] then position else Final(Step(position, rotations[0]), rotations[1..])
  }

  /** The positions after each rotation, in order. */
  function Trace(position: int, rotations: seq<Rotation>): (t: seq<int>)
    ensures |t| == |rotations|
    decreases |rotations|
  {
    if rotations == [] then []
    else
      var next := Step(position, rotations[0]);
      [next] + Trace(next, rotations[1..])
  }

  /** How many of `rotations` leave the dial at 0: the password. */
  function ZeroLandings(position: int, rotations: seq<Rotation>): (n: nat)
    ensures n <= |rotations|
    decreases |rotations|
  {
    if rotations == [] then 0
    else
      var next := Step(position, rotations[0]);
      (if next == 0 then 1 else 0) + ZeroLandings(next, rotations[1..])
  }

  /** The password is the number of zeros among the positions the dial visits
      after each rotation. */
  lemma {:induction false} ZeroLandingsCountsZeros(position: int, rotations: seq<Rotation>)
    ensures ZeroLandings(position, rotations) == multiset(Trace(position, rotations))[0]
    decreases |rotations|
  {
    if rotations != [] {
      var next := Step(position, rotations[0]);
      ZeroLandingsCountsZeros(next, rotations[1..]);
      assert multiset(Trace(position, rotations)) == multiset{next} + multiset(Trace(next, rotations[1..]));
    }
  }

  /** Each position in the trace is one step from the one before it. */
  lemma {:induction false} TraceSteps(position: int, rotations: seq<Rotation>, i: nat)
    requires i < |rotations|
    ensures Trace(position, rotations)[i] ==
            Step(if i == 0 then position else Trace(position, rotations)[i - 1], rotations[i])
    decreases i
  {
    if i > 0 {
      TraceSteps(Step(position, rotations[0]), rotations[1..], i - 1);
    }
  }

  /** Started on the dial and turned by non-negative amounts, the dial never
      leaves 0..99. */
  lemma {:induction false} TraceStaysOnDial(position: int, rotations: seq<Rotation>)
    requires 0 <= position <= MAX_NUMBER
    requires forall i :: 0 <= i < |rotations| ==> rotations[i].amount >= 0
    ensures forall i :: 0 <= i < |rotations| ==> 0 <= Trace(position, rotations)[i] <= MAX_NUMBER
    decreases |rotations|
  {
    if rotations != [] {
      var next := Step(position, rotations[0]);
      StepIsSignedTurn(position, rotations[0]);
      TraceStaysOnDial(next, rotations[1..]);
    }
  }

  /** One more rotation adds exactly one to the password when it leaves the
      dial at 0, and nothing otherwise. */
  lemma {:induction false} ZeroLandingsAppend(position: int, rotations: seq<Rotation>, last: Rotation)
    ensures Final(position, rotations + [last]) == Step(Final(position, rotations), last)
    ensures ZeroLandings(position, rotations + [last]) ==
            ZeroLandings(position, rotations) + (if Step(Final(position, rotations), last) == 0 then 1 else 0)
    decreases |rotations|
  {
    if rotations != [] {
      assert (rotations + [last])[1..] == rotations[1..] + [last];
      ZeroLandingsAppend(Step(position, rotations[0]), rotations[1..], last);
    }
  }

  /** `door_password`: parse the input (any parse error is the result), then
      turn the dial and count the rotations that end at 0. */
  method DoorPassword(input: string) returns (r: Result<int, ParseError>)
    ensures ParseInput(input).Err? ==> r == Err(ParseInput(input).error)
    ensures ParseInput(input).Ok? ==> r == Ok(ZeroLandings(STARTING_POSITION, ParseInput(input).value))
  {
    var parsed := ParseInput(input);
    if parsed.Err? {
      return Err(parsed.error);
    }
    var password := TurnDial(parsed.value);
    return Ok(password);
  }

  /** The loop of `door_password`: turn the dial from 50 by each rotation in
      order, and count the rotations after which it points at 0. */
  method TurnDial(rotations: seq<Rotation>) returns (password: int)
    ensures password == ZeroLandings(STARTING_POSITION, rotations)
  {
    password := 0;
    var currentPosition := STARTING_POSITION;
    for i := 0 to |rotations|
      invariant currentPosition == Final(STARTING_POSITION, rotations[..i])
      invariant password == ZeroLandings(STARTING_POSITION, rotations[..i])
    {
      var rotation := rotations[i];
      ghost var before := currentPosition;
      match rotation {
        case Left(amount) =>
          var wrappedAmount := Rem(amount);
          if currentPosition - wrappedAmount < 0 {
            currentPosition := currentPosition - wrappedAmount + ROTATION_THRESHOLD;
          } else {
            currentPosition := currentPosition - wrappedAmount;
          }
        case Right(amount) =>
          currentPosition := Rem(currentPosition + amount);
      }
      assert currentPosition == Step(before, rotation);
      if currentPosition == 0 {
        password := password + 1;
      }
      assert rotations[..i + 1] == rotations[..i] + [rotation];
      ZeroLandingsAppend(STARTING_POSITION, rotations[..i], rotation);
    }
    assert rotations[..|rotations|] == rotations;
  }

  // ------------------------------------------------------------------ example

  const EXAMPLE_ROTATIONS: seq<Rotation> :=
    [Left(68), Left(30), Right(48), Left(5), Right(60), Left(55), Left(1), Left(99), Right(14), Left(82)]

  const EXAMPLE_LINES: seq<string> := ["L68", "L30", "R48", "L5", "R60", "L55", "L1", "L99", "R14", "L82"]

  /** The worked example of `main` as one text: the lines `L68` to `L82`, each
      followed by a line break except the last. */
  const EXAMPLE_INPUT: string := Join(EXAMPLE_LINES, '\n')

  /** The worked example holds one rotation per line. */
  lemma ExampleLines()
    ensures Lines(EXAMPLE_INPUT) == EXAMPLE_LINES
  {
    LinesOfJoin(EXAMPLE_LINES);
  }

  /** A direction letter followed by digits that parse as the amount is that rotation. */
  lemma ParsesTo(line: string, rotation: Rotation, digits: string)
    requires line == [if rotation.Left? then 'L' else 'R'] + digits
    requires ParseI64(digits) == Some(rotation.amount)
    ensures RotationFromStr(line) == Ok(rotation)
  {
    assert line[1..] == digits;
  }

  /** Each line of the worked example parses as the rotation it spells. */
  lemma ExampleLinesParse()
    ensures forall i :: 0 <= i < |EXAMPLE_LINES| ==> RotationFromStr(EXAMPLE_LINES[i]) == Ok(EXAMPLE_ROTATIONS[i])
  {
    ExampleLinesParse0();
    ExampleLinesParse4();
    ExampleLinesParse7();
  }

  lemma ExampleLinesParse0()
    ensures forall i :: 0 <= i < 4 ==> RotationFromStr(EXAMPLE_LINES[i]) == Ok(EXAMPLE_ROTATIONS[i])
  {
    ParseTwoDigits(6, 8);
    ParsesTo("L68", Left(68), [DigitChar(6), DigitChar(8)]);
    ParseTwoDigits(3, 0);
    ParsesTo("L30", Left(30), [DigitChar(3), DigitChar(0)]);
    ParseTwoDigits(4, 8);
    ParsesTo("R48", Right(48), [DigitChar(4), DigitChar(8)]);
    ParseOneDigit(5);
    ParsesTo("L5", Left(5), [DigitChar(5)]);
  }

  lemma ExampleLinesParse4()
    ensures forall i :: 4 <= i < 7 ==> RotationFromStr(EXAMPLE_LINES[i]) == Ok(EXAMPLE_ROTATIONS[i])
  {
    ParseTwoDigits(6, 0);
    ParsesTo("R60", Right(60), [DigitChar(6), DigitChar(0)]);
    ParseTwoDigits(5, 5);
    ParsesTo("L55", Left(55), [DigitChar(5), DigitChar(5)]);
    ParseOneDigit(1);
    ParsesTo("L1", Left(1), [DigitChar(1)]);
  }

  lemma ExampleLinesParse7()
    ensures forall i :: 7 <= i < 10 ==> RotationFromStr(EXAMPLE_LINES[i]) == Ok(EXAMPLE_ROTATIONS[i])
  {
    ParseTwoDigits(9, 9);
    ParsesTo("L99", Left(99), [DigitChar(9), DigitChar(9)]);
    ParseTwoDigits(1, 4);
    ParsesTo("R14", Right(14), [DigitChar(1), DigitChar(4)]);
    ParseTwoDigits(8, 2);
    ParsesTo("L82", Left(82), [DigitChar(8), DigitChar(2)]);
  }

  /** Text whose lines parse one by one as `rotations` parses as `rotations`. */
  lemma ParseInputOfLines(input: string, lines: seq<string>, rotations: seq<Rotation>)
    requires Lines(input) == lines && |lines| == |rotations|
    requires forall i :: 0 <= i < |lines| ==> RotationFromStr(lines[i]) == Ok(rotations[i])
    ensures ParseInput(input) == Ok(rotations)
  {
    var r := ParseInput(input);
    assert r.Ok?;
    assert r.value == rotations;
  }

  /** The worked example parses into its ten rotations, in order. */
  lemma ExampleParses()
    ensures ParseInput(EXAMPLE_INPUT) == Ok(EXAMPLE_ROTATIONS)
  {
    ExampleLines();
    ExampleLinesParse();
    ParseInputOfLines(EXAMPLE_INPUT, EXAMPLE_LINES, EXAMPLE_ROTATIONS);
  }

  /** Turned by the worked example, the dial stops at 0 three times: after
      R48, L55 and L99. */
  lemma ExamplePassword()
    ensures ZeroLandings(STARTING_POSITION, EXAMPLE_ROTATIONS) == 3
  {
    var rs := EXAMPLE_ROTATIONS;
    assert ZeroLandings(32, rs[10..]) == 0;
    assert rs[9..][1..] == rs[10..];
    assert Step(14, rs[9]) == 32;
    assert ZeroLandings(14, rs[9..]) == 0;
    assert rs[8..][1..] == rs[9..];
    assert Step(0, rs[8]) == 14;
    assert ZeroLandings(0, rs[8..]) == 0;
    assert rs[7..][1..] == rs[8..];
    assert Step(99, rs[7]) == 0;
    assert ZeroLandings(99, rs[7..]) == 1;
    assert rs[6..][1..] == rs[7..];
    assert Step(0, rs[6]) == 99;
    assert ZeroLandings(0, rs[6..]) == 1;
    assert rs[5..][1..] == rs[6..];
    assert Step(55, rs[5]) == 0;
    assert ZeroLandings(55, rs[5..]) == 2;
    assert rs[4..][1..] == rs[5..];
    assert Step(95, rs[4]) == 55;
    assert ZeroLandings(95, rs[4..]) == 2;
    assert rs[3..][1..] == rs[4..];
    assert Step(0, rs[3]) == 95;
    assert ZeroLandings(0, rs[3..]) == 2;
    assert rs[2..][1..] == rs[3..];
    assert Step(52, rs[2]) == 0;
    assert ZeroLandings(52, rs[2..]) == 3;
    assert rs[1..][1..] == rs[2..];
    assert Step(82, rs[1]) == 52;
    assert ZeroLandings(82, rs[1..]) == 3;
    assert rs[0..][1..] == rs[1..];
    assert Step(50, rs[0]) == 82;
    assert ZeroLandings(50, rs[0..]) == 3;
    assert rs[0..] == rs;
  }

  /** The check in `main`: the worked example parses, and its password is 3. */
  lemma ExampleDoorPassword()
    ensures ParseInput(EXAMPLE_INPUT) == Ok(EXAMPLE_ROTATIONS)
    ensures ZeroLandings(STARTING_POSITION, ParseInput(EXAMPLE_INPUT).value) == 3
  {
    ExampleParses();
    ExamplePassword();
  }
}
