# Advent of Code solvers, days 1 to 3

A model of three small puzzle solvers. Each one reads a text input, parses it
line by line or token by token into typed records (the first malformed item
aborts with an error carrying that item), then scans the records:

- **Day 1** (`day01.dfy`). Each line is a rotation `L<n>` or `R<n>`. A dial
  numbered 0 to 99 starts at 50. The password is the number of rotations
  after which the dial points at 0.
- **Day 2** (`day02.dfy`). The input is a comma-separated list of ranges
  `start-end`. An ID is invalid when its decimal form is a block of digits
  written twice. The answer is the sum of the invalid IDs over all ranges.
- **Day 3** (`day03.dfy`). Each line is a bank of single-digit batteries. A
  bank's joltage is the largest two-digit number made from a battery and a
  later battery. The answer is the sum of the joltages.

Two shared modules hold the pieces of Rust's standard library that the solvers
use. `results.dfy` has `Option`, `Result` and `Collect`, which is
`Iterator::collect` into a `Result`. `text.dfy` has ASCII string handling:
`str::split`, `str::split_once`, `str::lines`, `str::parse::<i64>` and
`i64::to_string`.

The loops of the source are methods proved against specification functions:

- `Day01.TurnDial` is the loop of `door_password`.
- `Day02.ScanInvalidId` is the loop of `is_invalid_id`.
- `Day03.FromStr` is the character loop of `BatteryBank::from_str`.
- `Day03.BankJoltage` is the nested loop of `joltage`.

Rust's integer `%` truncates toward zero. It is written out as `Day01.Rem`.

The day 2 check compares `s[..size]` with the whole rest `s[size..]`, so only
the size that halves the string can match: `Day02.InvalidIffEqualHalves`. This
is narrower than testing whether some block `s[0..k]` equals `s[k..2k]`.
`Day02.RepeatedBlockIsNotEnough` shows `1121`, on which the two differ.

## Model

| member | source | states |
|---|---|---|
| Results.Collect | day01/src/main.rs:52 | Collecting per-item parses succeeds iff every item parses; the values are then one per item, in order; otherwise the error is that of the first item that fails |
| Text.IndexOf | day02/src/main.rs:53 | The first position of a character: absent iff the character does not occur, and no earlier occurrence |
| Text.SplitOn | day02/src/main.rs:65 | `split` yields at least one piece, no piece holds the separator, and joining the pieces with the separator gives the text back |
| Text.SplitOnJoin | day02/src/main.rs:65 | Splitting pieces that were joined with a separator they do not contain gives the pieces back |
| Text.SplitOnce | day02/src/main.rs:53 | `split_once` fails iff the separator is absent; otherwise the text is the part before, the separator and the part after, and the part before holds no separator |
| Text.StripEach | day01/src/main.rs:52 | Each line ending in `\r\n` loses its `\r`, line by line and nothing else |
| Text.Lines | day01/src/main.rs:52 | `str::lines` (also used at day03/src/main.rs:54): empty text has no lines; `LinesOfJoin` gives the lines of any text built from lines |
| Text.Join | day02/src/main.rs:65 | The inverse of `split`: `SplitOn` joins back to its text and `SplitOnJoin` splits a join back into its pieces |
| Text.LinesOfJoin | day01/src/main.rs:52 | Text made of lines without line-ending characters, the last non-empty, reads back through `lines` as exactly those lines |
| Text.ParseI64 | day01/src/main.rs:41 | `parse::<i64>` accepts a text only when it is an optional `+` or `-` followed by one or more digits, and then returns their value, negated after a `-`, in the `i64` range; conversely every such text whose value fits is accepted |
| Text.ParseSigned | day01/src/main.rs:41 | No sign, `+` or `-` followed by digits whose value fits parses as that signed value |
| Text.ParseTwoDigits | day03/src/main.rs:26-28 | Two digits written side by side parse as the two-digit number they spell |
| Text.NatDigits | day02/src/main.rs:38 | The decimal digits of a natural number are digits, have that value, and have no leading zero |
| Text.Decimal | day02/src/main.rs:38 | `to_string` starts with `-` iff the number is negative; a non-negative number is its digits, of that value, with no leading zero unless it is `0`; a negative one is `-` then the digits of its magnitude, with no leading zero |
| Text.DecimalParses | day02/src/main.rs:38 | Parsing the decimal form of any `i64` gives the number back |
| Day01.RotationFromStr | day01/src/main.rs:35-48 | A line shorter than 2 is an error; a line is accepted iff it starts with `L` or `R` and the rest parses as an `i64`, giving a left or right rotation by that amount; every error carries the whole line |
| Day01.FormatRotation | day01/src/main.rs:35-48 | A rotation as the input writes it: the direction letter, then the amount's decimal form |
| Day01.FormatRotationParses | day01/src/main.rs:35-48 | A rotation by any `i64` amount, written as `L<n>` or `R<n>`, parses back to itself |
| Day01.AcceptedRotationRoundTrips | day01/src/main.rs:35-48 | Every accepted line, rewritten, is accepted again as the same rotation |
| Day01.ParseInput | day01/src/main.rs:51-53 | One rotation per line, in order, or the error of the first malformed line |
| Day01.Rem | day01/src/main.rs:60 | Rust's truncating `amount % 100`; `RemIsTruncated` characterises it |
| Day01.RemIsTruncated | day01/src/main.rs:60 | Rust's `% 100` lies strictly between -100 and 100, keeps the sign of the dividend and agrees with it modulo 100 |
| Day01.Step | day01/src/main.rs:59-68 | One turn of the dial, both branches as the loop writes them; `LeftStepWraps`, `RightStepWraps`, `StepIsSignedTurn` and `NegativeAmountsLeaveTheDial` characterise it |
| Day01.LeftStepWraps | day01/src/main.rs:59-65 | From a dial position, a left turn by a non-negative amount lands on `(position - amount) mod 100`, in 0..99 |
| Day01.RightStepWraps | day01/src/main.rs:66-67 | From a dial position, a right turn by a non-negative amount lands on `(position + amount) mod 100`, in 0..99 |
| Day01.StepIsSignedTurn | day01/src/main.rs:59-68 | Both branches are one rule for non-negative amounts: add the signed amount and reduce modulo 100 |
| Day01.NegativeAmountsLeaveTheDial | day01/src/main.rs:59-68 | The accepted negative amounts can move the dial off 0..99 (`L-5` from 99 gives 104, `R-5` from 0 gives -5) |
| Day01.Final | day01/src/main.rs:57-68 | Where the dial ends: the start when there is no rotation, otherwise the last position visited |
| Day01.Trace | day01/src/main.rs:58-68 | One visited position per rotation |
| Day01.ZeroLandings | day01/src/main.rs:70-72 | The password never exceeds the number of rotations |
| Day01.ZeroLandingsCountsZeros | day01/src/main.rs:55-76 | The password is the number of times 0 occurs among the positions visited after each rotation |
| Day01.TraceSteps | day01/src/main.rs:58-68 | Each visited position is one turn away from the one before it, starting from the start position |
| Day01.TraceStaysOnDial | day01/src/main.rs:58-68 | Starting on the dial and turned by non-negative amounts, the dial never leaves 0..99 |
| Day01.ZeroLandingsAppend | day01/src/main.rs:70-72 | One more rotation adds exactly one to the password when it ends at 0, and nothing otherwise |
| Day01.DoorPassword | day01/src/main.rs:55-76 | A parse error is returned as it is; otherwise the result is the number of rotations, from 50, that end at 0 |
| Day01.TurnDial | day01/src/main.rs:56-73 | The loop counts exactly the rotations, taken in order from 50, after which the dial points at 0 |
| Day01.ExampleLines | day01/src/main.rs:79 | The worked example splits into its ten lines `L68` … `L82` |
| Day01.ExampleLinesParse | day01/src/main.rs:79 | Each of those lines parses as the rotation it spells |
| Day01.ParseInputOfLines | day01/src/main.rs:51-53 | Text whose lines parse one by one as some rotations parses as those rotations |
| Day01.ExampleParses | day01/src/main.rs:79 | The worked example parses into its ten rotations |
| Day01.ExamplePassword | day01/src/main.rs:79-81 | Those rotations leave the dial at 0 three times |
| Day01.ExampleDoorPassword | day01/src/main.rs:79-81 | The worked example parses, and its password is 3 |
| Day02.IsInvalidId | day02/src/main.rs:22-32 | `is_invalid_id` as a predicate: some size from 1 to half the length has its prefix equal to the rest; `InvalidIffEqualHalves` characterises it |
| Day02.ScanInvalidId | day02/src/main.rs:22-32 | The loop over block sizes answers true iff some size from 1 to half the length has its prefix equal to the rest |
| Day02.InvalidIffEqualHalves | day02/src/main.rs:22-32 | An ID is invalid iff its length is even and its two halves are equal |
| Day02.OddLengthIsValid | day02/src/main.rs:26-30 | No ID of odd length, so no single digit, is invalid |
| Day02.DoubledBlockIsInvalid | day02/src/main.rs:26-30 | Any non-empty block written twice is invalid |
| Day02.InvalidExamples | day02/src/main.rs:26-30 | `1212` and `55` are invalid; `1121` is not |
| Day02.InvalidStartsWithRepeatedBlock | day02/src/main.rs:26-30 | Every invalid ID starts with a block repeated right after itself |
| Day02.RepeatedBlockIsNotEnough | day02/src/main.rs:26-30 | A block repeated at the start does not make an ID invalid (`1121`) |
| Day02.IsInvalidNumber | day02/src/main.rs:38 | The filter of `invalid_sum`, `is_invalid_id` of the ID's decimal form; `NegativeIdIsValid` and `RepeatedDigitIsInvalid` are about it |
| Day02.NegativeIdIsValid | day02/src/main.rs:38 | The decimal form of a negative ID is never invalid |
| Day02.InvalidSum | day02/src/main.rs:35-40 | `invalid_sum`: the sum over the range of the invalid IDs; `EmptyRangeSum`, `SingleIdRangeSum`, `SumInvalidSplit`, `SumInvalidNonNegative` and `SumInvalidNone` characterise it |
| Day02.SumInvalid | day02/src/main.rs:35-40 | The sum of the invalid IDs from `lo` to `hi`, the range `InvalidSum` sums over |
| Day02.EmptyRangeSum | day02/src/main.rs:35-40 | A range whose start exceeds its end sums to 0 |
| Day02.SingleIdRangeSum | day02/src/main.rs:35-40 | A one-ID range sums to the ID if it is invalid, and to 0 otherwise |
| Day02.SumInvalidSplit | day02/src/main.rs:35-40 | Cutting a range in two splits its sum |
| Day02.SumInvalidNonNegative | day02/src/main.rs:35-40 | Every range sum is at least 0 |
| Day02.SumInvalidNone | day02/src/main.rs:35-40 | A range without invalid IDs sums to 0 |
| Day02.RangeFromStr | day02/src/main.rs:52-61 | A token without `-` is an error, and every error carries the whole token |
| Day02.RangeFromStrAccepts | day02/src/main.rs:52-61 | A token is accepted iff the text before its first `-` and the text after it both parse as `i64`; those are the bounds, in that order, not compared |
| Day02.LeadingDashRejected | day02/src/main.rs:53-55 | A token starting with `-` is an error, since its start text is empty |
| Day02.FormatRange | day02/src/main.rs:52-61 | A range as the input writes it, `start-end`; `FormatRangeParses` shows `RangeFromStr` inverts it |
| Day02.FormatRangeParses | day02/src/main.rs:52-61 | A range with a non-negative start, written as `start-end`, parses back to itself |
| Day02.ParseInput | day02/src/main.rs:64-66 | One range per comma-separated token, in order, or the error of the first malformed token |
| Day02.TotalCountInvalidIds | day02/src/main.rs:68-70 | The total is never negative |
| Day02.TotalOfConcat | day02/src/main.rs:68-70 | The total over two lists of ranges is the sum of their totals |
| Day02.ExampleRange | day02/src/main.rs:35-40 | The range 11-22 sums to 33 (the IDs 11 and 22) |
| Day02.ExampleRangeMiddle | day02/src/main.rs:35-40 | No ID from 12 to 21 is invalid, so they sum to 0 |
| Day02.RepeatedDigitIsInvalid | day02/src/main.rs:26-30 | `11`, `22`, ..., `99` are invalid |
| Day02.TwoDigitDecimal | day02/src/main.rs:38 | The decimal form of a two-digit number is its two digits |
| Day03.ParseBattery | day03/src/main.rs:43 | A character parses as a battery iff it is an ASCII digit, and then as that digit's value |
| Day03.BankDigits | day03/src/main.rs:41-47 | A line gives digits iff every character is a digit; they are then the values of its characters, in order |
| Day03.BankFromStr | day03/src/main.rs:40-50 | A line is a bank iff every character is a digit, holding those digits in order; otherwise the error carries the whole line |
| Day03.FromStr | day03/src/main.rs:40-50 | The character loop, with its early error return, gives exactly `BankFromStr` |
| Day03.EmptyLineIsEmptyBank | day03/src/main.rs:40-50 | An empty line is an empty bank |
| Day03.ParseInput | day03/src/main.rs:53-55 | One bank per line, in order, or the error of the first malformed line |
| Day03.PairJoltage | day03/src/main.rs:26-28 | Writing two batteries side by side and parsing the text gives `10 * first + second` |
| Day03.PairsFrom | day03/src/main.rs:24-30 | One value is pushed for each later battery |
| Day03.PairJoltages | day03/src/main.rs:23-31 | All values the nested loops push, row by row; `PairJoltagesMembers` characterises them |
| Day03.PairJoltagesMembers | day03/src/main.rs:23-31 | The pushed values are exactly the two-digit numbers of pairs `i < j` |
| Day03.PairsFromMembers | day03/src/main.rs:24-30 | The values pushed for one battery are exactly its two-digit numbers with each later battery |
| Day03.Max | day03/src/main.rs:33 | The maximum is one of the values and no value exceeds it |
| Day03.Joltage | day03/src/main.rs:21-34 | `joltage`: the largest pushed value, or 0; `JoltageBoundsPairs` and `JoltageIsSomePair` characterise it as the best pair |
| Day03.JoltageBoundsPairs | day03/src/main.rs:21-34 | The joltage is at least the two-digit number of every pair `i < j` |
| Day03.JoltageIsSomePair | day03/src/main.rs:21-34 | With two batteries or more, the joltage is the two-digit number of some pair `i < j` |
| Day03.JoltageOfShortBank | day03/src/main.rs:33 | A bank of fewer than two batteries has joltage 0 |
| Day03.JoltageRange | day03/src/main.rs:21-34 | Every joltage lies in 0..99 |
| Day03.BankJoltage | day03/src/main.rs:21-34 | The nested loops followed by the maximum compute the joltage |
| Day03.TotalOutputJoltage | day03/src/main.rs:57-59 | The total lies between 0 and 99 per bank |
| Day03.TotalOfConcat | day03/src/main.rs:57-59 | The total over two lists of banks is the sum of their totals |
| Day03.ExampleBankParses | day03/src/main.rs:72 | The line `818181911112111` parses as its fifteen batteries |
| Day03.ExampleJoltage | day03/src/main.rs:71-75 | That bank's joltage is 92 |

## Left out

- Reading the bundled input file, `main`, printing the answer and the `unwrap` panics are I/O. `main`'s check on the day 1 example is kept as `Day01.ExampleDoorPassword`.
- The `Display` and `Error` implementations of the three `ParseError` types only format a message. The model keeps the payload, the offending text.
- `From<RangeInclusive<i64>>` for `IdRange` only wraps the range. The model builds `IdRange` directly.
- Day01.Step: does not model `i64` overflow of `position + amount` or `position - amount`. The model uses unbounded integers; Rust would panic or wrap for amounts near the `i64` limits.
- Day02.SumInvalid: does not model `i64` overflow of the sum or the time taken by a huge range.
- Day02.TotalCountInvalidIds: does not model `i64` overflow of the total. Its contract states only that the total is not negative.
- Day03.TotalOutputJoltage: does not model `i64` overflow of the total.
- Non-ASCII text: text is treated as a sequence of ASCII characters, so byte lengths (`s.len()`), `split_at(1)` and its panic on a non-ASCII first character are not modelled.
- Day01.LeftStepWraps, Day01.RightStepWraps, Day01.StepIsSignedTurn and Day01.TraceStaysOnDial: these hold only for non-negative amounts. The parser accepts negative ones, and `Day01.NegativeAmountsLeaveTheDial` shows that those leave the dial.
- Day02.ScanInvalidId: requires a non-empty string, as the `assert!` of `is_invalid_id` does. The empty string is not an `i64`'s decimal form, so the panic path is unreachable from `invalid_sum`.
- Day03.BatteryBank holds `Digit`s (0..9) rather than `u8`s, because `parse::<u8>` on one character only ever yields a digit.
