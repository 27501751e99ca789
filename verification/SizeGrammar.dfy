/**
 The sizes that are accepted, as a grammar: what may be written where, what it
 amounts to, and which error is given for anything else.
 */
module SizeGrammar {
  import opened Text
  import opened Wrappers
  import opened Sizes

  /** The parts of a text that reads as a size. */
  datatype Reading = Reading(left: string, sign: string, digits: string, gap: string, unit: string, suffix: string,
                             right: string)

  function Number(r: Reading): string
  {
    r.sign + r.digits
  }

  function TextOf(r: Reading): string
  {
    r.left + (r.sign + r.digits + r.gap + r.unit + r.suffix) + r.right
  }

  const UNITS := {"", "k", "K", "m", "M", "g", "G"}

  const SUFFIXES := {"", "b", "B", "ib", "iB", "Ib", "IB"}

  ghost predicate WellFormed(r: Reading)
  {
    && IsBlank(r.left) && IsBlank(r.gap) && IsBlank(r.right)
    && r.sign in {"", "+", "-"} && |r.digits| > 0 && AllDigits(r.digits)
    && r.unit in UNITS && r.suffix in SUFFIXES
  }

  /** The text is a sign, digits, a unit and a suffix, with spaces around and between number and unit. */
  ghost predicate Reads(s: string, r: Reading)
  {
    WellFormed(r) && s == TextOf(r)
  }

  function Factor(unit: string): int
  {
    if unit in {"k", "K"} then 1024
    else if unit in {"m", "M"} then 1024 * 1024
    else if unit in {"g", "G"} then 1024 * 1024 * 1024
    else 1
  }

  /** What a reading comes to: the number has to fit 64 bits, must not be negative, and with a unit may reach 2^62. */
  function Judged(r: Reading): Result<int, SizeError>
    requires AllDigits(r.digits)
  {
    var n := Value(r.digits);
    if n > 0x8000_0000_0000_0000 || (n == 0x8000_0000_0000_0000 && r.sign != "-") then Err(NotASize)
    else if r.sign == "-" && n > 0 then Err(NegativeSize)
    else if r.unit != "" && n * Factor(r.unit) > 0x4000_0000_0000_0000 then Err(Overflows)
    else Ok(n * Factor(r.unit))
  }

  // ------------------------------------------------------------ digits

  function TenTo(k: nat): nat
  {
    if k == 0 then 1 else 10 * TenTo(k - 1)
  }

  /** A digit in front counts as many times as the power of ten of what follows it. */
  lemma {:induction false} ValueIsPositional(d: char, rest: string)
    requires IsDigit(d) && AllDigits(rest)
    ensures Value([d] + rest) == (d as int - 48) * TenTo(|rest|) + Value(rest)
  {
    var s := [d] + rest;
    if |rest| == 0 {
      assert s[..0] == "";
    } else {
      var front := rest[..|rest| - 1];
      assert s[..|s| - 1] == [d] + front;
      ValueIsPositional(d, front);
      Tenfold(d as int - 48, TenTo(|front|), Value(front), rest[|rest| - 1] as int - 48);
    }
  }

  lemma {:induction false} Tenfold(d: int, power: int, front: int, last: int)
    ensures (d * power + front) * 10 + last == d * (10 * power) + (front * 10 + last)
  {
  }

  lemma {:induction false} NumberParses(r: Reading)
    requires r.sign in {"", "+", "-"} && |r.digits| > 0 && AllDigits(r.digits)
    ensures var n := if r.sign == "-" then -Value(r.digits) else Value(r.digits);
            ParseInt(Number(r)) == if IsInt64(n) then Some(n) else None
    ensures IsLowerText(Number(r)) && Tight(Number(r)) && IsDigit(Number(r)[|Number(r)| - 1])
  {
    var s := Number(r);
    if r.sign == "" {
      assert s == r.digits;
      assert IsDigit(s[0]);
    } else {
      assert s[1..] == r.digits && s[0] == r.sign[0];
    }
    assert s[|s| - 1] == r.digits[|r.digits| - 1];
  }

  lemma {:induction false} ParsedIsNumber(s: string) returns (sign: string, digits: string)
    requires ParseInt(s).Some?
    ensures sign in {"", "+", "-"} && |digits| > 0 && AllDigits(digits) && s == sign + digits
  {
    if s[0] == '-' || s[0] == '+' {
      sign, digits := [s[0]], s[1..];
    } else {
      sign, digits := "", s;
    }
  }

  // ------------------------------------------------------------ what a reading comes to

  function UnitNamed(unit: string): Unit
  {
    if unit == "" then Byte else UnitOf(Lower(unit[0]))
  }

  lemma {:induction false} LowerUnit(unit: string)
    requires unit in UNITS
    ensures |ToLower(unit)| == |unit| <= 1
    ensures unit != "" ==> UnitNamed(unit) != Byte && ToLower(unit) == [Lower(unit[0])] && ToLower(unit)[0] != 'b'
    ensures unit == "" ==> ToLower(unit) == ""
    ensures InBytes(1, UnitNamed(unit)) == Factor(unit)
  {
  }

  lemma {:induction false} LowerSuffix(suffix: string)
    requires suffix in SUFFIXES
    ensures ToLower(suffix) == (if |suffix| == 0 then "" else if |suffix| == 1 then "b" else "ib")
  {
    if |suffix| == 2 {
      assert ToLower(suffix)[0] == 'i' && ToLower(suffix)[1] == 'b';
    }
  }

  /** A number, scaled by its unit, is judged as the reading is. */
  lemma {:induction false} ScaledIsJudged(r: Reading, body: string)
    requires WellFormed(r) && (body == Number(r) || body == Number(r) + r.gap)
    ensures Scaled(body, UnitNamed(r.unit)) == Judged(r)
  {
    NumberParses(r);
    BodyIsTrimmed(r, body);
    JudgedByUnit(r);
    NumberIsJudged(r, body);
  }

  lemma {:induction false} BodyIsTrimmed(r: Reading, body: string)
    requires WellFormed(r) && (body == Number(r) || body == Number(r) + r.gap)
    ensures TrimSpace(body) == Number(r)
  {
    NumberParses(r);
    TrimOfPadded(Number(r), r.gap);
    TightIsTrimmed(Number(r));
  }

  lemma {:induction false} NumberIsJudged(r: Reading, body: string)
    requires WellFormed(r) && TrimSpace(body) == Number(r)
    requires var n := if r.sign == "-" then -Value(r.digits) else Value(r.digits);
             ParseInt(Number(r)) == if IsInt64(n) then Some(n) else None
    requires var n, unit := Value(r.digits), UnitNamed(r.unit);
             && InBytes(n, unit) == n * Factor(r.unit) && (r.unit == "" <==> unit == Byte)
             && (r.unit != "" ==> (n > MostOf(unit) <==> n * Factor(r.unit) > 0x4000_0000_0000_0000))
    ensures Scaled(body, UnitNamed(r.unit)) == Judged(r)
  {
  }

  lemma {:induction false} JudgedByUnit(r: Reading)
    requires WellFormed(r)
    ensures var n, unit := Value(r.digits), UnitNamed(r.unit);
            && InBytes(n, unit) == n * Factor(r.unit) && (r.unit == "" <==> unit == Byte)
            && (r.unit != "" ==> (n > MostOf(unit) <==> n * Factor(r.unit) > 0x4000_0000_0000_0000))
  {
    LowerUnit(r.unit);
  }

  /** Without unit and suffix, the gap is part of the spaces behind. */
  lemma {:induction false} BareReading(r: Reading)
    requires WellFormed(r) && r.unit == "" && r.suffix == ""
    ensures Size(TextOf(r)) == Judged(r)
  {
    var num := Number(r);
    assert TextOf(r) == r.left + num + (r.gap + r.right);
    PaddingDoesNotMatter(r.left, num, r.gap + r.right);
    NumberParses(r);
    SizeWithoutUnit(num);
    ScaledIsJudged(r, num);
  }

  lemma {:induction false} WorkByUnit(work: string, last: char)
    requires |work| > 0 && work[|work| - 1] == last
    ensures SizeOfWork(work)
         == if UnitOf(last) == Byte then Scaled(work, Byte) else Scaled(work[..|work| - 1], UnitOf(last))
  {
  }

  lemma {:induction false} LastIsUnit(body: string, unit: char)
    requires UnitOf(unit) != Byte
    ensures SizeOfWork(body + [unit]) == Scaled(body, UnitOf(unit))
  {
    WorkByUnit(body + [unit], unit);
    assert (body + [unit])[..|body|] == body;
  }

  lemma {:induction false} WorkIsJudged(r: Reading)
    requires WellFormed(r)
    ensures SizeOfWork(Number(r) + r.gap + ToLower(r.unit)) == Judged(r)
  {
    var body := Number(r) + r.gap;
    ScaledIsJudged(r, body);
    LowerUnit(r.unit);
    if r.unit == "" {
      assert body + "" == body;
      BodyHasNoUnit(r);
    } else {
      LastIsUnit(body, Lower(r.unit[0]));
    }
  }

  lemma {:induction false} BodyHasNoUnit(r: Reading)
    requires WellFormed(r)
    ensures SizeOfWork(Number(r) + r.gap) == Scaled(Number(r) + r.gap, Byte)
  {
    LastIsNoUnit(r);
    WorkByUnit(Number(r) + r.gap, (Number(r) + r.gap)[|Number(r) + r.gap| - 1]);
  }

  lemma {:induction false} LastIsNoUnit(r: Reading)
    requires WellFormed(r)
    ensures var body := Number(r) + r.gap; |body| > 0 && UnitOf(body[|body| - 1]) == Byte
  {
    if r.gap == "" {
      assert (Number(r) + r.gap)[|Number(r) + r.gap| - 1] == r.digits[|r.digits| - 1];
    } else {
      assert (Number(r) + r.gap)[|Number(r) + r.gap| - 1] == r.gap[|r.gap| - 1];
    }
  }

  lemma {:induction false} LowerOfReading(r: Reading)
    requires WellFormed(r)
    ensures ToLower(r.sign + r.digits + r.gap + r.unit + r.suffix)
         == Number(r) + r.gap + ToLower(r.unit) + ToLower(r.suffix)
  {
    NumberParses(r);
    TrimLeaves(Number(r));
    BlankIsLower(r.gap);
    LowerOfBoth(r.sign + r.digits + r.gap + r.unit, r.suffix);
    LowerOfBoth(r.sign + r.digits + r.gap, r.unit);
    LowerOfBoth(r.sign + r.digits, r.gap);
  }

  lemma {:induction false} SuffixIsTaken(r: Reading)
    requires WellFormed(r) && (r.unit != "" || r.suffix != "")
    ensures var low := Number(r) + r.gap + ToLower(r.unit);
            WithoutB(low + ToLower(r.suffix)) == low
  {
    var low := Number(r) + r.gap + ToLower(r.unit);
    NumberParses(r);
    LowerUnit(r.unit);
    LowerSuffix(r.suffix);
    LastOfLow(r);
    if r.suffix == "" {
      assert low + "" == low;
      NoSuffix(low);
    } else {
      SuffixGoes(low, ToLower(r.suffix));
    }
  }

  lemma {:induction false} LastOfLow(r: Reading)
    requires WellFormed(r)
    ensures var low := Number(r) + r.gap + ToLower(r.unit);
            |low| > 0 && low[|low| - 1] != 'b' && low[|low| - 1] != 'i'
  {
    var low := Number(r) + r.gap + ToLower(r.unit);
    NumberParses(r);
    LowerUnit(r.unit);
    if r.unit != "" {
      assert low[|low| - 1] == Lower(r.unit[0]);
    } else if r.gap != "" {
      assert low[|low| - 1] == r.gap[|r.gap| - 1];
    } else {
      assert low[|low| - 1] == Number(r)[|Number(r)| - 1];
    }
  }

  lemma {:induction false} MarkedReading(r: Reading)
    requires WellFormed(r) && (r.unit != "" || r.suffix != "")
    ensures Size(TextOf(r)) == Judged(r)
  {
    var t := r.sign + r.digits + r.gap + r.unit + r.suffix;
    PaddingDoesNotMatter(r.left, t, r.right);
    MarkedIsTight(r);
    TightIsTrimmed(t);
    LowerOfReading(r);
    SuffixIsTaken(r);
    WorkIsJudged(r);
  }

  lemma {:induction false} MarkedIsTight(r: Reading)
    requires WellFormed(r) && (r.unit != "" || r.suffix != "")
    ensures Tight(r.sign + r.digits + r.gap + r.unit + r.suffix)
  {
    var t := r.sign + r.digits + r.gap + r.unit + r.suffix;
    NumberParses(r);
    assert t[0] == Number(r)[0];
    var last := if r.suffix != "" then r.suffix else r.unit;
    assert t[|t| - 1] == last[|last| - 1];
  }

  /** A text that reads as a size in some way is judged by that reading. */
  lemma {:induction false} ReadingDecides(s: string, r: Reading)
    requires Reads(s, r)
    ensures Size(s) == Judged(r)
  {
    if r.unit == "" && r.suffix == "" {
      BareReading(r);
    } else {
      MarkedReading(r);
    }
  }

  // ------------------------------------------------------------ what reads as a size

  /** Letters aside, lowering changes nothing. */
  lemma {:induction false} LowerChangesLetters(s: string)
    requires forall i | 0 <= i < |s| :: !('a' <= ToLower(s)[i] <= 'z')
    ensures ToLower(s) == s
  {
    forall i | 0 <= i < |s| ensures ToLower(s)[i] == s[i] {
      assert ToLower(s)[i] == Lower(s[i]);
    }
  }

  lemma {:induction false} LowerSplits(t: string, k: nat)
    requires k <= |t|
    ensures ToLower(t)[..k] == ToLower(t[..k]) && ToLower(t)[k..] == ToLower(t[k..])
  {
    assert t == t[..k] + t[k..];
    LowerOfBoth(t[..k], t[k..]);
  }

  lemma {:induction false} SuffixNamed(suffix: string)
    requires ToLower(suffix) in {"", "b", "ib"}
    ensures suffix in SUFFIXES
  {
    assert |ToLower(suffix)| == |suffix|;
    if |suffix| == 1 {
      assert Lower(suffix[0]) == 'b';
      assert suffix == [suffix[0]];
    } else if |suffix| == 2 {
      assert Lower(suffix[0]) == ToLower(suffix)[0] && Lower(suffix[1]) == ToLower(suffix)[1];
      assert suffix == [suffix[0], suffix[1]];
    }
  }

  lemma {:induction false} UnitOfChar(c: char)
    requires UnitOf(Lower(c)) != Byte
    ensures [c] in UNITS && [c] != ""
  {
  }

  /** Taking the suffix off the lowered text takes a suffix off the text. */
  lemma {:induction false} SuffixTaken(t: string) returns (work: string, suffix: string)
    ensures t == work + suffix && suffix in SUFFIXES && ToLower(work) == WithoutB(ToLower(t))
  {
    var low := ToLower(t);
    var k := WithoutBTakes(low);
    SuffixSplits(t, low, k);
    work, suffix := t[..k], t[k..];
  }

  lemma {:induction false} WithoutBTakes(low: string) returns (k: nat)
    ensures k <= |low| && WithoutB(low) == low[..k] && low[k..] in {"", "b", "ib"}
  {
    k := |WithoutB(low)|;
    assert low[|low|..] == "" && low[..|low|] == low;
  }

  lemma {:induction false} SuffixSplits(t: string, low: string, k: nat)
    requires low == ToLower(t) && k <= |low| && low[k..] in {"", "b", "ib"}
    ensures |t| == |low| && ToLower(t[..k]) == low[..k] && t == t[..k] + t[k..] && t[k..] in SUFFIXES
  {
    LowerSplits(t, k);
    SuffixNamed(t[k..]);
  }

  lemma {:induction false} LowerOfUnit(c: char)
    ensures ToLower([c]) == [Lower(c)]
  {
  }

  lemma {:induction false} WorkWithUnit(front: string, c: char)
    requires UnitOf(Lower(c)) != Byte
    ensures SizeOfWork(ToLower(front + [c])) == Scaled(ToLower(front), UnitOf(Lower(c)))
  {
    LowerOfBoth(front, [c]);
    LowerOfUnit(c);
    LastIsUnit(ToLower(front), Lower(c));
  }

  lemma {:induction false} WorkWithoutUnit(work: string)
    requires |work| > 0 && UnitOf(Lower(work[|work| - 1])) == Byte
    ensures SizeOfWork(ToLower(work)) == Scaled(ToLower(work), Byte)
  {
    WorkByUnit(ToLower(work), Lower(work[|work| - 1]));
  }

  /** Taking the unit off the lowered text takes a unit off the text. */
  lemma {:induction false} UnitTaken(work: string) returns (body: string, unit: string)
    requires |work| > 0
    ensures work == body + unit && unit in UNITS
    ensures SizeOfWork(ToLower(work)) == Scaled(ToLower(body), UnitNamed(unit))
  {
    var c := work[|work| - 1];
    if UnitOf(Lower(c)) == Byte {
      WorkWithoutUnit(work);
      body, unit := work, "";
    } else {
      UnitOfChar(c);
      body, unit := work[..|work| - 1], [c];
      assert work == body + [c];
      WorkWithUnit(body, c);
    }
  }

  lemma {:induction false} NumberHasNoLetters(left: string, number: string, gap: string)
    requires IsBlank(left) && IsBlank(gap) && ParseInt(number).Some?
    ensures var s := left + number + gap; forall i | 0 <= i < |s| :: !('a' <= s[i] <= 'z')
  {
  }

  /** What parses, between spaces, is a number: without letters, so that it was so before the lowering. */
  lemma {:induction false} NumberTaken(body: string) returns (left: string, sign: string, digits: string, gap: string)
    requires ParseInt(TrimSpace(ToLower(body))).Some?
    ensures body == left + (sign + digits) + gap && IsBlank(left) && IsBlank(gap)
    ensures sign in {"", "+", "-"} && |digits| > 0 && AllDigits(digits)
  {
    var low := ToLower(body);
    sign, digits := ParsedIsNumber(TrimSpace(low));
    left, gap := Pads(low);
    NumberHasNoLetters(left, TrimSpace(low), gap);
    LowerChangesLetters(body);
  }

  /** What is left of a text between its spaces, if it is more than a suffix, is read part by part. */
  lemma {:induction false} TightReads(t: string) returns (r: Reading)
    requires t != "" && WithoutB(ToLower(t)) != "" && SizeOfLower(ToLower(t)) != Err(NotASize)
    ensures WellFormed(r) && t == TextOf(r)
  {
    var work, suffix := SuffixTaken(t);
    assert |work| == |ToLower(work)|;
    var body, unit := UnitTaken(work);
    var pad, sign, digits, gap := NumberTaken(body);
    r := Reading(pad, sign, digits, gap, unit, suffix, "");
    assert t == pad + (sign + digits) + gap + unit + suffix;
    Regrouped(r);
  }

  lemma {:induction false} Regrouped(r: Reading)
    requires r.right == ""
    ensures r.left + (r.sign + r.digits) + r.gap + r.unit + r.suffix == TextOf(r)
  {
  }

  lemma {:induction false} Repadded(left: string, r: Reading, right: string)
    requires WellFormed(r) && IsBlank(left) && IsBlank(right)
    ensures Reads(left + TextOf(r) + right, r.(left := left + r.left, right := r.right + right))
  {
  }

  /** No more than a suffix between spaces. */
  ghost predicate IsSuffixOnly(s: string)
  {
    exists left, right, suffix ::
      IsBlank(left) && IsBlank(right) && suffix in SUFFIXES && suffix != "" && s == left + suffix + right
  }

  lemma {:induction false} SuffixOnly(left: string, suffix: string, right: string)
    requires IsBlank(left) && IsBlank(right) && suffix in SUFFIXES && suffix != ""
    ensures Size(left + suffix + right) == Err(NoNumber)
  {
    PaddingDoesNotMatter(left, suffix, right);
    LowerSuffix(suffix);
    SuffixOfNothing(suffix);
  }

  lemma {:induction false} BlankIsTrimmed(s: string)
    requires IsBlank(s)
    ensures TrimSpace(s) == ""
  {
    TrimOfPadded("", s);
    assert "" + s == s;
  }

  lemma {:induction false} TrimmedIsBlank(s: string)
    requires TrimSpace(s) == ""
    ensures IsBlank(s)
  {
    var left, right := Pads(s);
    assert s == left + right;
  }

  /** A text that is neither blank nor only a suffix is read in some way, or is no size. */
  lemma {:induction false} ReadingOf(s: string) returns (r: Reading)
    requires TrimSpace(s) != "" && Size(s) != Err(NotASize) && WithoutB(ToLower(TrimSpace(s))) != ""
    ensures Reads(s, r)
  {
    var left, right := Pads(s);
    var inner := TightReads(TrimSpace(s));
    Repadded(left, inner, right);
    r := inner.(left := left + inner.left, right := inner.right + right);
  }

  lemma {:induction false} BareSuffix(s: string)
    requires TrimSpace(s) != "" && WithoutB(ToLower(TrimSpace(s))) == ""
    ensures IsSuffixOnly(s)
  {
    var left, right := Pads(s);
    var work, suffix := SuffixTaken(TrimSpace(s));
    assert |work| == |ToLower(work)|;
    assert TrimSpace(s) == suffix;
  }

  /**
   Every text: blank text is 0; a suffix alone has no number; a text that reads as a size
   in some way is judged by that reading; and nothing else is a size.
   */
  lemma {:induction false} SizeIs(s: string)
    ensures IsBlank(s) ==> Size(s) == Ok(0)
    ensures IsSuffixOnly(s) ==> Size(s) == Err(NoNumber)
    ensures forall r | Reads(s, r) :: Size(s) == Judged(r)
    ensures !IsBlank(s) && !IsSuffixOnly(s) && (forall r :: !Reads(s, r)) ==> Size(s) == Err(NotASize)
  {
    if IsBlank(s) {
      BlankIsTrimmed(s);
    }
    if IsSuffixOnly(s) {
      var left, right, suffix :|
        IsBlank(left) && IsBlank(right) && suffix in SUFFIXES && suffix != "" && s == left + suffix + right;
      SuffixOnly(left, suffix, right);
    }
    forall r | Reads(s, r) ensures Size(s) == Judged(r) {
      ReadingDecides(s, r);
    }
    if !IsBlank(s) && !IsSuffixOnly(s) && Size(s) != Err(NotASize) {
      if TrimSpace(s) == "" {
        TrimmedIsBlank(s);
        assert false;
      } else if WithoutB(ToLower(TrimSpace(s))) == "" {
        BareSuffix(s);
      } else {
        var r := ReadingOf(s);
      }
    }
  }

  // ------------------------------------------------------------ printing

  /** No digit is written that could be left out. */
  predicate IsShortest(digits: string)
  {
    |digits| > 1 ==> digits[0] != '0'
  }

  lemma {:induction false} DecimalIsShortest(n: nat)
    ensures IsShortest(Decimal(n)) && (n > 0 ==> Decimal(n)[0] != '0')
  {
    if n >= 10 {
      DecimalIsShortest(n / 10);
      DecimalIsExact(n / 10);
    }
  }

  /** The largest unit that is in the number a whole number of times. */
  predicate IsLargestUnit(unit: string, b: int)
  {
    && unit in {"", "k", "m", "g"} && (unit != "" ==> b >= Factor(unit)) && b % Factor(unit) == 0
    && (forall u | u in {"k", "m", "g"} && Factor(u) <= b && b % Factor(u) == 0 :: Factor(u) <= Factor(unit))
  }

  /** A number is printed in its largest unit, in small letters, with no digit too many. */
  lemma {:induction false} FormatIs(b: int) returns (sign: string, digits: string, unit: string)
    ensures FormatSize(b) == sign + digits + unit && sign == if b < 0 then "-" else ""
    ensures |digits| > 0 && AllDigits(digits) && IsShortest(digits) && IsLargestUnit(unit, b)
    ensures Value(digits) * Factor(unit) == if b < 0 then -b else b
  {
    UnitForIsLargest(b);
    sign, unit := if b < 0 then "-" else "", UnitFor(b);
    var n := UnitsIn(b);
    digits := Decimal(n);
    DecimalIsExact(n);
    DecimalIsShortest(n);
    FormatParts(b);
  }

  function UnitsIn(b: int): nat
  {
    if b < 0 then -b else b / Factor(UnitFor(b))
  }

  lemma {:induction false} FormatParts(b: int)
    ensures FormatSize(b) == (if b < 0 then "-" else "") + Decimal(UnitsIn(b)) + UnitFor(b)
  {
    var text := Decimal(UnitsIn(b));
    assert "" + text == text && text + "" == text && "-" + text + "" == "-" + text;
  }

  function UnitFor(b: int): string
  {
    if b >= GIB && b % GIB == 0 then "g" else if b >= MIB && b % MIB == 0 then "m"
    else if b >= KIB && b % KIB == 0 then "k" else ""
  }

  lemma {:induction false} UnitForIsLargest(b: int)
    ensures IsLargestUnit(UnitFor(b), b) && (b < 0 ==> UnitFor(b) == "")
    ensures b >= 0 ==> b / Factor(UnitFor(b)) * Factor(UnitFor(b)) == b
  {
  }
}
