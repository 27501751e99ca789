/** Memory sizes as operators write them: parsing, printing, and how far one undoes the other. */
module Sizes {
  import opened Text
  import opened Wrappers

  const KIB: int := 0x400
  const MIB: int := 0x10_0000
  const GIB: int := 0x4000_0000
  const TWO_62: int := 0x4000_0000_0000_0000
  const TWO_63: int := 0x8000_0000_0000_0000

  predicate IsInt64(n: int)
  {
    -TWO_63 <= n < TWO_63
  }

  datatype SizeError = NoNumber | NotASize | NegativeSize | Overflows

  // ------------------------------------------------------------ decimal numbers

  predicate IsDigit(c: char)
  {
    '0' <= c <= '9'
  }

  function Digit(d: nat): (c: char)
    requires d < 10
    ensures IsDigit(c)
  {
    ('0' as int + d) as char
  }

  predicate AllDigits(s: string)
  {
    forall i | 0 <= i < |s| :: IsDigit(s[i])
  }

  function Value(s: string): (n: int)
    requires AllDigits(s)
    ensures n >= 0
  {
    if |s| == 0 then 0 else Value(s[..|s| - 1]) * 10 + (s[|s| - 1] as int - '0' as int)
  }

  function Decimal(n: nat): string
  {
    if n < 10 then [Digit(n)] else Decimal(n / 10) + [Digit(n % 10)]
  }

  /** strconv.ParseInt in base 10 and 64 bits. */
  function ParseInt(s: string): (r: Option<int>)
    ensures r.Some? ==> IsInt64(r.value)
  {
    if |s| == 0 then None
    else
      var digits := if s[0] == '-' || s[0] == '+' then s[1..] else s;
      if |digits| == 0 || !AllDigits(digits) then None
      else
        var n: int := if s[0] == '-' then -Value(digits) else Value(digits);
        if IsInt64(n) then Some(n) else None
  }

  function FormatInt(b: int): string
  {
    if b < 0 then "-" + Decimal(-b) else Decimal(b)
  }

  lemma {:induction false} DecimalIsExact(n: nat)
    ensures |Decimal(n)| > 0 && AllDigits(Decimal(n)) && Value(Decimal(n)) == n
  {
    if n >= 10 {
      DecimalIsExact(n / 10);
      assert Decimal(n)[..|Decimal(n)| - 1] == Decimal(n / 10);
    }
  }

  lemma ParseIntUndoesFormat(b: int)
    requires IsInt64(b)
    ensures ParseInt(FormatInt(b)) == Some(b)
  {
    if b < 0 {
      DecimalIsExact(-b);
      assert FormatInt(b)[1..] == Decimal(-b);
    } else {
      DecimalIsExact(b);
      assert IsDigit(Decimal(b)[0]);
    }
  }

  // ------------------------------------------------------------ sizes

  predicate HasSuffix(s: string, suffix: string)
  {
    |s| >= |suffix| && s[|s| - |suffix|..] == suffix
  }

  function TrimSuffix(s: string, suffix: string): string
  {
    if HasSuffix(s, suffix) then s[..|s| - |suffix|] else s
  }

  /** The optional "b" or "ib" that may end a size. */
  function WithoutB(s: string): string
  {
    if HasSuffix(s, "ib") then TrimSuffix(s, "ib") else TrimSuffix(s, "b")
  }

  datatype Unit = Byte | Kib | Mib | Gib

  function UnitOf(c: char): Unit
  {
    if c == 'k' then Kib else if c == 'm' then Mib else if c == 'g' then Gib else Byte
  }

  function InBytes(n: int, unit: Unit): int
  {
    match unit
    case Byte => n
    case Kib => n * KIB
    case Mib => n * MIB
    case Gib => n * GIB
  }

  /** The largest number of units that is accepted. */
  function MostOf(unit: Unit): int
  {
    match unit
    case Byte => TWO_63 - 1
    case Kib => TWO_62 / KIB
    case Mib => TWO_62 / MIB
    case Gib => TWO_62 / GIB
  }

  /** A number without its unit, scaled. */
  function Scaled(number: string, unit: Unit): Result<int, SizeError>
  {
    match ParseInt(TrimSpace(number))
    case None => Err(NotASize)
    case Some(n) =>
      if n < 0 then Err(NegativeSize)
      else if n > MostOf(unit) then Err(Overflows)
      else Ok(InBytes(n, unit))
  }

  function SizeOfLower(lower: string): Result<int, SizeError>
  {
    SizeOfWork(WithoutB(lower))
  }

  function SizeOfWork(work: string): Result<int, SizeError>
  {
    if |work| == 0 then Err(NoNumber)
    else
      var unit := UnitOf(work[|work| - 1]);
      Scaled(if unit == Byte then work else work[..|work| - 1], unit)
  }

  function Size(s: string): Result<int, SizeError>
  {
    if TrimSpace(s) == "" then Ok(0) else SizeOfLower(ToLower(TrimSpace(s)))
  }

  method ParseSize(s: string) returns (r: Result<int, SizeError>)
    ensures r == Size(s)
  {
    var orig := TrimSpace(s);
    if orig == "" {
      return Ok(0);
    }
    var work := ToLower(orig);
    var trimmed := TrimSuffix(work, "ib");
    if trimmed != work {
      work := trimmed;
    } else {
      work := TrimSuffix(work, "b");
    }
    if work == "" {
      return Err(NoNumber);
    }
    var mult := Byte;
    match work[|work| - 1] {
      case 'k' => mult, work := Kib, work[..|work| - 1];
      case 'm' => mult, work := Mib, work[..|work| - 1];
      case 'g' => mult, work := Gib, work[..|work| - 1];
      case _ =>
    }
    var n := ParseInt(TrimSpace(work));
    if n.None? {
      return Err(NotASize);
    }
    if n.value < 0 {
      return Err(NegativeSize);
    }
    if mult != Byte && n.value > MostOf(mult) {
      return Err(Overflows);
    }
    return Ok(InBytes(n.value, mult));
  }

  function FormatSize(b: int): string
  {
    if b >= GIB && b % GIB == 0 then Decimal(b / GIB) + "g"
    else if b >= MIB && b % MIB == 0 then Decimal(b / MIB) + "m"
    else if b >= KIB && b % KIB == 0 then Decimal(b / KIB) + "k"
    else FormatInt(b)
  }

  // ------------------------------------------------------------ text that is left alone

  predicate IsLowerText(s: string)
  {
    forall i | 0 <= i < |s| :: !IsSpace(s[i]) && !('A' <= s[i] <= 'Z')
  }

  lemma {:induction false} TrimLeaves(s: string)
    requires IsLowerText(s)
    ensures TrimSpace(s) == s && ToLower(s) == s
  {
  }

  /** Printed text goes through the trimming and lower-casing unchanged. */
  lemma SizeOfPlain(s: string)
    requires |s| > 0 && IsLowerText(s)
    ensures Size(s) == SizeOfLower(s)
  {
    TrimLeaves(s);
  }

  lemma SizeOfNumber(s: string, n: int)
    requires ParseInt(s) == Some(n) && IsLowerText(s)
    ensures Size(s) == if n < 0 then Err(NegativeSize) else Ok(n)
  {
    EndsInDigit(s);
    SizeWithoutUnit(s);
    TrimLeaves(s);
  }

  lemma SizeWithoutUnit(s: string)
    requires |s| > 0 && IsLowerText(s) && IsDigit(s[|s| - 1])
    ensures Size(s) == Scaled(s, Byte)
  {
    SizeOfPlain(s);
    NoSuffix(s);
    DigitIsNoUnit(s);
  }

  lemma DigitIsNoUnit(work: string)
    requires |work| > 0 && IsDigit(work[|work| - 1])
    ensures SizeOfWork(work) == Scaled(work, Byte)
  {
  }

  lemma EndsInDigit(s: string)
    requires ParseInt(s).Some?
    ensures |s| > 0 && IsDigit(s[|s| - 1])
  {
  }

  lemma {:induction false} SizeWithUnit(n: nat, c: char)
    requires IsInt64(n) && UnitOf(c) != Byte
    ensures Size(Decimal(n) + [c]) == if n > MostOf(UnitOf(c)) then Err(Overflows) else Ok(InBytes(n, UnitOf(c)))
  {
    DecimalIsExact(n);
    ParseIntUndoesFormat(n);
    SizeOfDigits(Decimal(n), n, c);
  }

  lemma {:induction false} SizeOfDigits(digits: string, n: nat, c: char)
    requires AllDigits(digits) && ParseInt(digits) == Some(n) && UnitOf(c) != Byte
    ensures Size(digits + [c]) == if n > MostOf(UnitOf(c)) then Err(Overflows) else Ok(InBytes(n, UnitOf(c)))
  {
    DigitsAreLower(digits);
    TrimLeaves(digits);
    SizeIsScaled(digits, c);
  }

  lemma {:induction false} SizeIsScaled(number: string, c: char)
    requires IsLowerText(number) && UnitOf(c) != Byte
    ensures Size(number + [c]) == Scaled(number, UnitOf(c))
  {
    var s := number + [c];
    assert s[|s| - 1] == c && s[..|s| - 1] == number;
    SizeOfPlain(s);
    NoSuffix(s);
  }

  lemma {:induction false} DigitsAreLower(digits: string)
    requires AllDigits(digits)
    ensures IsLowerText(digits)
  {
  }

  /** Printing and parsing a size gives it back exactly when it is not negative and, if a unit is printed, at most 2^62. */
  lemma RoundTripIff(b: int)
    requires IsInt64(b)
    ensures Size(FormatSize(b)) == Ok(b) <==> 0 <= b && (b <= TWO_62 || b % KIB != 0)
  {
    if b >= GIB && b % GIB == 0 {
      UnitRoundTrip(b, 'g');
    } else if b >= MIB && b % MIB == 0 {
      UnitRoundTrip(b, 'm');
    } else if b >= KIB && b % KIB == 0 {
      UnitRoundTrip(b, 'k');
    } else {
      ParseIntUndoesFormat(b);
      FormatIntIsLower(b);
      SizeOfNumber(FormatInt(b), b);
    }
  }

  lemma FormatIntIsLower(b: int)
    ensures IsLowerText(FormatInt(b))
  {
    DecimalIsExact(if b < 0 then -b else b);
  }

  lemma UnitRoundTrip(b: int, c: char)
    requires IsInt64(b) && UnitOf(c) != Byte && b >= InBytes(1, UnitOf(c)) && b % InBytes(1, UnitOf(c)) == 0
    ensures b % KIB == 0
    ensures Size(Decimal(b / InBytes(1, UnitOf(c))) + [c]) == Ok(b) <==> b <= TWO_62
  {
    UnitDivides(b, UnitOf(c));
    SizeWithUnit(b / InBytes(1, UnitOf(c)), c);
  }

  lemma {:induction false} UnitDivides(b: int, unit: Unit)
    requires IsInt64(b) && unit != Byte && b >= InBytes(1, unit) && b % InBytes(1, unit) == 0
    ensures var n := b / InBytes(1, unit);
            b % KIB == 0 && IsInt64(n) && InBytes(n, unit) == b && (n > MostOf(unit) <==> b > TWO_62)
  {
    match unit
    case Kib => UnitIsKib(b / KIB, 1);
    case Mib => UnitIsKib(b / MIB, KIB);
    case Gib => UnitIsKib(b / GIB, MIB);
  }

  lemma UnitIsKib(n: int, factor: int)
    ensures n * factor * KIB % KIB == 0
  {
  }

  /** A size is never negative, always fits 64 bits, and exceeds 2^62 only without a unit. */
  lemma SizeIsBounded(s: string)
    requires Size(s).Ok?
    ensures 0 <= Size(s).value < TWO_63
    ensures Size(s).value > TWO_62 ==>
              var work := WithoutB(ToLower(TrimSpace(s)));
              |work| > 0 && UnitOf(work[|work| - 1]) == Byte
  {
    var work := WithoutB(ToLower(TrimSpace(s)));
    if TrimSpace(s) != "" {
      var unit := UnitOf(work[|work| - 1]);
      ScaledIsBounded(if unit == Byte then work else work[..|work| - 1], unit);
    }
  }

  lemma ScaledIsBounded(number: string, unit: Unit)
    requires Scaled(number, unit).Ok?
    ensures 0 <= Scaled(number, unit).value <= if unit == Byte then TWO_63 - 1 else TWO_62
  {
    match unit
    case Byte =>
    case Kib =>
    case Mib =>
    case Gib =>
  }

  // ------------------------------------------------------------ spellings

  lemma {:induction false} LowerMissesTrimLeft(s: string)
    ensures TrimLeft(ToLower(s)) == ToLower(TrimLeft(s))
  {
    if |s| > 0 && IsSpace(s[0]) {
      assert ToLower(s)[1..] == ToLower(s[1..]);
      LowerMissesTrimLeft(s[1..]);
    }
  }

  lemma {:induction false} LowerMissesTrimRight(s: string)
    ensures TrimRight(ToLower(s)) == ToLower(TrimRight(s))
  {
    if |s| > 0 && IsSpace(s[|s| - 1]) {
      assert ToLower(s)[..|s| - 1] == ToLower(s[..|s| - 1]);
      LowerMissesTrimRight(s[..|s| - 1]);
    }
  }

  /** Case makes no difference. */
  lemma CaseDoesNotMatter(s: string, t: string)
    requires EqualFold(s, t)
    ensures Size(s) == Size(t)
  {
    LowerMissesTrimLeft(s);
    LowerMissesTrimLeft(t);
    LowerMissesTrimRight(TrimLeft(s));
    LowerMissesTrimRight(TrimLeft(t));
    assert |ToLower(TrimSpace(s))| == |TrimSpace(s)| && |ToLower(TrimSpace(t))| == |TrimSpace(t)|;
  }

  /** Written behind a size that ends in neither a space nor a "b", an "ib" of any case makes no difference. */
  lemma BinarySpellingAgrees(s: string, suffix: string)
    requires |s| > 0 && !IsSpace(s[|s| - 1]) && Lower(s[|s| - 1]) != 'b' && ToLower(suffix) == "ib"
    ensures Size(s + suffix) == Size(s)
  {
    var low := ToLower(TrimLeft(s));
    TrimKeepsEnd(s);
    SizeOfSpelling(s);
    SizeOfSuffixed(s, suffix);
    NoSuffix(low);
    IbGoes(low);
  }

  /** Nor does a "b" of any case, unless it completes an "ib". */
  lemma ByteSpellingAgrees(s: string, suffix: string)
    requires |s| > 0 && !IsSpace(s[|s| - 1]) && Lower(s[|s| - 1]) != 'b' && Lower(s[|s| - 1]) != 'i'
    requires ToLower(suffix) == "b"
    ensures Size(s + suffix) == Size(s)
  {
    var low := ToLower(TrimLeft(s));
    TrimKeepsEnd(s);
    SizeOfSpelling(s);
    SizeOfSuffixed(s, suffix);
    NoSuffix(low);
    BGoes(low);
  }

  ghost predicate IsBlank(s: string)
  {
    forall i | 0 <= i < |s| :: IsSpace(s[i])
  }

  lemma {:induction false} TrimLeftOfPadded(pad: string, s: string)
    requires IsBlank(pad)
    ensures TrimLeft(pad + s) == TrimLeft(s)
  {
    if |pad| == 0 {
      assert pad + s == s;
    } else {
      assert (pad + s)[1..] == pad[1..] + s;
      TrimLeftOfPadded(pad[1..], s);
    }
  }

  lemma {:induction false} TrimLeftOfMore(s: string, c: char)
    requires IsSpace(c)
    ensures TrimLeft(s + [c]) == if TrimLeft(s) == "" then "" else TrimLeft(s) + [c]
  {
    if |s| == 0 {
      assert s + [c] == [c] && [c][1..] == "";
    } else if IsSpace(s[0]) {
      assert (s + [c])[1..] == s[1..] + [c];
      TrimLeftOfMore(s[1..], c);
    }
  }

  lemma {:induction false} TrimOfPadded(s: string, pad: string)
    requires IsBlank(pad)
    ensures TrimSpace(s + pad) == TrimSpace(s)
    decreases |pad|
  {
    if |pad| == 0 {
      assert s + pad == s;
    } else {
      var front, c := pad[..|pad| - 1], pad[|pad| - 1];
      assert s + pad == s + front + [c];
      TrimLeftOfMore(s + front, c);
      assert TrimLeft(s + front) != "" ==> (TrimLeft(s + front) + [c])[..|TrimLeft(s + front)|] == TrimLeft(s + front);
      TrimOfPadded(s, front);
    }
  }

  /** Spaces around a size make no difference. */
  lemma PaddingDoesNotMatter(left: string, s: string, right: string)
    requires IsBlank(left) && IsBlank(right)
    ensures Size(left + s + right) == Size(s)
  {
    TrimOfPadded(left + s, right);
    TrimLeftOfPadded(left, s);
  }

  // ------------------------------------------------------------ when a suffix makes a difference

  predicate IsSuffix(suffix: string)
  {
    ToLower(suffix) == "ib" || ToLower(suffix) == "b"
  }

  /** Something other than spaces, ending in no "b"; before a space, in a digit. */
  predicate TakesSuffix(s: string)
  {
    var t := TrimSpace(s);
    t != "" && if IsSpace(s[|s| - 1]) then IsDigit(t[|t| - 1]) else Lower(s[|s| - 1]) != 'b'
  }

  predicate Tight(t: string)
  {
    |t| > 0 && !IsSpace(t[0]) && !IsSpace(t[|t| - 1])
  }

  lemma {:induction false} LeftPad(s: string) returns (pad: string)
    ensures IsBlank(pad) && s == pad + TrimLeft(s)
    ensures TrimLeft(s) != "" ==> !IsSpace(TrimLeft(s)[0])
  {
    if |s| > 0 && IsSpace(s[0]) {
      var rest := LeftPad(s[1..]);
      pad := [s[0]] + rest;
    } else {
      pad := "";
    }
  }

  lemma {:induction false} RightPad(s: string) returns (pad: string)
    ensures IsBlank(pad) && s == TrimRight(s) + pad
    ensures TrimRight(s) != "" ==> !IsSpace(TrimRight(s)[|TrimRight(s)| - 1]) && TrimRight(s)[0] == s[0]
  {
    if |s| > 0 && IsSpace(s[|s| - 1]) {
      var rest := RightPad(s[..|s| - 1]);
      pad := rest + [s[|s| - 1]];
      assert s == TrimRight(s) + pad;
    } else {
      pad := "";
    }
  }

  /** A text is what trimming leaves of it, between spaces. */
  lemma {:induction false} Pads(s: string) returns (left: string, right: string)
    ensures IsBlank(left) && IsBlank(right) && s == left + TrimSpace(s) + right
    ensures TrimSpace(s) != "" ==> Tight(TrimSpace(s))
  {
    left := LeftPad(s);
    right := RightPad(TrimLeft(s));
  }

  /** What a tight text followed by spaces and a suffix comes to. */
  lemma {:induction false} SizeOfTight(t: string, right: string, suffix: string)
    requires Tight(t) && IsBlank(right) && IsSuffix(suffix)
    ensures Size(t) == SizeOfLower(ToLower(t))
    ensures Size(t + right + suffix) == SizeOfLower(ToLower(t) + right + ToLower(suffix))
  {
    var s := t + right + suffix;
    SizeOfSpelling(t);
    assert |suffix| == |ToLower(suffix)| && Lower(suffix[|suffix| - 1]) == 'b';
    SizeOfSpelling(s);
    assert s[0] == t[0];
    LowerOfBoth(t + right, suffix);
    LowerOfBoth(t, right);
    BlankIsLower(right);
  }

  lemma {:induction false} BlankIsLower(pad: string)
    requires IsBlank(pad)
    ensures ToLower(pad) == pad
  {
  }

  lemma {:induction false} SuffixGoes(low: string, suffix: string)
    requires suffix == "ib" || (suffix == "b" && (low == "" || low[|low| - 1] != 'i'))
    ensures WithoutB(low + suffix) == low
  {
    if suffix == "ib" {
      IbGoes(low);
    } else if low != "" {
      BGoes(low);
    } else {
      assert WithoutB("b") == "" && low + suffix == "b";
    }
  }

  lemma {:induction false} NoDigitNoNumber(s: string)
    requires |s| > 0 && !IsDigit(s[|s| - 1])
    ensures ParseInt(s).None?
  {
    if ParseInt(s).Some? {
      EndsInDigit(s);
    }
  }

  lemma {:induction false} TightIsTrimmed(t: string)
    requires Tight(t)
    ensures TrimSpace(t) == t
  {
  }

  lemma {:induction false} SizeOfLonger(low: string, suffix: string)
    requires suffix == "ib" || (suffix == "b" && (low == "" || low[|low| - 1] != 'i'))
    ensures SizeOfLower(low + suffix) == SizeOfWork(low)
  {
    SuffixGoes(low, suffix);
  }

  lemma {:induction false} SizeOfPlainEnd(low: string)
    requires |low| > 0 && low[|low| - 1] != 'b'
    ensures SizeOfLower(low) == SizeOfWork(low)
  {
    NoSuffix(low);
  }

  /** Without a unit a text has to end in a digit. */
  lemma {:induction false} SizeOfWorkEnds(low: string)
    requires Tight(low) && UnitOf(low[|low| - 1]) == Byte
    ensures SizeOfWork(low) == Scaled(low, Byte)
    ensures !IsDigit(low[|low| - 1]) ==> SizeOfWork(low) == Err(NotASize)
  {
    TightIsTrimmed(low);
    if !IsDigit(low[|low| - 1]) {
      NoDigitNoNumber(low);
    }
  }

  lemma {:induction false} LowerIsTight(t: string)
    requires Tight(t)
    ensures Tight(ToLower(t)) && ToLower(t)[|t| - 1] == Lower(t[|t| - 1])
    ensures IsDigit(ToLower(t)[|t| - 1]) <==> IsDigit(t[|t| - 1])
  {
  }

  lemma {:induction false} SuffixDirectlyBehind(low: string, suffix: string)
    requires Tight(low) && SizeOfLower(low).Ok? && suffix in {"ib", "b"}
    ensures SizeOfLower(low + suffix) == SizeOfLower(low) <==> low[|low| - 1] != 'b'
  {
    var last := low[|low| - 1];
    if last != 'b' {
      SizeOfPlainEnd(low);
    }
    if last in {'b', 'i'} {
      SizeOfWorkEnds(low);
    }
    SizeOfLonger(low, suffix);
  }

  lemma {:induction false} SpacedIsTrimmed(low: string, right: string)
    requires Tight(low) && IsBlank(right) && right != ""
    ensures SizeOfWork(low + right) == Scaled(low, Byte)
  {
    var work := low + right;
    assert work[|work| - 1] == right[|right| - 1];
    TrimOfPadded(low, right);
  }

  lemma {:induction false} BlankEnds(low: string, right: string)
    requires IsBlank(right) && right != ""
    ensures IsSpace((low + right)[|low + right| - 1])
  {
  }

  lemma {:induction false} SuffixBehindSpace(low: string, right: string, suffix: string)
    requires Tight(low) && SizeOfLower(low).Ok? && IsBlank(right) && right != "" && suffix in {"ib", "b"}
    ensures SizeOfLower(low + right + suffix) == SizeOfLower(low) <==> IsDigit(low[|low| - 1])
  {
    BlankEnds(low, right);
    SizeOfLonger(low + right, suffix);
    SpacedIsTrimmed(low, right);
    NumberIsScaledIff(low);
  }

  lemma {:induction false} NumberIsScaledIff(low: string)
    requires Tight(low) && SizeOfLower(low).Ok?
    ensures Scaled(low, Byte) == SizeOfLower(low) <==> IsDigit(low[|low| - 1])
  {
    if IsDigit(low[|low| - 1]) {
      SizeOfPlainEnd(low);
      SizeOfWorkEnds(low);
    } else {
      TightIsTrimmed(low);
      NoDigitNoNumber(low);
    }
  }

  lemma {:induction false} SuffixOfNothing(suffix: string)
    requires IsSuffix(suffix)
    ensures Size(suffix) == Err(NoNumber)
  {
    assert |suffix| == |ToLower(suffix)| && Lower(suffix[0]) == ToLower(suffix)[0];
    assert Tight(suffix);
    TightIsTrimmed(suffix);
    SuffixGoes("", ToLower(suffix));
    assert "" + ToLower(suffix) == ToLower(suffix);
  }

  lemma {:induction false} SuffixOfTightIff(t: string, right: string, suffix: string)
    requires Tight(t) && Size(t).Ok? && IsBlank(right) && IsSuffix(suffix)
    ensures Size(t + right + suffix) == Size(t)
       <==> if right != "" then IsDigit(t[|t| - 1]) else Lower(t[|t| - 1]) != 'b'
  {
    SizeOfTight(t, right, suffix);
    LowerIsTight(t);
    if right == "" {
      assert ToLower(t) + right == ToLower(t);
      SuffixDirectlyBehind(ToLower(t), ToLower(suffix));
    } else {
      SuffixBehindSpace(ToLower(t), right, ToLower(suffix));
    }
  }

  lemma {:induction false} SizeWithoutLeft(left: string, s: string)
    requires IsBlank(left)
    ensures Size(left + s) == Size(s)
  {
    TrimLeftOfPadded(left, s);
  }

  lemma {:induction false} Associates(left: string, t: string, right: string, suffix: string)
    ensures left + t + right + suffix == left + (t + right + suffix)
  {
  }

  lemma {:induction false} SizeWithoutPads(left: string, t: string, right: string, suffix: string)
    requires IsBlank(left) && IsBlank(right)
    ensures Size(left + t + right) == Size(t)
    ensures Size(left + t + right + suffix) == Size(t + right + suffix)
  {
    PaddingDoesNotMatter(left, t, right);
    Associates(left, t, right, suffix);
    SizeWithoutLeft(left, t + right + suffix);
  }

  /**
   Behind anything that is a size, an "ib" or "b" of any case makes no difference if
   and only if there is more than spaces, and it ends in no "b" or, before a space, in a
   digit.
   */
  lemma {:induction false} SuffixAgreesIff(s: string, suffix: string)
    requires Size(s).Ok? && IsSuffix(suffix)
    ensures Size(s + suffix) == Size(s) <==> TakesSuffix(s)
  {
    var t := TrimSpace(s);
    var left, right := Pads(s);
    SizeWithoutPads(left, t, right, suffix);
    if t == "" {
      SizeWithoutLeft(right, suffix);
      assert t + right == right;
      SuffixOfNothing(suffix);
    } else {
      SuffixOfTightIff(t, right, suffix);
      EndsAlike(left, t, right);
    }
  }

  lemma {:induction false} EndsAlike(left: string, t: string, right: string)
    requires Tight(t) && IsBlank(right)
    ensures var s := left + t + right;
            && (IsSpace(s[|s| - 1]) <==> right != "")
            && (right == "" ==> s[|s| - 1] == t[|t| - 1])
  {
    var s := left + t + right;
    if right != "" {
      assert s[|s| - 1] == right[|right| - 1];
    }
  }

  /** So one suffix may follow a size directly, and no second one. */
  lemma {:induction false} OnlyOneSuffix(t: string, first: string, second: string)
    requires Tight(t) && Size(t).Ok? && Lower(t[|t| - 1]) != 'b' && IsSuffix(first) && IsSuffix(second)
    ensures Size(t + first) == Size(t) && Size(t + first + second) != Size(t)
  {
    NoPad(t);
    SuffixOfTightIff(t, "", first);
    SuffixEnds(t, first);
    NoPad(t + first);
    SuffixOfTightIff(t + first, "", second);
  }

  lemma {:induction false} SuffixEnds(t: string, suffix: string)
    requires Tight(t) && IsSuffix(suffix)
    ensures Tight(t + suffix) && Lower((t + suffix)[|t + suffix| - 1]) == 'b'
  {
    assert |suffix| == |ToLower(suffix)| && Lower(suffix[|suffix| - 1]) == 'b';
  }

  lemma {:induction false} NoPad(s: string)
    ensures s + "" == s
  {
  }

  /** And none may follow a unit behind a space. */
  lemma SpaceBeforeSuffixMatters()
    ensures Size("1m ") == Ok(MIB) && Size("1m ib") == Err(NotASize)
  {
    SpacedSize();
    SpacedSuffix();
  }

  lemma SpacedSize()
    ensures Size("1m ") == Ok(MIB)
  {
    assert TrimLeft("1m ") == "1m ";
    assert TrimRight("1m ") == TrimRight("1m") == "1m";
    TrimLeaves("1m");
    assert Decimal(1) + ['m'] == "1m";
    SizeWithUnit(1, 'm');
  }

  lemma SpacedSuffix()
    ensures Size("1m ib") == Err(NotASize)
  {
    var low := "1m ";
    assert TrimLeft("1m ib") == "1m ib" && TrimRight("1m ib") == "1m ib";
    assert ToLower("1m ib") == low + "ib" by {
      assert forall i | 0 <= i < 5 :: Lower("1m ib"[i]) == "1m ib"[i];
    }
    IbGoes(low);
    assert TrimLeft(low) == low && TrimRight(low) == TrimRight("1m") == "1m";
    assert !IsDigit("1m"[1]);
  }

  lemma {:induction false} TrimKeepsEnd(s: string)
    requires |s| > 0 && !IsSpace(s[|s| - 1])
    ensures |TrimLeft(s)| > 0 && TrimLeft(s)[|TrimLeft(s)| - 1] == s[|s| - 1]
    ensures ToLower(TrimLeft(s))[|TrimLeft(s)| - 1] == Lower(s[|s| - 1])
  {
    if IsSpace(s[0]) {
      TrimKeepsEnd(s[1..]);
    }
  }

  lemma SizeOfSpelling(s: string)
    requires |s| > 0 && !IsSpace(s[|s| - 1])
    ensures Size(s) == SizeOfLower(ToLower(TrimLeft(s)))
  {
    TrimKeepsEnd(s);
  }

  lemma {:induction false} TrimLeftOfLonger(s: string, suffix: string)
    requires |s| > 0 && !IsSpace(s[|s| - 1])
    ensures TrimLeft(s + suffix) == TrimLeft(s) + suffix
  {
    if IsSpace(s[0]) {
      assert (s + suffix)[1..] == s[1..] + suffix;
      TrimLeftOfLonger(s[1..], suffix);
    }
  }

  lemma {:induction false} SizeOfSuffixed(s: string, suffix: string)
    requires |s| > 0 && !IsSpace(s[|s| - 1]) && |suffix| > 0 && Lower(suffix[|suffix| - 1]) == 'b'
    ensures Size(s + suffix) == SizeOfLower(ToLower(TrimLeft(s)) + ToLower(suffix))
  {
    SizeOfSpelling(s + suffix);
    TrimLeftOfLonger(s, suffix);
    LowerOfBoth(TrimLeft(s), suffix);
  }

  lemma {:induction false} LowerOfBoth(s: string, t: string)
    ensures ToLower(s + t) == ToLower(s) + ToLower(t)
  {
  }

  lemma NoSuffix(s: string)
    requires |s| > 0 && s[|s| - 1] != 'b'
    ensures WithoutB(s) == s
  {
    LastOf(s);
  }

  lemma IbGoes(s: string)
    ensures WithoutB(s + "ib") == s
  {
    assert (s + "ib")[|s|..] == "ib" && (s + "ib")[..|s|] == s;
  }

  lemma BGoes(s: string)
    requires |s| > 0 && s[|s| - 1] != 'i'
    ensures WithoutB(s + "b") == s
  {
    LastOf(s + "b");
    assert (s + "b")[|s|..] == "b" && (s + "b")[..|s|] == s;
  }

  lemma LastOf(s: string)
    requires |s| > 0
    ensures HasSuffix(s, "b") <==> s[|s| - 1] == 'b'
    ensures HasSuffix(s, "ib") <==> |s| > 1 && s[|s| - 2] == 'i' && s[|s| - 1] == 'b'
  {
  }
}
