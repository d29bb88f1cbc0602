/** strtoul (strtoul.c), with a 32-bit unsigned long. A C string is a sequence with a NUL in it. */
module Strtoul {
  import opened Common

  const ULONG_MAX: int := 0xffff_ffff

  predicate IsCString(s: seq<char>) {
    NUL in s
  }

  predicate IsDigit(c: char) {
    '0' <= c <= '9'
  }

  predicate IsUpper(c: char) {
    'A' <= c <= 'Z'
  }

  predicate IsAlpha(c: char) {
    'A' <= c <= 'Z' || 'a' <= c <= 'z'
  }

  /** The value of a digit or letter, -1 for any other character. */
  function DigitOf(c: char): int {
    if IsDigit(c) then c as int - '0' as int
    else if IsAlpha(c) then c as int - (if IsUpper(c) then 'A' else 'a') as int + 10
    else -1
  }

  predicate InBase(c: char, b: int) {
    0 <= DigitOf(c) < b
  }

  // ----- Specification -----

  /** The number that digits ds denote in base b. */
  function Value(ds: seq<char>, b: int): int {
    if ds == [] then 0 else Value(ds[..|ds| - 1], b) * b + DigitOf(ds[|ds| - 1])
  }

  /** The end of the run of spaces from i. */
  function SkipSpaces(s: seq<char>, i: nat): (r: nat)
    requires i < |s| && NUL in s[i..]
    ensures i <= r < |s| && s[r] != ' ' && NUL in s[r..]
    ensures forall k :: i <= k < r ==> s[k] == ' '
    decreases |s| - i
  {
    if s[i] == ' ' then
      assert s[i..] == [s[i]] + s[i + 1..];
      SkipSpaces(s, i + 1)
    else i
  }

  /** The end of the run of base-b digits from i. */
  function SkipDigits(s: seq<char>, i: nat, b: int): (r: nat)
    requires i < |s| && NUL in s[i..]
    ensures i <= r < |s| && !InBase(s[r], b)
    ensures forall k :: i <= k < r ==> InBase(s[k], b)
    decreases |s| - i
  {
    if InBase(s[i], b) then
      assert s[i..] == [s[i]] + s[i + 1..];
      SkipDigits(s, i + 1, b)
    else i
  }

  /** Moving past a character that is not the terminator. */
  lemma StillTerminated(s: seq<char>, i: nat)
    requires i < |s| && NUL in s[i..] && s[i] != NUL
    ensures i + 1 < |s| && NUL in s[i + 1..]
  {
    assert s[i..] == [s[i]] + s[i + 1..];
  }

  function SkipSign(s: seq<char>, i: nat): (r: nat)
    requires i < |s| && NUL in s[i..]
    ensures i <= r < |s| && NUL in s[r..]
  {
    if s[i] == '+' || s[i] == '-' then StillTerminated(s, i); i + 1 else i
  }

  /** Where the digits start and in which base, as the source decides it. */
  function Prefix(s: seq<char>, i: nat, base: int): (r: (nat, int))
    requires i < |s| && NUL in s[i..]
    ensures i <= r.0 < |s| && NUL in s[r.0..]
    ensures (base == 0 || 2 <= base <= 36) ==> 2 <= r.1 <= 36
  {
    if base == 0 then
      if s[i] == '0' then
        StillTerminated(s, i);
        if s[i + 1] == 'x' || s[i + 1] == 'X' then StillTerminated(s, i + 1); (i + 2, 16) else (i + 1, 8)
      else (i, 10)
    else if base == 16 && s[i] == '0' then
      StillTerminated(s, i);
      if s[i + 1] == 'x' then StillTerminated(s, i + 1); (i + 2, 16) else (i + 1, 16)
    else (i, base)
  }

  /** The value of v, saturated, or negated modulo 2^32. */
  function Finish(v: int, negative: bool): int {
    if v > ULONG_MAX then ULONG_MAX
    else if negative then (0 - v) % TWO_32
    else v
  }

  /** Result and end pointer. */
  function Parse(s: seq<char>, base: int): (int, nat)
    requires IsCString(s)
  {
    var n0 := SkipSpaces(s, 0);
    var n1 := SkipSign(s, n0);
    var (n2, b) := Prefix(s, n1, base);
    var n3 := SkipDigits(s, n2, b);
    (Finish(Value(s[n2..n3], b), s[n0] == '-'), n3)
  }

  lemma {:induction false} ValueNonNegative(ds: seq<char>, b: int)
    requires 2 <= b && forall k :: 0 <= k < |ds| ==> InBase(ds[k], b)
    ensures 0 <= Value(ds, b)
  {
    if ds != [] {
      ValueNonNegative(ds[..|ds| - 1], b);
      assert 0 <= Value(ds[..|ds| - 1], b) * b;
    }
  }

  // ----- Implementation -----

  method Strtoul(s: seq<char>, base0: int) returns (result: int, end: nat)
    requires IsCString(s) && (base0 == 0 || 2 <= base0 <= 36)
    ensures (result, end) == Parse(s, base0)
  {
    assert s[0..] == s;
    var nptr := SkipSpace(s);
    ghost var n0 := nptr;
    var negative := false;
    if s[nptr] == '+' || s[nptr] == '-' {
      negative := s[nptr] == '-';
      StillTerminated(s, nptr);
      nptr := nptr + 1;
    }
    assert nptr == SkipSign(s, n0) && negative == (s[n0] == '-');
    var base;
    nptr, base := FindBase(s, nptr, base0);
    result, nptr := Number(s, nptr, base, negative);
    end := nptr;
  }

  /** The conversion and what follows it. */
  method Number(s: seq<char>, start: nat, base: int, negative: bool) returns (result: int, nptr: nat)
    requires start < |s| && NUL in s[start..] && 2 <= base <= 36
    ensures nptr == SkipDigits(s, start, base) && result == Finish(Value(s[start..nptr], base), negative)
  {
    var overflow;
    result, nptr, overflow := Convert(s, start, base);
    if negative && !overflow {
      result := (0 - result) % TWO_32;
    }
    if overflow {
      result := ULONG_MAX;
    }
  }

  method SkipSpace(s: seq<char>) returns (nptr: nat)
    requires |s| > 0 && NUL in s[0..]
    ensures nptr == SkipSpaces(s, 0)
  {
    nptr := 0;
    while s[nptr] != NUL && s[nptr] == ' '
      invariant nptr < |s| && NUL in s[nptr..] && SkipSpaces(s, nptr) == SkipSpaces(s, 0)
      decreases |s| - nptr
    {
      StillTerminated(s, nptr);
      nptr := nptr + 1;
    }
  }

  method FindBase(s: seq<char>, i: nat, base0: int) returns (nptr: nat, base: int)
    requires i < |s| && NUL in s[i..]
    ensures (nptr, base) == Prefix(s, i, base0)
  {
    nptr, base := i, base0;
    if base == 0 {
      base := 10;
      if s[nptr] == '0' {
        base := 8;
        StillTerminated(s, nptr);
        nptr := nptr + 1;
        if s[nptr] == 'x' || s[nptr] == 'X' {
          base := 16;
          StillTerminated(s, nptr);
          nptr := nptr + 1;
        }
      }
    } else if base == 16 && s[nptr] == '0' {
      StillTerminated(s, nptr);
      nptr := nptr + 1;
      // The source assigns the outcome of the comparison with 'x' to c, so its second test, for 'X', never holds.
      if s[nptr] == 'x' {
        StillTerminated(s, nptr);
        nptr := nptr + 1;
      }
    }
  }

  lemma ValueSnoc(s: seq<char>, start: nat, i: nat, b: int)
    requires start <= i < |s|
    ensures Value(s[start..i + 1], b) == Value(s[start..i], b) * b + DigitOf(s[i])
  {
    assert s[start..i + 1][..i - start] == s[start..i];
  }

  lemma TimesKeepsOrder(x: int, y: int, b: int)
    requires x <= y && 0 <= b
    ensures x * b <= y * b
  {
  }

  lemma LimitBounds(b: int)
    requires 2 <= b
    ensures ULONG_MAX / b * b <= ULONG_MAX < (ULONG_MAX / b + 1) * b
  {
  }

  /** Multiplying what exceeds ULONG_MAX / b exceeds ULONG_MAX, and what does not, does not. */
  lemma LimitIsExact(v: int, b: int)
    requires 2 <= b && 0 <= v
    ensures v > ULONG_MAX / b <==> v * b > ULONG_MAX
    ensures v <= v * b
  {
    LimitBounds(b);
    if v > ULONG_MAX / b {
      TimesKeepsOrder(ULONG_MAX / b + 1, v, b);
    } else {
      TimesKeepsOrder(v, ULONG_MAX / b, b);
    }
    TimesKeepsOrder(1, b, v);
  }

  /** The conversion loop. */
  method Convert(s: seq<char>, start: nat, base: int) returns (result: int, nptr: nat, overflow: bool)
    requires start < |s| && NUL in s[start..] && 2 <= base <= 36
    ensures nptr == SkipDigits(s, start, base)
    ensures overflow <==> Value(s[start..nptr], base) > ULONG_MAX
    ensures !overflow ==> result == Value(s[start..nptr], base)
  {
    nptr := start;
    result := 0;
    var limit := ULONG_MAX / base;
    overflow := false;
    ghost var value := 0;
    while s[nptr] != NUL
      invariant start <= nptr < |s| && NUL in s[nptr..]
      invariant SkipDigits(s, nptr, base) == SkipDigits(s, start, base)
      invariant 0 <= value == Value(s[start..nptr], base)
      invariant overflow <==> value > ULONG_MAX
      invariant !overflow ==> result == value
      decreases |s| - nptr
    {
      var c := s[nptr];
      var digit := 0;
      if IsDigit(c) {
        digit := c as int - '0' as int;
      } else if IsAlpha(c) {
        digit := c as int - (if IsUpper(c) then 'A' else 'a') as int + 10;
      } else {
        break;
      }
      if digit < 0 || digit >= base {
        break;
      }
      ValueSnoc(s, start, nptr, base);
      LimitIsExact(value, base);
      result, overflow := Accumulate(result, overflow, digit, base, limit, value);
      value := value * base + digit;
      StillTerminated(s, nptr);
      nptr := nptr + 1;
    }
  }

  /** One digit more; v is the value so far. */
  method Accumulate(result0: int, overflow0: bool, digit: int, base: int, limit: int, ghost v: int)
    returns (result: int, overflow: bool)
    requires 0 <= v <= v * base && 0 <= digit && (v > limit <==> v * base > ULONG_MAX)
    requires (overflow0 <==> v > ULONG_MAX) && (!overflow0 ==> result0 == v)
    ensures overflow <==> v * base + digit > ULONG_MAX
    ensures !overflow ==> result == v * base + digit
  {
    result, overflow := result0, overflow0;
    if result > limit {
      overflow := true;
    }
    if !overflow {
      result := base * result;
      if digit > ULONG_MAX - result {
        overflow := true;
      } else {
        result := result + digit;
      }
    }
  }

  // ----- The standard: section 7.20.1.4 of ISO/IEC 9899:1999, with the space as the only white space -----

  /** A base-16 prefix counts only when a hexadecimal digit follows it. */
  predicate HexPrefix(s: seq<char>, i: nat, base: int) {
    (base == 0 || base == 16) && i + 2 < |s| && s[i] == '0' && (s[i + 1] == 'x' || s[i + 1] == 'X') && InBase(s[i + 2], 16)
  }

  /** The value converted: ULONG_MAX when it is out of range, whatever the sign; else negated as an unsigned long
      after a minus sign. */
  function StandardValue(v: int, negative: bool): int {
    if v > 0xffff_ffff then 0xffff_ffff
    else if negative && v > 0 then 0x1_0000_0000 - v
    else v
  }

  lemma FinishIsStandard(v: int, negative: bool)
    requires 0 <= v
    ensures Finish(v, negative) == StandardValue(v, negative)
  {
  }

  function StandardBase(s: seq<char>, i: nat, base: int): int
    requires i < |s|
  {
    if HexPrefix(s, i, base) then 16
    else if base == 0 then if s[i] == '0' then 8 else 10
    else base
  }

  /** Result and end pointer as the standard has them: without digits nothing is consumed. */
  function Standard(s: seq<char>, base: int): (int, nat)
    requires IsCString(s)
  {
    var n0 := SkipSpaces(s, 0);
    var n1 := SkipSign(s, n0);
    var b := StandardBase(s, n1, base);
    var n2 := if HexPrefix(s, n1, base) then AfterPrefix(s, n1, base); n1 + 2 else n1;
    var n3 := SkipDigits(s, n2, b);
    if n3 == n1 then (0, 0) else (StandardValue(Value(s[n2..n3], b), s[n0] == '-'), n3)
  }

  lemma AfterPrefix(s: seq<char>, i: nat, base: int)
    requires i < |s| && NUL in s[i..] && HexPrefix(s, i, base)
    ensures NUL in s[i + 2..]
  {
    StillTerminated(s, i);
    StillTerminated(s, i + 1);
  }

  /** What a caller can check: there are digits, or nothing before their place; and where 0x or 0X follows in
      base 0 or 16, a hexadecimal digit comes after it, except that after 0X in base 16 none must. */
  predicate Conforms(s: seq<char>, base: int)
    requires IsCString(s)
  {
    var i := SkipSign(s, SkipSpaces(s, 0));
    && (i == 0 || InBase(s[i], if base == 0 then 10 else base))
    && ((base == 0 || base == 16) && i + 2 < |s| && s[i] == '0' && (s[i + 1] == 'x' || s[i + 1] == 'X') ==>
          (InBase(s[i + 2], 16) <==> !(base == 16 && s[i + 1] == 'X')))
  }

  lemma {:induction false} LeadingZero(ds: seq<char>, b: int)
    requires ds != [] && ds[0] == '0'
    ensures Value(ds, b) == Value(ds[1..], b)
  {
    if |ds| > 1 {
      LeadingZero(ds[..|ds| - 1], b);
      assert ds[..|ds| - 1][1..] == ds[1..][..|ds| - 2];
    }
  }

  lemma SkipZero(s: seq<char>, i: nat, b: int)
    requires i < |s| && NUL in s[i..] && s[i] == '0' && 2 <= b
    ensures i + 1 < |s| && NUL in s[i + 1..]
    ensures var e := SkipDigits(s, i + 1, b);
            SkipDigits(s, i, b) == e && i < e && Value(s[i + 1..e], b) == Value(s[i..e], b)
  {
    StillTerminated(s, i);
    var e := SkipDigits(s, i + 1, b);
    assert s[i..e][1..] == s[i + 1..e];
    LeadingZero(s[i..e], b);
  }

  lemma ParseFrom(s: seq<char>, base: int, n0: nat, i: nat, n2: nat, b: int)
    requires IsCString(s) && n0 == SkipSpaces(s, 0) && i == SkipSign(s, n0) && Prefix(s, i, base) == (n2, b) && 2 <= b
    ensures var e := SkipDigits(s, n2, b); Parse(s, base) == (StandardValue(Value(s[n2..e], b), s[n0] == '-'), e)
  {
    DigitsFinish(s, n2, SkipDigits(s, n2, b), b, s[n0] == '-');
  }

  lemma DigitsFinish(s: seq<char>, i: nat, e: nat, b: int, negative: bool)
    requires i <= e <= |s| && 2 <= b && forall k :: i <= k < e ==> InBase(s[k], b)
    ensures Finish(Value(s[i..e], b), negative) == StandardValue(Value(s[i..e], b), negative)
  {
    ValueNonNegative(s[i..e], b);
    FinishIsStandard(Value(s[i..e], b), negative);
  }

  lemma StandardFrom(s: seq<char>, base: int, n0: nat, i: nat)
    requires IsCString(s) && n0 == SkipSpaces(s, 0) && i == SkipSign(s, n0) && !HexPrefix(s, i, base)
    ensures var b := StandardBase(s, i, base); var e := SkipDigits(s, i, b);
            Standard(s, base) == if e == i then (0, 0) else (StandardValue(Value(s[i..e], b), s[n0] == '-'), e)
  {
  }

  lemma StandardFromHex(s: seq<char>, base: int, n0: nat, i: nat)
    requires IsCString(s) && n0 == SkipSpaces(s, 0) && i == SkipSign(s, n0) && HexPrefix(s, i, base)
    requires NUL in s[i + 2..]
    ensures var e := SkipDigits(s, i + 2, 16);
            Standard(s, base) == (StandardValue(Value(s[i + 2..e], 16), s[n0] == '-'), e) && i + 2 < e
  {
    HexDigitFollows(s, i, base);
  }

  lemma HexDigitFollows(s: seq<char>, i: nat, base: int)
    requires HexPrefix(s, i, base) && NUL in s[i + 2..]
    ensures i + 2 < SkipDigits(s, i + 2, 16)
  {
  }

  /** strtoul does what the standard says for exactly the strings that conform. */
  lemma StandardExactly(s: seq<char>, base: int)
    requires IsCString(s) && (base == 0 || 2 <= base <= 36)
    ensures Parse(s, base) == Standard(s, base) <==> Conforms(s, base)
  {
    var n0 := SkipSpaces(s, 0);
    var i := SkipSign(s, n0);
    if s[i] == '0' {
      StillTerminated(s, i);
      if (base == 0 || base == 16) && (s[i + 1] == 'x' || s[i + 1] == 'X') {
        StillTerminated(s, i + 1);
        if HexPrefix(s, i, base) {
          HexExactly(s, base, n0, i);
        } else {
          BarePrefixExactly(s, base, n0, i);
        }
      } else {
        ZeroExactly(s, base, n0, i);
      }
    } else {
      UnprefixedExactly(s, base, n0, i);
    }
  }

  lemma UnprefixedExactly(s: seq<char>, base: int, n0: nat, i: nat)
    requires IsCString(s) && (base == 0 || 2 <= base <= 36)
    requires n0 == SkipSpaces(s, 0) && i == SkipSign(s, n0) && s[i] != '0'
    ensures Parse(s, base) == Standard(s, base) <==> Conforms(s, base)
  {
    var b := StandardBase(s, i, base);
    ParseFrom(s, base, n0, i, i, b);
    StandardFrom(s, base, n0, i);
    assert s[i..i] == [];
  }

  /** A leading zero without x after it: strtoul skips it, the standard reads it. */
  lemma ZeroExactly(s: seq<char>, base: int, n0: nat, i: nat)
    requires IsCString(s) && (base == 0 || 2 <= base <= 36)
    requires n0 == SkipSpaces(s, 0) && i == SkipSign(s, n0) && i + 1 < |s| && s[i] == '0'
    requires (base == 0 || base == 16) ==> s[i + 1] != 'x' && s[i + 1] != 'X'
    ensures Parse(s, base) == Standard(s, base) && Conforms(s, base)
  {
    var b := StandardBase(s, i, base);
    var n2 := Prefix(s, i, base).0;
    SkipZero(s, i, b);
    assert n2 == i || n2 == i + 1;
    ParseFrom(s, base, n0, i, n2, b);
    StandardFrom(s, base, n0, i);
  }

  /** 0x or 0X and a hexadecimal digit: strtoul misses the upper-case form in base 16. */
  lemma HexExactly(s: seq<char>, base: int, n0: nat, i: nat)
    requires IsCString(s) && n0 == SkipSpaces(s, 0) && i == SkipSign(s, n0)
    requires HexPrefix(s, i, base) && NUL in s[i + 2..]
    ensures Parse(s, base) == Standard(s, base) <==> Conforms(s, base)
  {
    StandardFromHex(s, base, n0, i);
    PrefixOfX(s, i, base);
    var (n2, b) := Prefix(s, i, base);
    ParseFrom(s, base, n0, i, n2, b);
    StillTerminated(s, i);
    XStops(s, i + 1, 16);
    ConformsAfterX(s, base, i);
  }

  /** 0x or 0X and no hexadecimal digit: the standard stops after the 0, strtoul after the x it recognises. */
  lemma BarePrefixExactly(s: seq<char>, base: int, n0: nat, i: nat)
    requires IsCString(s) && (base == 0 || base == 16)
    requires n0 == SkipSpaces(s, 0) && i == SkipSign(s, n0) && i + 2 < |s| && NUL in s[i + 2..]
    requires s[i] == '0' && (s[i + 1] == 'x' || s[i + 1] == 'X') && !HexPrefix(s, i, base)
    ensures Parse(s, base) == Standard(s, base) <==> Conforms(s, base)
  {
    BareStandard(s, base, n0, i);
    PrefixOfX(s, i, base);
    var (n2, b) := Prefix(s, i, base);
    ParseFrom(s, base, n0, i, n2, b);
    StillTerminated(s, i);
    XStops(s, i + 1, 16);
    ConformsAfterX(s, base, i);
  }

  lemma PrefixOfX(s: seq<char>, i: nat, base: int)
    requires i + 2 < |s| && NUL in s[i..] && (base == 0 || base == 16)
    requires s[i] == '0' && (s[i + 1] == 'x' || s[i + 1] == 'X')
    ensures Prefix(s, i, base) == if base == 16 && s[i + 1] == 'X' then (i + 1, 16) else (i + 2, 16)
  {
  }

  lemma XStops(s: seq<char>, i: nat, b: int)
    requires i < |s| && NUL in s[i..] && (s[i] == 'x' || s[i] == 'X') && b <= 16
    ensures SkipDigits(s, i, b) == i && s[i..i] == []
  {
    assert !InBase(s[i], b);
  }

  lemma ConformsAfterX(s: seq<char>, base: int, i: nat)
    requires IsCString(s) && i == SkipSign(s, SkipSpaces(s, 0)) && i + 2 < |s| && (base == 0 || base == 16)
    requires s[i] == '0' && (s[i + 1] == 'x' || s[i + 1] == 'X')
    ensures Conforms(s, base) <==> (InBase(s[i + 2], 16) <==> !(base == 16 && s[i + 1] == 'X'))
  {
  }

  lemma BareStandard(s: seq<char>, base: int, n0: nat, i: nat)
    requires IsCString(s) && (base == 0 || base == 16)
    requires n0 == SkipSpaces(s, 0) && i == SkipSign(s, n0) && i + 2 < |s|
    requires s[i] == '0' && (s[i + 1] == 'x' || s[i + 1] == 'X') && !HexPrefix(s, i, base)
    ensures Standard(s, base) == (0, i + 1)
  {
    var b := StandardBase(s, i, base);
    StillTerminated(s, i);
    SkipZero(s, i, b);
    XStops(s, i + 1, b);
    StandardFrom(s, base, n0, i);
  }

  /** The upper-case prefix in base 16: the value 0 instead of 1, and the end before the X. */
  lemma UpperCasePrefixIsMissed(s: seq<char>)
    requires s == ['0', 'X', '1', NUL]
    ensures IsCString(s) && Parse(s, 16) == (0, 1) && Standard(s, 16) == (1, 3)
  {
    assert s[3] == NUL && s[0..] == s;
    StillTerminated(s, 0);
    StillTerminated(s, 1);
    XStops(s, 1, 16);
    ParseFrom(s, 16, 0, 0, 1, 16);
    StandardFromHex(s, 16, 0, 0);
    OneDigit(s, 2);
  }

  lemma OneDigit(s: seq<char>, i: nat)
    requires i + 1 < |s| && s[i] == '1' && s[i + 1] == NUL && NUL in s[i..]
    ensures SkipDigits(s, i, 16) == i + 1 && Value(s[i..i + 1], 16) == 1
  {
    StillTerminated(s, i);
    ValueSnoc(s, i, i, 16);
  }
}
