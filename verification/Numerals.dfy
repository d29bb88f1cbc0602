/** Which characters are read and printed as which numbers: strtoul, atob and btoa (strtoul.c, atob.c) against
    tables of the digits and plain arithmetic. */
module Numerals {
  import opened Atob
  import opened Common
  import opened Strtoul

  // The digits, in lower and in upper case.
  const LOWER: seq<char> := "0123456789abcdefghijklmnopqrstuvwxyz"
  const UPPER: seq<char> := "0123456789ABCDEFGHIJKLMNOPQRSTUVWXYZ"

  predicate Spells(c: char, d: int) {
    0 <= d < 36 && (c == LOWER[d] || c == UPPER[d])
  }

  /** ds spells the digits nums of base b. */
  predicate Spelled(ds: seq<char>, nums: seq<int>, b: int) {
    |ds| == |nums| && forall k :: 0 <= k < |ds| ==> 0 <= nums[k] < b && Spells(ds[k], nums[k])
  }

  /** The number with digits nums, most significant first. */
  function Amount(nums: seq<int>, b: int): int {
    if nums == [] then 0 else Amount(nums[..|nums| - 1], b) * b + nums[|nums| - 1]
  }

  /** c is no digit of base b. */
  predicate NoDigit(c: char, b: int) {
    forall d :: 0 <= d < b ==> !Spells(c, d)
  }

  lemma LowerAt(d: int)
    requires 0 <= d < 36
    ensures LOWER[d] as int == if d < 10 then d + 48 else d + 87
  {
  }

  lemma UpperAt(d: int)
    requires 0 <= d < 36
    ensures UPPER[d] as int == if d < 10 then d + 48 else d + 55
  {
  }

  lemma SpelledDigit(c: char, d: int)
    requires Spells(c, d)
    ensures DigitOf(c) == d && c != ' ' && c != '+' && c != '-' && c != NUL && c != '.'
    ensures (c == '0' <==> d == 0) && (d < 16 ==> c != 'x' && c != 'X' && IsHex(c))
  {
    LowerAt(d);
    UpperAt(d);
  }

  lemma DigitSpelled(c: char)
    requires DigitOf(c) >= 0
    ensures Spells(c, DigitOf(c))
  {
    LowerAt(DigitOf(c));
    UpperAt(DigitOf(c));
  }

  lemma NoDigitOut(c: char, b: int)
    requires NoDigit(c, b)
    ensures !InBase(c, b)
  {
    if InBase(c, b) {
      DigitSpelled(c);
    }
  }

  lemma AllSpelled(ds: seq<char>, nums: seq<int>, b: int)
    requires Spelled(ds, nums, b)
    ensures forall k :: 0 <= k < |ds| ==> InBase(ds[k], b) && DigitOf(ds[k]) == nums[k]
  {
    forall k | 0 <= k < |ds|
      ensures InBase(ds[k], b) && DigitOf(ds[k]) == nums[k]
    {
      SpelledDigit(ds[k], nums[k]);
    }
  }

  lemma {:induction false} ValueIsAmount(ds: seq<char>, nums: seq<int>, b: int)
    requires Spelled(ds, nums, b)
    ensures Value(ds, b) == Amount(nums, b)
  {
    if ds != [] {
      var last := |ds| - 1;
      SpelledDigit(ds[last], nums[last]);
      ValueIsAmount(ds[..last], nums[..last], b);
    }
  }

  // ----- strtoul -----

  /** What may stand before the digits ds of base b when strtoul is called with this base. */
  predicate Introduces(prefix: seq<char>, base: int, b: int, ds: seq<char>)
    requires ds != []
  {
    || (prefix == [] && 2 <= base <= 36 && b == base)
    || (prefix == [] && base == 0 && b == 10 && ds[0] != '0')
    || (prefix == "0" && base == 0 && b == 8)
    || (prefix == "0x" && (base == 0 || base == 16) && b == 16)
    || (prefix == "0X" && base == 0 && b == 16)
  }

  /** The number v, after a minus sign or not, is read as r: ULONG_MAX when it is out of range, with either sign;
      else v itself, or what added to v gives 2^32. */
  predicate ReadAs(v: int, negative: bool, r: int) {
    && 0 <= r < 0x1_0000_0000
    && if v > 0xffff_ffff then r == 0xffff_ffff
       else if negative then (r + v) % 0x1_0000_0000 == 0
       else r == v
  }

  lemma FinishReads(v: int, negative: bool)
    requires 0 <= v
    ensures ReadAs(v, negative, StandardValue(v, negative))
  {
  }

  lemma SpacesEnd(s: seq<char>, n: nat)
    requires n < |s| && NUL in s && s[n] != ' ' && forall k :: 0 <= k < n ==> s[k] == ' '
    ensures NUL in s[0..] && SkipSpaces(s, 0) == n
  {
    assert s[0..] == s;
  }

  /** The signs that strtoul knows. */
  predicate IsSign(sign: seq<char>) {
    sign == [] || sign == ['+'] || sign == ['-']
  }

  /** From the digits on: where they begin in the string, and what follows them. */
  lemma DigitsRead(s: seq<char>, i: nat, ds: seq<char>, tail: seq<char>, nums: seq<int>, b: int)
    requires i <= |s| && s[i..] == ds + tail && Spelled(ds, nums, b) && 2 <= b
    requires tail != [] && NUL in tail && NoDigit(tail[0], b)
    ensures i < |s| && NUL in s[i..]
    ensures var e := i + |ds|; e <= |s| && SkipDigits(s, i, b) == e && s[i..e] == ds && Value(ds, b) == Amount(nums, b)
  {
    var e := i + |ds|;
    assert |s[i..]| == |ds| + |tail| && s[e] == s[i..][|ds|] == tail[0];
    NoDigitOut(tail[0], b);
    AllSpelled(ds, nums, b);
    forall k | i <= k < e
      ensures InBase(s[k], b)
    {
      assert s[k] == s[i..][k - i] == ds[k - i];
    }
    var t :| 0 <= t < |tail| && tail[t] == NUL;
    assert s[i..][|ds| + t] == NUL;
    StopsAt(s, i, b, e);
    assert s[i..e] == s[i..][..|ds|];
    ValueIsAmount(ds, nums, b);
  }

  /** Where strtoul finds the digits: after the prefix, but in base 16 also after a leading 0 that is one of them. */
  lemma PrefixRead(s: seq<char>, i: nat, prefix: seq<char>, ds: seq<char>, tail: seq<char>, base: int, b: int)
    requires ds != [] && tail != [] && Introduces(prefix, base, b, ds)
    requires i <= |s| && s[i..] == prefix + ds + tail && NUL in s[i..]
    requires base == 16 || base == 0 ==> ds[0] != 'x' && ds[0] != 'X'
    requires base == 16 && prefix == [] && ds[0] == '0' ==> (ds + tail)[1] != 'x'
    ensures i < |s|
    ensures Prefix(s, i, base) == (if base == 16 && prefix == [] && ds[0] == '0' then i + 1 else i + |prefix|, b)
  {
    assert s[i] == s[i..][0] && s[i + 1] == s[i..][1];
    assert forall k :: 0 <= k < |prefix| ==> s[i..][k] == prefix[k];
    assert s[i..][|prefix|] == ds[0];
    assert prefix == [] ==> prefix + ds + tail == ds + tail;
  }

  /** What may follow the digits: no digit, and after a lone 0 in base 16 no x that would make it a prefix. */
  predicate Closes(tail: seq<char>, prefix: seq<char>, ds: seq<char>, base: int, b: int) {
    tail != [] && NUL in tail && NoDigit(tail[0], b) && (base == 16 && prefix == [] && ds == ['0'] ==> tail[0] != 'x')
  }

  /** Every numeral, with any spaces, sign and prefix before it and anything but a digit after it: strtoul gives its
      number, in the sense of ReadAs, and the end of its digits. */
  lemma StrtoulReads(blanks: seq<char>, sign: seq<char>, prefix: seq<char>, ds: seq<char>, tail: seq<char>,
                     base: int, b: int, nums: seq<int>)
    requires (forall k :: 0 <= k < |blanks| ==> blanks[k] == ' ') && IsSign(sign)
    requires ds != [] && Introduces(prefix, base, b, ds) && Spelled(ds, nums, b)
    requires Closes(tail, prefix, ds, base, b)
    ensures var s := blanks + sign + prefix + ds + tail;
            && IsCString(s)
            && ReadAs(Amount(nums, b), sign == ['-'], Parse(s, base).0)
            && Parse(s, base).1 == |s| - |tail|
  {
    ReadsString(blanks + sign + prefix + ds + tail, blanks, sign, prefix, ds, tail, base, b, nums);
  }

  lemma ReadsString(s: seq<char>, blanks: seq<char>, sign: seq<char>, prefix: seq<char>, ds: seq<char>, tail: seq<char>,
                    base: int, b: int, nums: seq<int>)
    requires s == blanks + sign + prefix + ds + tail
    requires (forall k :: 0 <= k < |blanks| ==> blanks[k] == ' ') && IsSign(sign)
    requires ds != [] && Introduces(prefix, base, b, ds) && Spelled(ds, nums, b)
    requires Closes(tail, prefix, ds, base, b)
    ensures IsCString(s) && ReadAs(Amount(nums, b), sign == ['-'], Parse(s, base).0) && Parse(s, base).1 == |s| - |tail|
  {
    var n0, i, e, v, negative := |blanks|, |blanks| + |sign|, |s| - |tail|, Amount(nums, b), sign == ['-'];
    var j := FindsNumeral(s, blanks, sign, prefix, ds, tail, base, b, nums, n0, i, e, v, negative);
    AmountNonNegative(nums, b);
    Concludes(s, n0, i, j, base, b, e, v, negative);
  }

  /** What strtoul has found when it has read the digits. */
  predicate Found(s: seq<char>, n0: nat, i: nat, j: nat, base: int, b: int, e: nat, v: int, negative: bool) {
    && Ready(s, n0, i) && Prefix(s, i, base) == (j, b) && 2 <= b && DigitsAt(s, j, b, e, v)
    && (s[n0] == '-' <==> negative)
  }

  lemma Concludes(s: seq<char>, n0: nat, i: nat, j: nat, base: int, b: int, e: nat, v: int, negative: bool)
    requires Found(s, n0, i, j, base, b, e, v, negative) && 0 <= v
    ensures ReadAs(v, negative, Parse(s, base).0) && Parse(s, base).1 == e
  {
    ParsedTo(s, base, n0, i, j, b, e, v);
    FinishReads(v, negative);
  }

  /** strtoul finds the digits from j on. */
  lemma FindsNumeral(s: seq<char>, blanks: seq<char>, sign: seq<char>, prefix: seq<char>, ds: seq<char>, tail: seq<char>,
                     base: int, b: int, nums: seq<int>, n0: nat, i: nat, e: nat, v: int, negative: bool) returns (j: nat)
    requires s == blanks + sign + prefix + ds + tail
    requires (forall k :: 0 <= k < |blanks| ==> blanks[k] == ' ') && IsSign(sign)
    requires ds != [] && Introduces(prefix, base, b, ds) && Spelled(ds, nums, b)
    requires Closes(tail, prefix, ds, base, b)
    requires n0 == |blanks| && i == n0 + |sign| && e == |s| - |tail| && v == Amount(nums, b) && (negative <==> sign == ['-'])
    ensures Found(s, n0, i, j, base, b, e, v, negative)
  {
    SpelledDigit(ds[0], nums[0]);
    FindsDigits(s, blanks, sign, prefix, ds, tail, base, b, n0, i, negative);
    Suffixes(s, blanks + sign, prefix, ds, tail);
    NotAnX(ds, tail, nums, b, base, prefix);
    j := FindsAll(s, n0, i, prefix, ds, tail, base, b, nums, e, v, negative);
  }

  lemma FindsAll(s: seq<char>, n0: nat, i: nat, prefix: seq<char>, ds: seq<char>, tail: seq<char>,
                 base: int, b: int, nums: seq<int>, e: nat, v: int, negative: bool) returns (j: nat)
    requires Signed(s, n0, i, negative)
    requires i + |prefix| <= |s| && s[i..] == prefix + ds + tail && s[i + |prefix|..] == ds + tail
    requires ds != [] && Introduces(prefix, base, b, ds) && Spelled(ds, nums, b) && Closes(tail, prefix, ds, base, b)
    requires base == 16 && prefix == [] && ds[0] == '0' ==> (ds + tail)[1] != 'x'
    requires base == 16 || base == 0 ==> ds[0] != 'x' && ds[0] != 'X'
    requires e == |s| - |tail| && v == Amount(nums, b)
    ensures Found(s, n0, i, j, base, b, e, v, negative)
  {
    j := FindsFrom(s, i, prefix, ds, tail, base, b, nums, e, v);
  }

  predicate Signed(s: seq<char>, n0: nat, i: nat, negative: bool) {
    Ready(s, n0, i) && (s[n0] == '-' <==> negative)
  }

  lemma FindsFrom(s: seq<char>, i: nat, prefix: seq<char>, ds: seq<char>, tail: seq<char>, base: int, b: int, nums: seq<int>,
                  e: nat, v: int) returns (j: nat)
    requires i + |prefix| <= |s| && s[i..] == prefix + ds + tail && s[i + |prefix|..] == ds + tail && NUL in s[i..]
    requires ds != [] && Introduces(prefix, base, b, ds) && Spelled(ds, nums, b) && Closes(tail, prefix, ds, base, b)
    requires base == 16 && prefix == [] && ds[0] == '0' ==> (ds + tail)[1] != 'x'
    requires base == 16 || base == 0 ==> ds[0] != 'x' && ds[0] != 'X'
    requires e == |s| - |tail| && v == Amount(nums, b)
    ensures i < |s| && Prefix(s, i, base) == (j, b) && 2 <= b && DigitsAt(s, j, b, e, v)
  {
    PrefixRead(s, i, prefix, ds, tail, base, b);
    j := if base == 16 && prefix == [] && ds[0] == '0' then i + 1 else i + |prefix|;
    DigitsFound(s, i, prefix, ds, tail, base, b, nums, j, e, v);
  }

  lemma DigitsFound(s: seq<char>, i: nat, prefix: seq<char>, ds: seq<char>, tail: seq<char>, base: int, b: int,
                    nums: seq<int>, j: nat, e: nat, v: int)
    requires i + |prefix| <= |s| && s[i + |prefix|..] == ds + tail && ds != [] && 2 <= b
    requires Spelled(ds, nums, b) && tail != [] && NUL in tail && NoDigit(tail[0], b)
    requires j == if base == 16 && prefix == [] && ds[0] == '0' then i + 1 else i + |prefix|
    requires e == |s| - |tail| && v == Amount(nums, b)
    ensures DigitsAt(s, j, b, e, v)
  {
    if base == 16 && prefix == [] && ds[0] == '0' {
      assert s[i] == s[i + |prefix|..][0];
      DigitsFromZero(s, b, i, ds, tail, nums, e, v);
    } else {
      DigitsFrom(s, b, j, ds, tail, nums, e, v);
    }
  }

  lemma Suffixes(s: seq<char>, a: seq<char>, prefix: seq<char>, ds: seq<char>, tail: seq<char>)
    requires s == a + prefix + ds + tail
    ensures s[|a|..] == prefix + ds + tail && s[|a| + |prefix|..] == ds + tail
  {
  }

  /** Spaces end at n0 and a sign, if any, at i. */
  predicate Ready(s: seq<char>, n0: nat, i: nat) {
    && IsCString(s) && NUL in s[0..] && n0 == SkipSpaces(s, 0) && NUL in s[n0..] && i == SkipSign(s, n0)
    && i < |s| && NUL in s[i..]
  }

  /** The digits from j on end at e and have the value v. */
  predicate DigitsAt(s: seq<char>, j: nat, b: int, e: nat, v: int) {
    j < |s| && NUL in s[j..] && SkipDigits(s, j, b) == e && Value(s[j..e], b) == v
  }

  lemma ParsedTo(s: seq<char>, base: int, n0: nat, i: nat, j: nat, b: int, e: nat, v: int)
    requires Ready(s, n0, i) && Prefix(s, i, base) == (j, b) && 2 <= b && DigitsAt(s, j, b, e, v)
    ensures Parse(s, base) == (StandardValue(v, s[n0] == '-'), e)
  {
    ParseFrom(s, base, n0, i, j, b);
  }

  lemma DigitsFrom(s: seq<char>, b: int, j: nat, ds: seq<char>, tail: seq<char>, nums: seq<int>, e: nat, v: int)
    requires 2 <= b && j <= |s| && s[j..] == ds + tail
    requires Spelled(ds, nums, b) && tail != [] && NUL in tail && NoDigit(tail[0], b)
    requires e == |s| - |tail| && v == Amount(nums, b)
    ensures DigitsAt(s, j, b, e, v)
  {
    DigitsRead(s, j, ds, tail, nums, b);
    SameEnd(s, j, ds, tail);
  }

  lemma SameEnd(s: seq<char>, j: nat, ds: seq<char>, tail: seq<char>)
    requires j <= |s| && s[j..] == ds + tail
    ensures j + |ds| == |s| - |tail|
  {
    assert |s[j..]| == |ds| + |tail|;
  }

  lemma DigitsFromZero(s: seq<char>, b: int, i: nat, ds: seq<char>, tail: seq<char>, nums: seq<int>, e: nat, v: int)
    requires 2 <= b && i < |s| && s[i..] == ds + tail && s[i] == '0'
    requires Spelled(ds, nums, b) && tail != [] && NUL in tail && NoDigit(tail[0], b)
    requires e == |s| - |tail| && v == Amount(nums, b)
    ensures DigitsAt(s, i + 1, b, e, v)
  {
    DigitsFrom(s, b, i, ds, tail, nums, e, v);
    ZeroSkipped(s, i, b, e, v);
  }

  lemma ZeroSkipped(s: seq<char>, i: nat, b: int, e: nat, v: int)
    requires DigitsAt(s, i, b, e, v) && s[i] == '0' && 2 <= b
    ensures DigitsAt(s, i + 1, b, e, v)
  {
    SkipZero(s, i, b);
  }

  /** Spaces and sign are passed over. */
  lemma FindsDigits(s: seq<char>, blanks: seq<char>, sign: seq<char>, prefix: seq<char>, ds: seq<char>, tail: seq<char>,
                    base: int, b: int, n0: nat, i: nat, negative: bool)
    requires s == blanks + sign + prefix + ds + tail
    requires (forall k :: 0 <= k < |blanks| ==> blanks[k] == ' ') && IsSign(sign) && NUL in tail
    requires ds != [] && ds[0] != ' ' && ds[0] != '+' && ds[0] != '-' && Introduces(prefix, base, b, ds)
    requires n0 == |blanks| && i == n0 + |sign| && (negative <==> sign == ['-'])
    ensures Signed(s, n0, i, negative)
  {
    var t :| 0 <= t < |tail| && tail[t] == NUL;
    assert s[|s| - |tail| + t] == NUL;
    var first := (prefix + ds)[0];
    assert first != ' ' && first != '+' && first != '-';
    assert s[i] == first;
    assert sign != [] ==> s[n0] == sign[0];
    SpacesEnd(s, n0);
  }

  lemma NotAnX(ds: seq<char>, tail: seq<char>, nums: seq<int>, b: int, base: int, prefix: seq<char>)
    requires ds != [] && Introduces(prefix, base, b, ds) && Spelled(ds, nums, b) && Closes(tail, prefix, ds, base, b)
    ensures base == 16 && prefix == [] && ds[0] == '0' ==> (ds + tail)[1] != 'x'
    ensures base == 16 || base == 0 ==> ds[0] != 'x' && ds[0] != 'X'
  {
    SpelledDigit(ds[0], nums[0]);
    if |ds| > 1 {
      SpelledDigit(ds[1], nums[1]);
    }
  }

  lemma {:induction false} AmountNonNegative(nums: seq<int>, b: int)
    requires 0 <= b && forall k :: 0 <= k < |nums| ==> 0 <= nums[k]
    ensures 0 <= Amount(nums, b)
  {
    if nums != [] {
      AmountNonNegative(nums[..|nums| - 1], b);
      assert 0 <= Amount(nums[..|nums| - 1], b) * b;
    }
  }

  // ----- atob -----

  lemma SpelledIsPlain(ds: seq<char>, nums: seq<int>, b: int)
    requires Spelled(ds, nums, b) && 2 <= b <= 16
    ensures Plain(ds, b) == Some(Amount(nums, b) % 0x1_0000_0000)
    ensures !HasPrefix(ds) && '.' !in ds
  {
    forall k | 0 <= k < |ds|
      ensures IsHex(ds[k]) && DigitOf(ds[k]) < b && ds[k] != '.' && ds[k] != 'x' && ds[k] != 'X'
    {
      SpelledDigit(ds[k], nums[k]);
    }
    ValueIsAmount(ds, nums, b);
  }

  lemma NoDot(p: seq<char>)
    requires '.' !in p
    ensures FirstDot(p) == |p|
  {
  }

  lemma ParsedPlain(p: seq<char>, b: int)
    requires !HasPrefix(p) && '.' !in p
    ensures Parsed(p, b) == Plain(p, b)
  {
    NoDot(p);
  }

  /** Digits of a base up to 16 are read as their number modulo 2^32. */
  lemma AtobReads(ds: seq<char>, nums: seq<int>, b: int)
    requires Spelled(ds, nums, b) && 2 <= b <= 16
    ensures AtobParse(ds, b) == Some(Amount(nums, b) % 0x1_0000_0000)
  {
    SpelledIsPlain(ds, nums, b);
    ParsedPlain(ds, b);
  }

  /** The base that 0 and x ask for before the digits: x or X for 16 always, and with no base given t or n for 10
      and o for 8. */
  predicate AsksFor(x: char, base: int, b: int) {
    || ((x == 'x' || x == 'X') && b == 16)
    || ((x == 't' || x == 'n') && base == 0 && b == 10)
    || (x == 'o' && base == 0 && b == 8)
  }

  lemma AtobReadsPrefixed(x: char, ds: seq<char>, nums: seq<int>, base: int, b: int)
    requires AsksFor(x, base, b) && Spelled(ds, nums, b)
    ensures AtobParse(['0', x] + ds, base) == Some(Amount(nums, b) % 0x1_0000_0000)
  {
    var p := ['0', x] + ds;
    SpelledIsPlain(ds, nums, b);
    ParsedPlain(ds, b);
    assert p[2..] == ds && p[0] == '0' && p[1] == x;
    NoDot(ds);
  }

  /** With no base given and no such prefix the base is 10. */
  lemma AtobReadsDecimal(ds: seq<char>, nums: seq<int>)
    requires Spelled(ds, nums, 10)
    ensures AtobParse(ds, 0) == Some(Amount(nums, 10) % 0x1_0000_0000)
  {
    SpelledIsPlain(ds, nums, 10);
    ParsedPlain(ds, 10);
    if |ds| >= 2 {
      SpelledDigit(ds[1], nums[1]);
      DecimalLetters(ds[1], nums[1]);
    }
  }

  lemma DecimalLetters(c: char, d: int)
    requires Spells(c, d) && d < 10
    ensures c != 't' && c != 'n' && c != 'o'
  {
    LowerAt(d);
    UpperAt(d);
  }

  /** In base 16, two numbers around a dot are the high and the low half of the result, each taken modulo 2^32; the
      first has at most 19 digits. */
  lemma AtobReadsHalves(high: seq<char>, highs: seq<int>, low: seq<char>, lows: seq<int>)
    requires Spelled(high, highs, 16) && Spelled(low, lows, 16)
    ensures AtobParse(high + ['.'] + low, 16)
            == if |high| <= 19 then Some((Amount(highs, 16) % 0x1_0000_0000 * 0x1_0000 + Amount(lows, 16) % 0x1_0000_0000) % 0x1_0000_0000)
               else None
  {
    ReadsHalves(high + ['.'] + low, |high|, high, highs, low, lows,
                Amount(highs, 16) % 0x1_0000_0000, Amount(lows, 16) % 0x1_0000_0000);
  }

  lemma ReadsHalves(p: seq<char>, q: nat, high: seq<char>, highs: seq<int>, low: seq<char>, lows: seq<int>, v1: int, v2: int)
    requires p == high + ['.'] + low && q == |high| && Spelled(high, highs, 16) && Spelled(low, lows, 16)
    requires v1 == Amount(highs, 16) % 0x1_0000_0000 && v2 == Amount(lows, 16) % 0x1_0000_0000
    ensures AtobParse(p, 16) == if q <= 19 then Some((v1 * 0x1_0000 + v2) % 0x1_0000_0000) else None
  {
    SpelledParsed(high, highs, v1);
    SpelledParsed(low, lows, v2);
    HalvesOf(p, q, high, highs, low, v1, v2);
    HalvesParsed(p, q, v1, v2);
  }

  lemma SpelledParsed(ds: seq<char>, nums: seq<int>, v: int)
    requires Spelled(ds, nums, 16) && v == Amount(nums, 16) % 0x1_0000_0000
    ensures Parsed(ds, 16) == Some(v) && '.' !in ds
  {
    SpelledIsPlain(ds, nums, 16);
    ParsedPlain(ds, 16);
  }

  lemma HalvesOf(p: seq<char>, q: nat, high: seq<char>, highs: seq<int>, low: seq<char>, v1: int, v2: int)
    requires p == high + ['.'] + low && q == |high| && Spelled(high, highs, 16) && '.' !in high && '.' !in low
    requires Parsed(high, 16) == Some(v1) && Parsed(low, 16) == Some(v2)
    ensures Halves(p, q, v1, v2)
  {
    DotAt(p, high, low);
    HalvesHaveNoPrefix(p, high, highs, low);
  }

  /** A dot at q between two numbers. */
  predicate Halves(p: seq<char>, q: nat, v1: int, v2: int) {
    && q < |p| && FirstDot(p) == q && !HasPrefix(p) && '.' !in p[q + 1..]
    && Parsed(p[..q], 16) == Some(v1) && Parsed(p[q + 1..], 16) == Some(v2)
  }

  lemma HalvesParsed(p: seq<char>, q: nat, v1: int, v2: int)
    requires Halves(p, q, v1, v2)
    ensures AtobParse(p, 16) == if q <= 19 then Some((v1 * 0x1_0000 + v2) % 0x1_0000_0000) else None
  {
    ParsedDotted(p, q);
    DottedIs(p, q, v1, v2, (v1 * 0x1_0000 + v2) % 0x1_0000_0000);
  }

  lemma ParsedDotted(p: seq<char>, q: nat)
    requires q < |p| && FirstDot(p) == q && !HasPrefix(p)
    ensures AtobParse(p, 16) == Dotted(p, q)
  {
  }

  lemma DottedIs(p: seq<char>, q: nat, v1: int, v2: int, r: int)
    requires r == (v1 * 0x1_0000 + v2) % 0x1_0000_0000
    requires q < |p| && '.' !in p[q + 1..]
    requires Parsed(p[..q], 16) == Some(v1) && Parsed(p[q + 1..], 16) == Some(v2)
    ensures Dotted(p, q) == if q <= 19 then Some(r) else None
  {
  }

  lemma DotAt(p: seq<char>, high: seq<char>, low: seq<char>)
    requires p == high + ['.'] + low && '.' !in high
    ensures FirstDot(p) == |high| && p[|high|] == '.' && p[..|high|] == high && p[|high| + 1..] == low
  {
    assert p[..|high|] == high;
    FirstIsUnique(p, '.', |high|, FirstDot(p));
  }

  lemma HalvesHaveNoPrefix(p: seq<char>, high: seq<char>, highs: seq<int>, low: seq<char>)
    requires p == high + ['.'] + low && Spelled(high, highs, 16)
    ensures !HasPrefix(p)
  {
    if |high| > 1 {
      SpelledDigit(high[1], highs[1]);
    }
  }

  /** A character that is no digit of the base, or of base 16, makes it fail. */
  lemma AtobRefuses(p: seq<char>, base: int, k: nat)
    requires base != 0 && k < |p| && !HasPrefix(p) && '.' !in p
    requires NoDigit(p[k], base) || NoDigit(p[k], 16)
    ensures AtobParse(p, base) == None
  {
    ParsedPlain(p, base);
    if IsHex(p[k]) && DigitOf(p[k]) < base {
      DigitSpelled(p[k]);
    }
  }

  // ----- btoa -----

  lemma DigitCharIsLower(d: int)
    requires 0 <= d < 36
    ensures DigitChar(d) == LOWER[d]
  {
    LowerAt(d);
  }

  /** Digits prints the number in lower case without a leading 0. */
  lemma {:induction false} DigitsSpell(v: nat, b: int) returns (nums: seq<int>)
    requires 2 <= b <= 36
    ensures var ds := Digits(v, b); |nums| == |ds| && forall k :: 0 <= k < |ds| ==> 0 <= nums[k] < b && ds[k] == LOWER[nums[k]]
    ensures Amount(nums, b) == v && (v > 0 ==> nums != [] && nums[0] != 0)
  {
    if v == 0 {
      nums := [];
    } else {
      DivFacts(v, b);
      var q, r := v / b, v % b;
      var rest := DigitsSpell(q, b);
      nums := rest + [r];
      AmountSnoc(rest, r, b);
      LastDigit(v, b, q, r);
      OneMore(Digits(q, b), rest, r, b, Digits(v, b), nums);
      assert q == 0 ==> rest == [] && r == v;
    }
  }

  lemma LastDigit(v: nat, b: int, q: nat, r: int)
    requires 2 <= b <= 36 && v > 0 && q == v / b && r == v % b
    ensures Digits(v, b) == Digits(q, b) + [DigitChar(r)] && (q == 0 ==> r == v && Digits(q, b) == [])
  {
  }

  lemma AmountSnoc(nums: seq<int>, d: int, b: int)
    ensures Amount(nums + [d], b) == Amount(nums, b) * b + d
  {
    assert (nums + [d])[..|nums|] == nums;
  }

  lemma OneMore(ds: seq<char>, rest: seq<int>, d: int, b: int, ds': seq<char>, nums: seq<int>)
    requires 0 <= d < b <= 36 && ds' == ds + [DigitChar(d)] && nums == rest + [d] && |ds| == |rest|
    requires forall k :: 0 <= k < |ds| ==> 0 <= rest[k] < b && ds[k] == LOWER[rest[k]]
    ensures |ds'| == |nums| && forall k :: 0 <= k < |ds'| ==> 0 <= nums[k] < b && ds'[k] == LOWER[nums[k]]
  {
    DigitCharIsLower(d);
    forall k | 0 <= k < |ds'|
      ensures 0 <= nums[k] < b && ds'[k] == LOWER[nums[k]]
    {
      if k < |ds| {
        assert ds'[k] == ds[k] && nums[k] == rest[k];
      }
    }
  }

  /** btoa prints every value as its digits in lower case, most significant first: 0 as 0, and any other without a
      leading 0; in signed decimal a value from 2^31 on is a minus sign and what it lacks to 2^32. */
  lemma BtoaSpells(v: nat, base: int) returns (nums: seq<int>)
    requires v < TWO_32 && PrintBase(base)
    ensures var negative := base == -10 && v >= 0x8000_0000; var b := if base == -10 then 10 else base;
            var t := if negative then Text(v, base)[1..] else Text(v, base);
            && (negative ==> Text(v, base) != [] && Text(v, base)[0] == '-')
            && |t| == |nums| > 0 && (forall k :: 0 <= k < |t| ==> 0 <= nums[k] < b && t[k] == LOWER[nums[k]])
            && Amount(nums, b) == (if negative then 0x1_0000_0000 - v else v)
            && (nums[0] == 0 ==> nums == [0])
  {
    if v == 0 {
      nums := [0];
      assert Amount([], 10) == 0 && nums[..0] == [];
    } else {
      nums := DigitsSpell(if base == -10 && v >= 0x8000_0000 then 0x1_0000_0000 - v else v, if base == -10 then 10 else base);
      assert base == -10 && v >= 0x8000_0000 ==> Text(v, base)[1..] == Digits(TWO_32 - v, 10);
    }
  }
}
