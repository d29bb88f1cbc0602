/** Printing and parsing numbers (btoa, _atob and atob in atob.c), with a 32-bit unsigned long. */
module Atob {
  import opened Common
  import opened Strtoul

  // ----- Printing -----

  function DigitChar(d: int): char
    requires 0 <= d < 36
  {
    if d <= 9 then (d + '0' as int) as char else (d - 10 + 'a' as int) as char
  }

  /** The digits of v, most significant first; none for 0. */
  function Digits(v: nat, b: int): seq<char>
    requires 2 <= b <= 36
  {
    if v == 0 then [] else Digits(v / b, b) + [DigitChar(v % b)]
  }

  predicate PrintBase(base: int) {
    base == -10 || 2 <= base <= 36
  }

  /** v in the given base; base -10 is signed decimal. */
  function Text(v: nat, base: int): seq<char>
    requires v < TWO_32 && PrintBase(base)
  {
    if v == 0 then ['0']
    else if base != -10 then Digits(v, base)
    else if v >= TWO_32 / 2 then ['-'] + Digits(TWO_32 - v, 10)
    else Digits(v, 10)
  }

  function Pow2(k: nat): nat {
    if k == 0 then 1 else 2 * Pow2(k - 1)
  }

  /** A number below 2^k has at most k digits in any base. */
  lemma {:induction false} DigitsAreFew(v: nat, b: int, k: nat)
    requires 2 <= b <= 36 && v < Pow2(k)
    ensures |Digits(v, b)| <= k
    decreases k
  {
    if v > 0 {
      assert v / b <= v / 2;
      DigitsAreFew(v / b, b, k - 1);
    }
  }

  lemma Pow32()
    ensures Pow2(32) == TWO_32
  {
    assert Pow2(8) == 256;
    assert Pow2(16) == 65536;
    assert Pow2(24) == 16777216;
  }

  lemma DigitCharFacts(d: int)
    requires 0 <= d < 36
    ensures DigitOf(DigitChar(d)) == d && DigitChar(d) != NUL && DigitChar(d) != ' '
    ensures DigitChar(d) != '+' && DigitChar(d) != '-' && (DigitChar(d) == '0' <==> d == 0)
    ensures DigitChar(d) != '.'
  {
  }

  /** Digits are digit characters, and the first is not 0. */
  lemma {:induction false} DigitsFacts(v: nat, b: int)
    requires 2 <= b <= 36
    ensures forall k :: 0 <= k < |Digits(v, b)| ==> InBase(Digits(v, b)[k], b)
    ensures v > 0 ==> Digits(v, b) != [] && Digits(v, b)[0] != '0'
  {
    if v > 0 {
      DigitsFacts(v / b, b);
      DigitCharFacts(v % b);
      if v / b == 0 {
        assert v == b * (v / b) + v % b;
      }
    }
  }

  lemma DivFacts(v: nat, b: int)
    requires 2 <= b
    ensures v == v / b * b + v % b && 0 <= v % b < b
    ensures v > 0 ==> 0 <= v / b < v
  {
  }

  lemma ValueOfLast(ds: seq<char>, c: char, b: int)
    ensures Value(ds + [c], b) == Value(ds, b) * b + DigitOf(c)
  {
    assert (ds + [c])[..|ds|] == ds;
  }

  /** Digits denote the number they print. */
  lemma {:induction false} ValueOfDigits(v: nat, b: int)
    requires 2 <= b <= 36
    ensures Value(Digits(v, b), b) == v
  {
    if v > 0 {
      DivFacts(v, b);
      var q, r := v / b, v % b;
      ValueOfDigits(q, b);
      DigitCharFacts(r);
      ValueOfLast(Digits(q, b), DigitChar(r), b);
    }
  }

  /** No digit, sign included, ends a string. */
  lemma DigitsHaveNoNul(v: nat, b: int)
    requires 2 <= b <= 36
    ensures NUL !in Digits(v, b)
  {
    DigitsFacts(v, b);
  }

  method Strlen(buf: array<char>) returns (n: nat)
    requires NUL in buf[..]
    ensures n < buf.Length && buf[n] == NUL && NUL !in buf[..n]
  {
    n := 0;
    while buf[n] != NUL
      invariant n < buf.Length && NUL in buf[n..] && NUL !in buf[..n]
      decreases buf.Length - n
    {
      assert buf[n..] == [buf[n]] + buf[n + 1..];
      n := n + 1;
    }
  }

  function Reversed(s: seq<char>): (r: seq<char>)
    ensures |r| == |s|
  {
    seq(|s|, k requires 0 <= k < |s| => s[|s| - 1 - k])
  }

  lemma ReversedCons(s: seq<char>, c: char)
    ensures Reversed([c] + s) == Reversed(s) + [c]
  {
  }

  lemma ReversedTwice(s: seq<char>)
    ensures Reversed(Reversed(s)) == s
    ensures NUL !in s ==> NUL !in Reversed(s)
  {
  }

  /** The text of a number is short. */
  lemma TextIsShort(v: nat, base: int)
    requires v < TWO_32 && PrintBase(base)
    ensures |Text(v, base)| <= 33 && NUL !in Text(v, base)
  {
    var neg := base == -10 && v >= TWO_32 / 2;
    var b := if base == -10 then 10 else base;
    Pow32();
    DigitsAreFew(if neg then TWO_32 - v else v, b, 32);
    DigitsHaveNoNul(if neg then TWO_32 - v else v, b);
  }

  /** Print value into dst; the caller's buffer has room for the text and its NUL. */
  method Btoa(dst: array<char>, value0: nat, base0: int)
    requires value0 < TWO_32 && PrintBase(base0) && |Text(value0, base0)| < dst.Length
    modifies dst
    ensures var t := Text(value0, base0);
            dst[..|t| + 1] == t + [NUL] && dst[|t| + 1..] == old(dst[|t| + 1..])
  {
    if value0 == 0 {
      dst[0] := '0';
      dst[1] := NUL;
      return;
    }
    var value, base, neg := value0, base0, false;
    if base == -10 {
      base := 10;
      if value >= TWO_32 / 2 {
        value := (TWO_32 - 1 - value) + 1;
        neg := true;
      }
    }
    ghost var ds := Digits(value, base);
    ghost var text := Text(value0, base0);
    assert text == if neg then ['-'] + ds else ds;
    var buf := new char[34];
    var i := Generate(buf, value, base);
    DigitsHaveNoNul(value, base);
    ReversedTwice(ds);
    if neg {
      var n := EndOf(buf, i);
      buf[n] := '-';
      buf[n + 1] := NUL;
      ReversedCons(ds, '-');
      assert buf[..i + 1] == buf[..i] + ['-'];
    }
    assert buf[..|text|] == Reversed(text) && buf[|text|] == NUL && |text| <= 33;
    TextIsShort(value0, base0);
    ReversedTwice(text);
    Reverse(dst, buf, Reversed(text));
  }

  /** strlen of a buffer whose string is known. */
  method EndOf(buf: array<char>, ghost i: nat) returns (n: nat)
    requires i < buf.Length && buf[i] == NUL && NUL !in buf[..i]
    ensures n == i
  {
    assert buf[..][i] == NUL;
    n := Strlen(buf);
    FirstIsUnique(buf[..], NUL, i, n);
  }

  lemma InPrefix(s: seq<char>, c: char, k: nat, n: nat)
    requires k < n <= |s| && s[k] == c
    ensures c in s[..n]
  {
    assert s[..n][k] == c;
  }

  /** The first c in s, or |s|, is at one place only. */
  lemma FirstIsUnique(s: seq<char>, c: char, i: nat, n: nat)
    requires i <= |s| && c !in s[..i] && (i < |s| ==> s[i] == c)
    requires n <= |s| && c !in s[..n] && (n < |s| ==> s[n] == c)
    ensures i == n
  {
    if n < i {
      InPrefix(s, c, n, i);
      assert false;
    } else if i < n {
      InPrefix(s, c, i, n);
      assert false;
    }
  }

  /** The digits of value, least significant first, and a NUL after them; 32 fit. */
  method Generate(buf: array<char>, value0: nat, base: int) returns (i: nat)
    requires 0 < value0 < TWO_32 && 2 <= base <= 36 && buf.Length == 34
    modifies buf
    ensures i == |Digits(value0, base)| <= 32
    ensures buf[..i] == Reversed(Digits(value0, base)) && buf[i] == NUL
  {
    Pow32();
    DigitsAreFew(value0, base, 32);
    var value := value0;
    i := 0;
    ghost var high := [];
    while value != 0
      invariant 0 <= value <= value0 && i == |high| <= 32
      invariant Digits(value0, base) == Digits(value, base) + high
      invariant buf[..i] == Reversed(high)
      decreases value
    {
      DivFacts(value, base);
      var rem := value % base;
      var digit := DigitChar(rem);
      Regroup(Digits(value / base, base), digit, high);
      value := value / base;
      buf[i] := digit;
      ReversedCons(high, digit);
      assert buf[..i + 1] == buf[..i] + [digit];
      high := [digit] + high;
      i := i + 1;
    }
    buf[i] := NUL;
  }

  lemma Regroup(a: seq<char>, c: char, b: seq<char>)
    ensures (a + [c]) + b == a + ([c] + b) && |a + ([c] + b)| == |a| + 1 + |b|
  {
  }

  /** Copy the string in buf to dst, last character first. */
  method Reverse(dst: array<char>, buf: array<char>, ghost text: seq<char>)
    requires dst != buf && |text| < buf.Length && |text| < dst.Length
    requires buf[..|text|] == text && NUL !in text && buf[|text|] == NUL
    modifies dst
    ensures dst[..|text| + 1] == Reversed(text) + [NUL] && dst[|text| + 1..] == old(dst[|text| + 1..])
  {
    var n := EndOf(buf, |text|);
    var i: int, j: int := 0, n - 1;
    while j >= 0
      invariant 0 <= i <= n && j == n - 1 - i
      invariant forall k :: 0 <= k < i ==> dst[k] == text[n - 1 - k]
      invariant dst[n + 1..] == old(dst[n + 1..])
    {
      dst[i] := buf[j];
      i, j := i + 1, j - 1;
    }
    dst[i] := NUL;
  }

  // ----- Parsing -----

  /** The digits that _atob knows. */
  predicate IsHex(c: char) {
    '0' <= c <= '9' || 'a' <= c <= 'f' || 'A' <= c <= 'F'
  }

  predicate Accepts(p: seq<char>, base: int) {
    forall k :: 0 <= k < |p| ==> IsHex(p[k]) && DigitOf(p[k]) < base
  }

  /** The conversion loop: the value modulo 2^32, or nothing when some character is not a digit. */
  function Plain(p: seq<char>, base: int): Option<int> {
    if Accepts(p, base) then Some(Value(p, base) % TWO_32) else None
  }

  /** The first '.' in p, or |p|. */
  function FirstDot(p: seq<char>): (q: nat)
    ensures q <= |p| && '.' !in p[..q] && (q < |p| ==> p[q] == '.')
  {
    if p == [] || p[0] == '.' then 0
    else
      var q := FirstDot(p[1..]);
      assert p[..1 + q] == [p[0]] + p[1..][..q];
      1 + q
  }

  // Size of the scratch buffer for the part before a '.'.
  const TMP_SIZE: int := 20

  predicate HasPrefix(p: seq<char>) {
    |p| >= 2 && p[0] == '0' && (p[1] == 'x' || p[1] == 'X')
  }

  /** _atob on the characters p of a string: hexadecimal after 0x, and in base 16 two halves around a '.'. */
  function Parsed(p0: seq<char>, base0: int): Option<int>
    decreases |p0|, 1
  {
    var (p, base) := if HasPrefix(p0) then (p0[2..], 16) else (p0, base0);
    var q := FirstDot(p);
    if base == 16 && q < |p| then Dotted(p, q) else Plain(p, base)
  }

  /** Two hexadecimal numbers around the '.' at q: the high half and the low half. */
  function Dotted(p: seq<char>, q: nat): Option<int>
    requires q < |p|
    decreases |p|, 0
  {
    var v1, v2 := Parsed(p[..q], 16), Parsed(p[q + 1..], 16);
    if q > TMP_SIZE - 1 || v1.None? || '.' in p[q + 1..] || v2.None? then None
    else Some((v1.value * 0x10000 + v2.value) % TWO_32)
  }

  /** atob: base 0 asks for the base to be found in the string. */
  function AtobParse(p: seq<char>, base: int): Option<int> {
    if base == 0 then var (p', b) := GetBase(p); Parsed(p', b) else Parsed(p, base)
  }

  function GetBase(p: seq<char>): (seq<char>, int) {
    if |p| >= 2 && p[0] == '0' then
      if p[1] == 'x' then (p[2..], 16)
      else if p[1] == 't' || p[1] == 'n' then (p[2..], 10)
      else if p[1] == 'o' then (p[2..], 8)
      else (p, 10)
    else (p, 10)
  }

  method AtobMethod(p: seq<char>, base: int) returns (r: Option<int>)
    ensures r == AtobParse(p, base)
  {
    if base == 0 {
      var (p', b) := GetBase(p);
      r := AtobRaw(p', b);
    } else {
      r := AtobRaw(p, base);
    }
  }

  method Strchr(p: seq<char>, c: char) returns (q: nat)
    ensures q <= |p| && c !in p[..q] && (q < |p| ==> p[q] == c)
  {
    q := 0;
    while q < |p| && p[q] != c
      invariant q <= |p| && c !in p[..q]
    {
      q := q + 1;
    }
  }

  method AtobRaw(p0: seq<char>, base0: int) returns (r: Option<int>)
    ensures r == Parsed(p0, base0)
    decreases |p0|, 1
  {
    var p, base := p0, base0;
    if |p| >= 2 && p[0] == '0' && (p[1] == 'x' || p[1] == 'X') {
      base := 16;
      p := p[2..];
    }
    var q := |p|;
    if base == 16 {
      q := Strchr(p, '.');
      FirstIsUnique(p, '.', q, FirstDot(p));
    }
    if base == 16 && q < |p| {
      r := AtobDotted(p, q);
    } else {
      r := AtobLoop(p, base);
    }
  }

  method AtobDotted(p: seq<char>, q: nat) returns (r: Option<int>)
    requires q < |p|
    ensures r == Dotted(p, q)
    decreases |p|, 0
  {
    if q > TMP_SIZE - 1 {
      return None;
    }
    var v1 := AtobRaw(p[..q], 16);
    if v1.None? {
      return None;
    }
    if '.' in p[q + 1..] {
      return None;
    }
    var v2 := AtobRaw(p[q + 1..], 16);
    if v2.None? {
      return None;
    }
    return Some((v1.value * 0x10000 + v2.value) % TWO_32);
  }

  /** One digit more, in 32-bit arithmetic. */
  lemma WrapStep(v: int, base: int, d: int)
    ensures ((v % TWO_32) * base % TWO_32 + d) % TWO_32 == (v * base + d) % TWO_32
  {
    var q, r := v / TWO_32, v % TWO_32;
    var q', r' := r * base / TWO_32, r * base % TWO_32;
    assert v * base == (q * base) * TWO_32 + r * base by {
      assert v == q * TWO_32 + r;
    }
    assert r * base == q' * TWO_32 + r';
    assert v * base + d == (q * base + q') * TWO_32 + (r' + d);
    ModShift(r' + d, q * base + q');
  }

  lemma ModShift(x: int, k: int)
    ensures (k * TWO_32 + x) % TWO_32 == x % TWO_32
  {
    var a := x / TWO_32;
    assert k * TWO_32 + x == (k + a) * TWO_32 + x % TWO_32;
  }

  lemma DigitStep(ds: seq<char>, c: char, base: int)
    requires Accepts(ds, base) && IsHex(c) && DigitOf(c) < base
    ensures Accepts(ds + [c], base)
    ensures Value(ds + [c], base) % TWO_32 == (Value(ds, base) % TWO_32 * base % TWO_32 + DigitOf(c)) % TWO_32
  {
    ValueOfLast(ds, c, base);
    WrapStep(Value(ds, base), base, DigitOf(c));
  }

  method AtobLoop(p: seq<char>, base: int) returns (r: Option<int>)
    ensures r == Plain(p, base)
  {
    var value := 0;
    var i := 0;
    ghost var done := [];
    while i < |p|
      invariant 0 <= i <= |p| && done == p[..i] && Accepts(done, base)
      invariant value == Value(done, base) % TWO_32
    {
      var digit;
      if '0' <= p[i] <= '9' {
        digit := p[i] as int - '0' as int;
      } else if 'a' <= p[i] <= 'f' {
        digit := p[i] as int - 'a' as int + 10;
      } else if 'A' <= p[i] <= 'F' {
        digit := p[i] as int - 'A' as int + 10;
      } else {
        return None;
      }
      if digit >= base {
        return None;
      }
      assert p[..i + 1] == done + [p[i]];
      DigitStep(done, p[i], base);
      done := done + [p[i]];
      value := value * base % TWO_32;
      value := (value + digit) % TWO_32;
      i := i + 1;
    }
    assert p[..i] == p;
    r := Some(value);
  }

  // ----- Round trips -----

  /** A run of digits ended by NUL is read to its end. */
  lemma ReadsAll(s: seq<char>, i: nat, ds: seq<char>, b: int)
    requires i <= |s| && s[i..] == ds + [NUL] && 2 <= b && forall k :: 0 <= k < |ds| ==> InBase(ds[k], b)
    ensures i < |s| && NUL in s[i..]
    ensures SkipDigits(s, i, b) == i + |ds| && s[i..i + |ds|] == ds
  {
    var n := |ds|;
    assert |s[i..]| == n + 1 && s[i..][n] == NUL;
    forall k | i <= k < i + n
      ensures s[k] == ds[k - i]
    {
      assert s[k] == s[i..][k - i];
    }
    StopsAt(s, i, b, i + n);
  }

  lemma StopsAt(s: seq<char>, i: nat, b: int, e: nat)
    requires i <= e < |s| && NUL in s[i..] && !InBase(s[e], b)
    requires forall k :: i <= k < e ==> InBase(s[k], b)
    ensures SkipDigits(s, i, b) == e
  {
  }

  /** strtoul reads back what btoa prints, in every base, and to the end. */
  lemma StrtoulOfBtoa(v: nat, b: int)
    requires v < TWO_32 && 2 <= b <= 36
    ensures Parse(Text(v, b) + [NUL], b) == (v, |Text(v, b)|)
  {
    var t := Text(v, b);
    var s := t + [NUL];
    assert s[|t|] == NUL && s[0..] == s;
    if v == 0 {
      ZeroText(s, b);
    } else {
      DigitsFacts(v, b);
      ValueOfDigits(v, b);
      FirstIsPlain(t, b);
      ReadsAll(s, 0, t, b);
      ParseFrom(s, b, 0, 0, 0, b);
    }
  }

  lemma ZeroText(s: seq<char>, b: int)
    requires s == ['0', NUL] && 2 <= b <= 36
    ensures IsCString(s) && Parse(s, b) == (0, 1)
  {
    assert s[1] == NUL && s[0..] == s;
    if b == 16 {
      ZeroHexText(s);
    } else {
      ReadsAll(s, 0, ['0'], b);
      ZeroIsZero(b);
      ParseFrom(s, b, 0, 0, 0, b);
    }
  }

  lemma ZeroHexText(s: seq<char>)
    requires s == ['0', NUL] && IsCString(s) && s[0..] == s
    ensures Parse(s, 16) == (0, 1)
  {
    assert s[1..] == [] + [NUL] && s[1..1] == [];
    ReadsAll(s, 1, [], 16);
    ParseFrom(s, 16, 0, 0, 1, 16);
  }

  lemma ZeroIsZero(b: int)
    ensures Value(['0'], b) == 0
  {
    assert ['0'][..0] == [];
  }

  /** A digit is neither a space nor a sign. */
  lemma FirstIsPlain(t: seq<char>, b: int)
    requires t != [] && InBase(t[0], b)
    ensures t[0] != ' ' && t[0] != '+' && t[0] != '-' && t[0] != NUL
  {
  }

  /** And in signed decimal: the minus sign negates modulo 2^32. */
  lemma StrtoulOfSignedBtoa(v: nat)
    requires v < TWO_32
    ensures Parse(Text(v, -10) + [NUL], 10) == (v, |Text(v, -10)|)
  {
    if v < TWO_32 / 2 {
      assert Text(v, -10) == Text(v, 10);
      StrtoulOfBtoa(v, 10);
    } else {
      var w := TWO_32 - v;
      DigitsFacts(w, 10);
      ValueOfDigits(w, 10);
      ParseNegative(['-'] + Digits(w, 10) + [NUL], Digits(w, 10));
      NegatedTwice(v);
    }
  }

  lemma NegatedTwice(v: nat)
    requires 0 < v < TWO_32
    ensures StandardValue(TWO_32 - v, true) == v
  {
  }

  lemma ParseNegative(s: seq<char>, ds: seq<char>)
    requires s == ['-'] + ds + [NUL] && forall k :: 0 <= k < |ds| ==> InBase(ds[k], 10)
    ensures IsCString(s) && Parse(s, 10) == (StandardValue(Value(ds, 10), true), |ds| + 1)
  {
    assert s == ['-'] + (ds + [NUL]);
    assert s[1..] == ds + [NUL] && s[0..] == s;
    assert s[|ds| + 1] == NUL;
    ReadsAll(s, 1, ds, 10);
    ParseFrom(s, 10, 0, 1, 1, 10);
  }

  /** atob reads back what btoa prints exactly when every digit is one that it knows. */
  lemma AtobOfBtoa(v: nat, b: int)
    requires v < TWO_32 && 2 <= b <= 36
    ensures AtobParse(Text(v, b), b) == if Accepts(Text(v, b), b) then Some(v) else None
    ensures b <= 16 ==> Accepts(Text(v, b), b)
  {
    TextFacts(v, b);
    AtobWithoutDot(Text(v, b), b);
  }

  /** 16 in base 17 is the digit g, which atob does not know. */
  lemma AtobRefusesG()
    ensures Text(16, 17) == ['g'] && AtobParse(Text(16, 17), 17) == None
  {
    assert Digits(16, 17) == Digits(0, 17) + [DigitChar(16)];
    AtobOfBtoa(16, 17);
    assert !IsHex(Text(16, 17)[0]);
  }

  lemma AtobWithoutDot(t: seq<char>, b: int)
    requires 2 <= b && !HasPrefix(t) && '.' !in t[..|t|] && 0 <= Value(t, b) < TWO_32
    ensures AtobParse(t, b) == if Accepts(t, b) then Some(Value(t, b)) else None
  {
    FirstIsUnique(t, '.', |t|, FirstDot(t));
  }

  lemma TextFacts(v: nat, b: int)
    requires v < TWO_32 && 2 <= b <= 36
    ensures var t := Text(v, b);
            && Value(t, b) == v && !HasPrefix(t) && '.' !in t[..|t|] && t[..|t|] == t
            && (b <= 16 ==> Accepts(t, b))
  {
    var t := Text(v, b);
    if v == 0 {
      ZeroIsZero(b);
    } else {
      DigitsFacts(v, b);
      ValueOfDigits(v, b);
      assert forall k :: 0 <= k < |t| ==> InBase(t[k], b);
    }
    if b <= 16 {
      LowDigitsAreHex(t, b);
    }
  }

  lemma LowDigitsAreHex(t: seq<char>, b: int)
    requires b <= 16 && forall k :: 0 <= k < |t| ==> InBase(t[k], b)
    ensures Accepts(t, b)
  {
  }

  /** Signed decimal comes back through atob exactly when there is no sign. */
  lemma AtobOfSignedBtoa(v: nat)
    requires v < TWO_32
    ensures AtobParse(Text(v, -10), 10) == if v < TWO_32 / 2 then Some(v) else None
  {
    if v < TWO_32 / 2 {
      assert Text(v, -10) == Text(v, 10);
      AtobOfBtoa(v, 10);
    } else {
      var t := Text(v, -10);
      assert t[0] == '-' && !IsHex(t[0]);
    }
  }
}
