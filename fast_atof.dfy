/**
  The integer scanners of the engine's fast string-to-number header:
  strtoul10, strtol10 and strtoul16.

  A C string is a `seq<char>` read up to its end; reading one past the end
  yields the terminating NUL. A `const char*` is `Ptr`: null, or an offset
  into the text. The 32-bit unsigned accumulator is a `nat` below 2^32 and
  every multiply-and-add is reduced modulo 2^32, so the overflow tests of
  the source see exactly the wrapped values they see in C.
 */
module FastAtof {

  const U32Modulus: nat := 0x1_0000_0000
  const U32Max: nat := 0xffff_ffff
  const IntMax: int := 0x7fff_ffff
  const IntMin: int := -0x8000_0000

  /** A `const char*`: null, or the position it points at. */
  datatype Ptr = Null | At(pos: nat)

  /** What a scanner returns together with the pointer it stores in `*out`. */
  datatype Parsed = Parsed(value: int, out: Ptr)

  /** The scanners' 32-bit accumulator and overflow flag. */
  datatype Acc = Acc(value: nat, overflow: bool)

  predicate ValidPtr(s: seq<char>, p: Ptr) {
    p.At? ==> p.pos <= |s|
  }

  /** The character `*in` reads; past the text it is the terminating NUL. */
  function CharAt(s: seq<char>, i: nat): char {
    if i < |s| then s[i] else '\0'
  }

  // ---------------------------------------------------------------------
  // Decimal digits

  predicate IsDecimalDigit(c: char) {
    '0' <= c <= '9'
  }

  predicate AllDecimal(ds: seq<char>) {
    forall k :: 0 <= k < |ds| ==> IsDecimalDigit(ds[k])
  }

  function DecimalDigitValue(c: char): (d: nat)
    requires IsDecimalDigit(c)
    ensures d <= 9
  {
    (c as int) - ('0' as int)
  }

  /** The end of the maximal run of decimal digits that starts at `i`. */
  function DecimalEnd(s: seq<char>, i: nat): (e: nat)
    requires i <= |s|
    ensures i <= e <= |s|
    ensures AllDecimal(s[i..e])
    ensures !IsDecimalDigit(CharAt(s, e))
    decreases |s| - i
  {
    if i < |s| && IsDecimalDigit(s[i]) then DecimalEnd(s, i + 1) else i
  }

  /** The mathematical (unbounded) value of a run of decimal digits. */
  function DecimalValue(ds: seq<char>): nat
    requires AllDecimal(ds)
  {
    if ds == [] then 0
    else 10 * DecimalValue(ds[..|ds| - 1]) + DecimalDigitValue(ds[|ds| - 1])
  }

  /** One iteration of strtoul10's loop body on digit value `d`. */
  function Step10(a: Acc, d: nat): Acc {
    var tmp := (a.value * 10 + d) % U32Modulus;
    var a1 := if tmp < a.value then Acc(U32Max, true) else a;
    if !a1.overflow then Acc(tmp, a1.overflow) else a1
  }

  /** strtoul10's accumulator after consuming the digits `ds` in order. */
  function Fold10(ds: seq<char>): (r: Acc)
    requires AllDecimal(ds)
    ensures r.value <= U32Max
    ensures r.overflow ==> r == Acc(U32Max, true)
  {
    if ds == [] then Acc(0, false)
    else Step10(Fold10(ds[..|ds| - 1]), DecimalDigitValue(ds[|ds| - 1]))
  }

  /** What strtoul10 returns and stores in `*out`. */
  function Ul10(s: seq<char>, p: Ptr): Parsed
    requires ValidPtr(s, p)
  {
    match p
    case Null => Parsed(0, Null)
    case At(i) =>
      var e := DecimalEnd(s, i);
      Parsed(Fold10(s[i..e]).value, At(e))
  }

  /** Consuming one more digit of the run is one more step of the fold. */
  lemma Fold10Next(s: seq<char>, from: nat, i: nat)
    requires from <= i < |s| && AllDecimal(s[from..i]) && IsDecimalDigit(s[i])
    ensures AllDecimal(s[from..i + 1])
    ensures Fold10(s[from..i + 1]) == Step10(Fold10(s[from..i]), DecimalDigitValue(s[i]))
  {
    var ds := s[from..i + 1];
    assert ds[..|ds| - 1] == s[from..i] && ds[|ds| - 1] == s[i];
  }

  /** The loop body of strtoul10 on one digit value `d`. */
  method ShiftIn10(value0: nat, overflow0: bool, d: nat) returns (value: nat, overflow: bool)
    requires value0 <= U32Max && d <= 9
    ensures Acc(value, overflow) == Step10(Acc(value0, overflow0), d)
  {
    value, overflow := value0, overflow0;
    var tmp := (value * 10 + d) % U32Modulus;
    if tmp < value {
      value := U32Max;
      overflow := true;
    }
    if !overflow {
      value := tmp;
    }
  }

  /** strtoul10: scan decimal digits into a saturating 32-bit value. */
  method StrToUl10(s: seq<char>, p: Ptr) returns (value: nat, out: Ptr)
    requires ValidPtr(s, p)
    ensures p.Null? ==> value == 0 && out == Null
    ensures p.At? ==> out == At(DecimalEnd(s, p.pos))
    ensures value <= U32Max
    ensures Parsed(value, out) == Ul10(s, p)
  {
    if p.Null? {
      return 0, p;
    }
    var i := p.pos;
    var overflow := false;
    value := 0;
    while IsDecimalDigit(CharAt(s, i))
      invariant p.pos <= i <= |s|
      invariant AllDecimal(s[p.pos..i])
      invariant DecimalEnd(s, i) == DecimalEnd(s, p.pos)
      invariant Fold10(s[p.pos..i]) == Acc(value, overflow)
      decreases |s| - i
    {
      var d := (CharAt(s, i) as int) - ('0' as int);
      assert d == DecimalDigitValue(s[i]);
      Fold10Next(s, p.pos, i);
      assert DecimalEnd(s, i) == DecimalEnd(s, i + 1);
      value, overflow := ShiftIn10(value, overflow, d);
      i := i + 1;
    }
    assert DecimalEnd(s, i) == i;
    out := At(i);
  }

  lemma {:induction false} Fold10Fits(ds: seq<char>)
    requires AllDecimal(ds)
    requires DecimalValue(ds) <= U32Max
    ensures Fold10(ds) == Acc(DecimalValue(ds), false)
  {
    if ds != [] {
      var pre := ds[..|ds| - 1];
      var v, d := DecimalValue(pre), DecimalDigitValue(ds[|ds| - 1]);
      assert DecimalValue(ds) == v * 10 + d;
      Fold10Fits(pre);
      assert (v * 10 + d) % U32Modulus == v * 10 + d;
    }
  }

  /** The overflow flag is raised only when the digits really exceed 32 bits. */
  lemma {:induction false} Fold10OverflowIsReal(ds: seq<char>)
    requires AllDecimal(ds)
    requires Fold10(ds).overflow
    ensures DecimalValue(ds) > U32Max
  {
    if DecimalValue(ds) <= U32Max {
      Fold10Fits(ds);
    }
  }

  /** Once the overflow test has fired, the result stays 0xffffffff. */
  lemma {:induction false} Fold10Saturates(ds: seq<char>, k: nat)
    requires AllDecimal(ds)
    requires k <= |ds|
    requires Fold10(ds[..k]).overflow
    ensures Fold10(ds) == Acc(U32Max, true)
    decreases |ds|
  {
    if k < |ds| {
      var pre := ds[..|ds| - 1];
      assert pre[..k] == ds[..k];
      Fold10Saturates(pre, k);
    } else {
      assert ds[..k] == ds;
    }
  }

  /** strtoul10 on text that begins a digit run whose value fits in 32 bits. */
  lemma StrToUl10Value(s: seq<char>, i: nat)
    requires i <= |s|
    requires DecimalValue(s[i..DecimalEnd(s, i)]) <= U32Max
    ensures Ul10(s, At(i)) == Parsed(DecimalValue(s[i..DecimalEnd(s, i)]), At(DecimalEnd(s, i)))
  {
    Fold10Fits(s[i..DecimalEnd(s, i)]);
  }

  // ---------------------------------------------------------------------
  // strtol10

  /** Where strtol10 hands over to strtoul10: one '-' or '+' is skipped. */
  function AfterSign(s: seq<char>, i: nat): (j: nat)
    requires i <= |s|
    ensures j <= |s|
    ensures j == i || j == i + 1
    ensures j == i + 1 <==> CharAt(s, i) == '-' || CharAt(s, i) == '+'
  {
    if CharAt(s, i) == '-' || CharAt(s, i) == '+' then i + 1 else i
  }

  /** strtol10: an optional sign, then strtoul10, saturated to the s32 range. */
  function StrToL10(s: seq<char>, p: Ptr): (r: Parsed)
    requires ValidPtr(s, p)
    ensures IntMin <= r.value <= IntMax
    ensures p.Null? ==> r == Parsed(0, Null)
    ensures p.At? ==> r.out == Ul10(s, At(AfterSign(s, p.pos))).out
  {
    match p
    case Null => Parsed(0, Null)
    case At(i) =>
      var negative := CharAt(s, i) == '-';
      var u := Ul10(s, At(AfterSign(s, i)));
      var v :=
        if u.value > IntMax then (if negative then IntMin else IntMax)
        else (if negative then -u.value else u.value);
      Parsed(v, u.out)
  }

  /** Text that is a lone sign (no digit after it) gives 0, with `*out` just past the sign. */
  lemma StrToL10LoneSign(s: seq<char>, i: nat)
    requires i < |s|
    requires s[i] == '-' || s[i] == '+'
    requires !IsDecimalDigit(CharAt(s, i + 1))
    ensures StrToL10(s, At(i)) == Parsed(0, At(i + 1))
  {
    assert DecimalEnd(s, i + 1) == i + 1;
    assert s[i + 1..i + 1] == [];
  }

  /** A magnitude up to INT_MAX is returned with its sign. */
  lemma StrToL10InRange(s: seq<char>, i: nat)
    requires i <= |s|
    requires DecimalValue(s[AfterSign(s, i)..DecimalEnd(s, AfterSign(s, i))]) <= IntMax
    ensures var m: int := DecimalValue(s[AfterSign(s, i)..DecimalEnd(s, AfterSign(s, i))]);
            StrToL10(s, At(i)).value == if CharAt(s, i) == '-' then -m else m
  {
    var j := AfterSign(s, i);
    Fold10Fits(s[j..DecimalEnd(s, j)]);
  }

  /** A magnitude above INT_MAX that strtoul10 sees saturates to INT_MIN or INT_MAX. */
  lemma StrToL10Saturates(s: seq<char>, i: nat)
    requires i <= |s|
    requires var j := AfterSign(s, i);
             var m := DecimalValue(s[j..DecimalEnd(s, j)]);
             IntMax < m <= U32Max || Fold10(s[j..DecimalEnd(s, j)]).overflow
    ensures StrToL10(s, At(i)).value == if CharAt(s, i) == '-' then IntMin else IntMax
  {
    var j := AfterSign(s, i);
    var ds := s[j..DecimalEnd(s, j)];
    if DecimalValue(ds) <= U32Max {
      Fold10Fits(ds);
    }
  }

  // ---------------------------------------------------------------------
  // Hexadecimal digits and strtoul16

  predicate IsHexDigit(c: char) {
    ('0' <= c <= '9') || ('A' <= c <= 'F') || ('a' <= c <= 'f')
  }

  predicate AllHex(ds: seq<char>) {
    forall k :: 0 <= k < |ds| ==> IsHexDigit(ds[k])
  }

  /** The digit value strtoul16 adds: 0-9, then A/a = 10 up to F/f = 15. */
  function HexDigitValue(c: char): (d: nat)
    requires IsHexDigit(c)
    ensures d <= 15
    ensures '0' <= c <= '9' ==> d == (c as int) - ('0' as int)
    ensures 'A' <= c <= 'F' ==> d == (c as int) - ('A' as int) + 10
    ensures 'a' <= c <= 'f' ==> d == (c as int) - ('a' as int) + 10
  {
    if '0' <= c <= '9' then (c as int) - ('0' as int)
    else if 'A' <= c <= 'F' then (c as int) - ('A' as int) + 10
    else (c as int) - ('a' as int) + 10
  }

  /** Upper- and lower-case hexadecimal letters have the same value. */
  lemma HexDigitCaseInsensitive(k: nat)
    requires k < 6
    ensures IsHexDigit(('A' as int + k) as char) && IsHexDigit(('a' as int + k) as char)
    ensures HexDigitValue(('A' as int + k) as char) == HexDigitValue(('a' as int + k) as char) == 10 + k
  {
  }

  /** The end of the maximal run of hexadecimal digits that starts at `i`. */
  function HexEnd(s: seq<char>, i: nat): (e: nat)
    requires i <= |s|
    ensures i <= e <= |s|
    ensures AllHex(s[i..e])
    ensures !IsHexDigit(CharAt(s, e))
    decreases |s| - i
  {
    if i < |s| && IsHexDigit(s[i]) then HexEnd(s, i + 1) else i
  }

  function HexValue(ds: seq<char>): nat
    requires AllHex(ds)
  {
    if ds == [] then 0
    else 16 * HexValue(ds[..|ds| - 1]) + HexDigitValue(ds[|ds| - 1])
  }

  /** One iteration of strtoul16's loop body on digit value `d`, as written:
      the wrap test resets to INT_MAX but clears the flag, so `tmp` is kept. */
  function Step16(a: Acc, d: nat): Acc {
    var tmp := ((a.value * 16) % U32Modulus + d) % U32Modulus;
    var a1 := if tmp < a.value then Acc(IntMax, false) else a;
    if !a1.overflow then Acc(tmp, a1.overflow) else a1
  }

  function Fold16(ds: seq<char>): (r: Acc)
    requires AllHex(ds)
    ensures r.value <= U32Max
    ensures !r.overflow
  {
    if ds == [] then Acc(0, false)
    else Step16(Fold16(ds[..|ds| - 1]), HexDigitValue(ds[|ds| - 1]))
  }

  /** The s32 that a u32 bit pattern reads as (two's complement). */
  function ToS32(u: nat): (v: int)
    requires u <= U32Max
    ensures IntMin <= v <= IntMax
    ensures (if v < 0 then v + U32Modulus else v) == u
  {
    if u <= IntMax then u else u - U32Modulus
  }

  /** The u32 bit pattern of an s32. */
  function BitPattern(v: int): (u: nat)
    requires IntMin <= v <= IntMax
    ensures u <= U32Max
  {
    if v < 0 then v + U32Modulus else v
  }

  /** What strtoul16 returns (as s32) and stores in `*out`. */
  function Ul16(s: seq<char>, p: Ptr): Parsed
    requires ValidPtr(s, p)
  {
    match p
    case Null => Parsed(0, Null)
    case At(i) =>
      var e := HexEnd(s, i);
      Parsed(ToS32(Fold16(s[i..e]).value), At(e))
  }

  /** Consuming one more hexadecimal digit is one more step of the fold. */
  lemma Fold16Next(s: seq<char>, from: nat, i: nat)
    requires from <= i < |s| && AllHex(s[from..i]) && IsHexDigit(s[i])
    ensures AllHex(s[from..i + 1])
    ensures Fold16(s[from..i + 1]) == Step16(Fold16(s[from..i]), HexDigitValue(s[i]))
  {
    var ds := s[from..i + 1];
    assert ds[..|ds| - 1] == s[from..i] && ds[|ds| - 1] == s[i];
  }

  /** The digit tests of strtoul16's loop, in their order; a character that
      passes none of them ends the scan. */
  method ReadHexDigit(c: char) returns (isDigit: bool, d: nat)
    ensures isDigit == IsHexDigit(c)
    ensures isDigit ==> d == HexDigitValue(c)
  {
    isDigit, d := true, 0;
    if '0' <= c <= '9' {
      d := (c as int) - ('0' as int);
    } else if 'A' <= c <= 'F' {
      d := (c as int) - ('A' as int) + 10;
    } else if 'a' <= c <= 'f' {
      d := (c as int) - ('a' as int) + 10;
    } else {
      isDigit := false;
    }
  }

  /** The loop body of strtoul16 on one digit value `d`. */
  method ShiftIn16(unsignedValue0: nat, overflow0: bool, d: nat) returns (unsignedValue: nat, overflow: bool)
    requires unsignedValue0 <= U32Max && d <= 15
    ensures Acc(unsignedValue, overflow) == Step16(Acc(unsignedValue0, overflow0), d)
  {
    unsignedValue, overflow := unsignedValue0, overflow0;
    // (unsignedValue << 4u) + digit, in u32
    var tmp := ((unsignedValue * 16) % U32Modulus + d) % U32Modulus;
    if tmp < unsignedValue {
      unsignedValue := IntMax;
      overflow := false;
    }
    if !overflow {
      unsignedValue := tmp;
    }
  }

  /** strtoul16: scan hexadecimal digits into a 32-bit value, returned as s32. */
  method StrToUl16(s: seq<char>, p: Ptr) returns (value: int, out: Ptr)
    requires ValidPtr(s, p)
    ensures p.Null? ==> value == 0 && out == Null
    ensures p.At? ==> out == At(HexEnd(s, p.pos))
    ensures IntMin <= value <= IntMax
    ensures Parsed(value, out) == Ul16(s, p)
  {
    if p.Null? {
      return 0, p;
    }
    var i := p.pos;
    var overflow := false;
    var unsignedValue: nat := 0;
    while true
      invariant p.pos <= i <= |s|
      invariant AllHex(s[p.pos..i])
      invariant HexEnd(s, i) == HexEnd(s, p.pos)
      invariant Fold16(s[p.pos..i]) == Acc(unsignedValue, overflow)
      decreases |s| - i
    {
      var c := CharAt(s, i);
      var isDigit, d := ReadHexDigit(c);
      if !isDigit {
        break;
      }
      Fold16Next(s, p.pos, i);
      assert HexEnd(s, i) == HexEnd(s, i + 1);
      unsignedValue, overflow := ShiftIn16(unsignedValue, overflow, d);
      i := i + 1;
    }
    value := ToS32(unsignedValue);
    out := At(i);
  }

  lemma ModStep16(v: nat, d: nat)
    ensures ((v % U32Modulus) * 16 % U32Modulus + d) % U32Modulus == (v * 16 + d) % U32Modulus
  {
    var q := v / U32Modulus;
    var r := v % U32Modulus;
    assert v * 16 + d == (q * 16) * U32Modulus + (r * 16 + d);
    var q2 := (r * 16) / U32Modulus;
    assert r * 16 + d == q2 * U32Modulus + ((r * 16) % U32Modulus + d);
  }

  /** As written, strtoul16 never saturates: its result is the value modulo 2^32. */
  lemma {:induction false} Fold16Wraps(ds: seq<char>)
    requires AllHex(ds)
    ensures Fold16(ds) == Acc(HexValue(ds) % U32Modulus, false)
  {
    if ds != [] {
      var pre := ds[..|ds| - 1];
      var h, d := HexValue(pre), HexDigitValue(ds[|ds| - 1]);
      Fold16Wraps(pre);
      ModStep16(h, d);
      assert HexValue(ds) == h * 16 + d;
      assert Step16(Acc(h % U32Modulus, false), d).value == ((h % U32Modulus) * 16 % U32Modulus + d) % U32Modulus;
    }
  }

  /** For hexadecimal text whose value fits in 32 bits, the returned s32 has that bit pattern. */
  lemma StrToUl16Value(s: seq<char>, i: nat)
    requires i <= |s|
    requires HexValue(s[i..HexEnd(s, i)]) <= U32Max
    ensures BitPattern(Ul16(s, At(i)).value) == HexValue(s[i..HexEnd(s, i)])
    ensures Ul16(s, At(i)).out == At(HexEnd(s, i))
  {
    var e := HexEnd(s, i);
    var ds := s[i..e];
    var v := HexValue(ds);
    Fold16Wraps(ds);
    assert v % U32Modulus == v;
    assert Ul16(s, At(i)) == Parsed(ToS32(v), At(e));
  }

  // ---------------------------------------------------------------------
  // Findings: overflow handling as written and as evidently intended

  /** strtoul10's overflow test misses this wrap: the digits of 5000000000
      leave the flag clear and the result is 5000000000 - 2^32. */
  lemma Fold10MissesWrap()
    ensures AllDecimal("5000000000")
    ensures DecimalValue("5000000000") == 5_000_000_000
    ensures Fold10("5000000000") == Acc(705_032_704, false)
  {
    var s := "5000000000";
    DecimalPrefixZeros(s, 9);
    assert Pow10(8) == 100_000_000;
    assert Pow10(9) == 1_000_000_000;
    Fold10Fits(s[..9]);
    assert s[..9] == s[..|s| - 1];
  }

  /** A digit run that is "5" followed by zeros. */
  lemma {:induction false} DecimalPrefixZeros(ds: seq<char>, n: nat)
    requires 1 <= n <= |ds|
    requires ds[0] == '5'
    requires forall k :: 1 <= k < |ds| ==> ds[k] == '0'
    ensures AllDecimal(ds)
    ensures DecimalValue(ds[..n]) == 5 * Pow10(n - 1)
    ensures DecimalValue(ds) == 5 * Pow10(|ds| - 1)
  {
    assert AllDecimal(ds);
    DecimalFiveZeros(ds[..n]);
    DecimalFiveZeros(ds);
  }

  lemma {:induction false} DecimalFiveZeros(ds: seq<char>)
    requires 1 <= |ds|
    requires ds[0] == '5'
    requires forall k :: 1 <= k < |ds| ==> ds[k] == '0'
    ensures AllDecimal(ds)
    ensures DecimalValue(ds) == 5 * Pow10(|ds| - 1)
  {
    if |ds| == 1 {
      assert ds[..0] == [];
    } else {
      DecimalFiveZeros(ds[..|ds| - 1]);
    }
  }

  function Pow10(n: nat): (r: nat)
    ensures r >= 1
  {
    if n == 0 then 1 else 10 * Pow10(n - 1)
  }

  /** strtoul10 with an exact overflow test: saturates iff the value exceeds 32 bits. */
  function CheckedStep10(a: Acc, d: nat): Acc {
    if a.overflow then a
    else if a.value * 10 + d > U32Max then Acc(U32Max, true)
    else Acc(a.value * 10 + d, false)
  }

  function CheckedFold10(ds: seq<char>): Acc
    requires AllDecimal(ds)
  {
    if ds == [] then Acc(0, false)
    else CheckedStep10(CheckedFold10(ds[..|ds| - 1]), DecimalDigitValue(ds[|ds| - 1]))
  }

  lemma {:induction false} CheckedFold10Saturates(ds: seq<char>)
    requires AllDecimal(ds)
    ensures CheckedFold10(ds).overflow <==> DecimalValue(ds) > U32Max
    ensures CheckedFold10(ds).value == if DecimalValue(ds) > U32Max then U32Max else DecimalValue(ds)
  {
    if ds != [] {
      CheckedFold10Saturates(ds[..|ds| - 1]);
    }
  }

  /** strtoul16 as evidently intended: the flag is raised and kept on overflow,
      the test is exact, and an overflowing value yields INT_MAX. */
  function CheckedStep16(a: Acc, d: nat): Acc {
    if a.overflow then a
    else if a.value * 16 + d > U32Max then Acc(IntMax, true)
    else Acc(a.value * 16 + d, false)
  }

  function CheckedFold16(ds: seq<char>): Acc
    requires AllHex(ds)
  {
    if ds == [] then Acc(0, false)
    else CheckedStep16(CheckedFold16(ds[..|ds| - 1]), HexDigitValue(ds[|ds| - 1]))
  }

  lemma {:induction false} CheckedFold16Saturates(ds: seq<char>)
    requires AllHex(ds)
    ensures CheckedFold16(ds).overflow <==> HexValue(ds) > U32Max
    ensures CheckedFold16(ds).value == if HexValue(ds) > U32Max then IntMax else HexValue(ds)
  {
    if ds != [] {
      CheckedFold16Saturates(ds[..|ds| - 1]);
    }
  }

  /** As written, nine hexadecimal digits "100000000" wrap to 0 instead of giving INT_MAX. */
  lemma Fold16Wraps9Digits()
    ensures AllHex("100000000")
    ensures HexValue("100000000") == U32Modulus
    ensures Fold16("100000000") == Acc(0, false)
    ensures CheckedFold16("100000000") == Acc(IntMax, true)
  {
    var s := "100000000";
    HexOneZeros(s);
    assert Pow16(8) == U32Modulus;
    Fold16Wraps(s);
    CheckedFold16Saturates(s);
  }

  lemma {:induction false} HexOneZeros(ds: seq<char>)
    requires 1 <= |ds|
    requires ds[0] == '1'
    requires forall k :: 1 <= k < |ds| ==> ds[k] == '0'
    ensures AllHex(ds)
    ensures HexValue(ds) == Pow16(|ds| - 1)
  {
    if |ds| == 1 {
      assert ds[..0] == [];
    } else {
      HexOneZeros(ds[..|ds| - 1]);
    }
  }

  function Pow16(n: nat): (r: nat)
    ensures r >= 1
  {
    if n == 0 then 1 else 16 * Pow16(n - 1)
  }
}
