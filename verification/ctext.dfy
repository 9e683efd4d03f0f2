/**
  The C library's text routines the interpreter leans on: base-10 `strtol`
  (and `atoi`, which is its value), `strcmp`, and the `%d` rendering of an
  integer used as the reference against which the parse is checked.
 */
module CText {

  /** isspace in the C locale: space, \t, \n, \v, \f, \r. */
  predicate IsSpace(c: char) {
    c == ' ' || '\t' <= c <= '\r'
  }

  predicate IsDigit(c: char) {
    '0' <= c <= '9'
  }

  function DigitValue(c: char): nat
    requires IsDigit(c)
  {
    c as int - '0' as int
  }

  function DigitChar(d: nat): (c: char)
    requires d < 10
    ensures IsDigit(c) && DigitValue(c) == d
  {
    ('0' as int + d) as char
  }

  predicate AllDigits(s: string) {
    forall i | 0 <= i < |s| :: IsDigit(s[i])
  }

  /** The number a run of decimal digits denotes, most significant first. */
  function DigitsValue(s: string): nat
    requires AllDigits(s)
  {
    if |s| == 0 then 0
    else DigitsValue(s[..|s| - 1]) * 10 + DigitValue(s[|s| - 1])
  }

  /** The first index at or after `i` that does not hold a white-space character. */
  function SkipSpace(s: string, i: nat): (j: nat)
    requires i <= |s|
    ensures i <= j <= |s|
    ensures forall k | i <= k < j :: IsSpace(s[k])
    ensures j == |s| || !IsSpace(s[j])
    decreases |s| - i
  {
    if i == |s| || !IsSpace(s[i]) then i else SkipSpace(s, i + 1)
  }

  /** The end of the run of digits starting at `i`. */
  function DigitEnd(s: string, i: nat): (j: nat)
    requires i <= |s|
    ensures i <= j <= |s|
    ensures AllDigits(s[i..j])
    ensures j == |s| || !IsDigit(s[j])
    decreases |s| - i
  {
    if i == |s| || !IsDigit(s[i]) then i
    else
      var j := DigitEnd(s, i + 1);
      assert s[i..j] == [s[i]] + s[i + 1..j];
      j
  }

  /** 1 when a sign character stands at `i`, otherwise 0. */
  function SignWidth(s: string, i: nat): (w: nat)
    requires i <= |s|
    ensures w <= 1 && i + w <= |s|
  {
    if i < |s| && (s[i] == '-' || s[i] == '+') then 1 else 0
  }

  /** The number a sign of width `w` at `i` and a run of digits denote. */
  function Signed(s: string, i: nat, w: nat, n: nat): int
    requires w <= 1 && i + w <= |s|
  {
    if w == 1 && s[i] == '-' then -(n as int) else n
  }

  /**
    The optional sign and the run of digits strtol reads from index `i`,
    and where they end: nothing is consumed exactly when no digit follows
    the optional sign; otherwise the longest digit run is consumed and the
    value is its number, negated after a minus sign.
   */
  function SignedDigits(s: string, i: nat): (r: (int, nat))
    requires i <= |s|
    ensures var j := i + SignWidth(s, i);
      r.1 == 0 <==> j == |s| || !IsDigit(s[j])
    ensures r.1 == 0 || i < r.1 <= |s|
    ensures r.1 == 0 ==> r.0 == 0
    ensures 0 < r.1 ==>
      var j := i + SignWidth(s, i);
      && j < r.1 && AllDigits(s[j..r.1])
      && r.0 == Signed(s, i, SignWidth(s, i), DigitsValue(s[j..r.1]))
    ensures 0 < r.1 ==> IsDigit(s[r.1 - 1]) && (r.1 == |s| || !IsDigit(s[r.1]))
  {
    var signed := i < |s| && (s[i] == '-' || s[i] == '+');
    var j := if signed then i + 1 else i;
    var k := DigitEnd(s, j);
    if k == j then (0, 0)
    else
      assert IsDigit(s[j..k][k - 1 - j]);
      var n: int := DigitsValue(s[j..k]);
      (if signed && s[i] == '-' then -n else n, k)
  }

  /**
    strtol(s, &end, 10): skip white space, read an optional sign and the
    longest run of digits. The result pairs the value with the number of
    characters consumed. Nothing is consumed, and the value is 0, exactly
    when no digit follows the white space and the optional sign.
   */
  function StrToL(s: string): (r: (int, nat))
    ensures r.1 <= |s|
    ensures var i := SkipSpace(s, 0); var j := i + SignWidth(s, i);
      r.1 == 0 <==> j == |s| || !IsDigit(s[j])
    ensures r.1 == 0 ==> r.0 == 0
    ensures 0 < r.1 ==>
      var i := SkipSpace(s, 0); var j := i + SignWidth(s, i);
      && j < r.1 && AllDigits(s[j..r.1])
      && r.0 == Signed(s, i, SignWidth(s, i), DigitsValue(s[j..r.1]))
    ensures 0 < r.1 ==> IsDigit(s[r.1 - 1]) && (r.1 == |s| || !IsDigit(s[r.1]))
  {
    SignedDigits(s, SkipSpace(s, 0))
  }

  /**
    atoi: the value strtol reads, whatever follows it: the longest digit
    run after the white space and the optional sign, negated after a minus,
    and 0 when there is no digit.
   */
  function Atoi(s: string): (n: int)
    ensures var i := SkipSpace(s, 0); var j := i + SignWidth(s, i); var k := DigitEnd(s, j);
      n == Signed(s, i, SignWidth(s, i), DigitsValue(s[j..k]))
  {
    var r := StrToL(s);
    var i := SkipSpace(s, 0);
    var j := i + SignWidth(s, i);
    if r.1 > 0 then
      DigitEndAt(s, j, r.1);
      r.0
    else
      assert DigitEnd(s, j) == j;
      r.0
  }

  /** The decimal digits of a natural number, without leading zeros. */
  function NaturalDigits(n: nat): (s: string)
    ensures |s| > 0 && AllDigits(s)
    ensures s[0] == '0' <==> n == 0
    decreases n
  {
    if n < 10 then [DigitChar(n)] else NaturalDigits(n / 10) + [DigitChar(n % 10)]
  }

  /**
    printf("%d", n): a minus sign exactly for a negative number, then the
    digits of its magnitude without leading zeros.
   */
  function Decimal(n: int): (s: string)
    ensures |s| > 0 && (s[0] == '-' <==> n < 0)
    ensures var digits := if n < 0 then s[1..] else s;
      && |digits| > 0 && AllDigits(digits)
      && DigitsValue(digits) == (if n < 0 then -n else n)
      && (digits[0] == '0' ==> |digits| == 1)
  {
    NaturalDigitsValue(if n < 0 then -n else n);
    if n < 0 then
      assert ("-" + NaturalDigits(-n))[1..] == NaturalDigits(-n);
      "-" + NaturalDigits(-n)
    else NaturalDigits(n)
  }

  lemma {:induction false} NaturalDigitsValue(n: nat)
    ensures DigitsValue(NaturalDigits(n)) == n
    decreases n
  {
    var s := NaturalDigits(n);
    if n >= 10 {
      assert s[..|s| - 1] == NaturalDigits(n / 10);
      NaturalDigitsValue(n / 10);
    }
  }

  /** A run of digits from `i` that ends at `k` is exactly what DigitEnd measures. */
  lemma DigitEndAt(s: string, i: nat, k: nat)
    requires i <= k <= |s| && AllDigits(s[i..k])
    requires k == |s| || !IsDigit(s[k])
    ensures DigitEnd(s, i) == k
    decreases k - i
  {
    if i < k {
      assert IsDigit(s[i..k][0]);
      assert s[i + 1..k] == s[i..k][1..];
      DigitEndAt(s, i + 1, k);
    }
  }

  /**
    The parse and the rendering are inverse: strtol reads back exactly the
    number `%d` printed, and stops there when anything but a digit follows.
   */
  lemma StrToLReadsDecimal(n: int, t: string)
    requires |t| == 0 || !IsDigit(t[0])
    ensures StrToL(Decimal(n) + t) == (n, |Decimal(n)|)
  {
    var d := Decimal(n);
    var s := d + t;
    var digits := NaturalDigits(if n < 0 then -n else n);
    NaturalDigitsValue(if n < 0 then -n else n);
    assert s[0] == d[0];
    assert !IsSpace(s[0]);
    var j := if n < 0 then 1 else 0;
    assert s[j..|d|] == digits;
    assert |d| == |s| || s[|d|] == t[0];
    DigitEndAt(s, j, |d|);
  }

  lemma StrToLDecimal(n: int)
    ensures StrToL(Decimal(n)) == (n, |Decimal(n)|)
  {
    StrToLReadsDecimal(n, "");
    assert Decimal(n) + "" == Decimal(n);
  }

  lemma {:induction false} SkipSpaceShift(c: char, s: string, i: nat)
    requires i <= |s|
    ensures SkipSpace([c] + s, i + 1) == SkipSpace(s, i) + 1
    decreases |s| - i
  {
    if i < |s| && IsSpace(s[i]) {
      assert ([c] + s)[i + 1] == s[i];
      SkipSpaceShift(c, s, i + 1);
    }
  }

  lemma {:induction false} DigitEndShift(c: char, s: string, i: nat)
    requires i <= |s|
    ensures DigitEnd([c] + s, i + 1) == DigitEnd(s, i) + 1
    decreases |s| - i
  {
    if i < |s| && IsDigit(s[i]) {
      assert ([c] + s)[i + 1] == s[i];
      DigitEndShift(c, s, i + 1);
    }
  }

  lemma SignedDigitsShift(c: char, s: string, i: nat)
    requires i <= |s|
    ensures SignedDigits([c] + s, i + 1)
         == (SignedDigits(s, i).0, if SignedDigits(s, i).1 == 0 then 0 else SignedDigits(s, i).1 + 1)
  {
    var cs := [c] + s;
    assert i < |s| ==> cs[i + 1] == s[i];
    var signed := i < |s| && (s[i] == '-' || s[i] == '+');
    var j := if signed then i + 1 else i;
    DigitEndShift(c, s, j);
    ShiftSlice(c, s, j, DigitEnd(s, j));
  }

  lemma ShiftSlice(c: char, s: string, j: nat, k: nat)
    requires j <= k <= |s|
    ensures ([c] + s)[j + 1..k + 1] == s[j..k]
  {
    assert ([c] + s)[1..] == s;
    assert ([c] + s)[j + 1..k + 1] == ([c] + s)[1..][j..k];
  }

  /** strtol accepts a leading `+`: "+7" reads 7 and consumes both characters. */
  lemma StrToLPlusSign()
    ensures StrToL("+7") == (7, 2)
  {
    assert SkipSpace("+7", 0) == 0;
    assert SignWidth("+7", 0) == 1;
    DigitEndAt("+7", 1, 2);
    assert "+7"[1..2] == "7" && "7"[..0] == "";
    assert DigitsValue("7") == 7;
    assert SignedDigits("+7", 0) == (7, 2);
  }

  /** strtol accepts leading zeros: "007" reads 7 and consumes all three characters. */
  lemma StrToLLeadingZeros()
    ensures StrToL("007") == (7, 3)
  {
    assert SkipSpace("007", 0) == 0;
    assert SignWidth("007", 0) == 0;
    DigitEndAt("007", 0, 3);
    assert "007"[0..3] == "007" && "007"[..2] == "00" && "00"[..1] == "0";
    assert DigitsValue("007") == 7;
    assert SignedDigits("007", 0) == (7, 3);
  }

  /** strtol skips a leading white-space character and counts it as consumed when it reads a number. */
  lemma StrToLSkipsSpace(c: char, s: string)
    requires IsSpace(c)
    ensures StrToL([c] + s) == (StrToL(s).0, if StrToL(s).1 == 0 then 0 else StrToL(s).1 + 1)
  {
    SkipSpaceShift(c, s, 0);
    SignedDigitsShift(c, s, SkipSpace(s, 0));
  }

  /**
    The sign of strcmp: negative, zero or positive as `a` sorts before,
    equal to or after `b`, comparing character codes.
   */
  function Compare(a: string, b: string): (c: int)
    ensures -1 <= c <= 1
    ensures c == 0 <==> a == b
  {
    if |a| == 0 then (if |b| == 0 then 0 else -1)
    else if |b| == 0 then 1
    else if a[0] < b[0] then -1
    else if a[0] > b[0] then 1
    else
      var c := Compare(a[1..], b[1..]);
      assert a == [a[0]] + a[1..] && b == [b[0]] + b[1..];
      c
  }

  /** `a` and `b` share their first `k` characters and `a` stops or is smaller there. */
  ghost predicate BelowAt(a: string, b: string, k: nat) {
    && k <= |a| && k <= |b|
    && a[..k] == b[..k]
    && (k == |a| < |b| || (k < |a| && k < |b| && a[k] < b[k]))
  }

  /** Lexicographic order: a proper prefix, or smaller at the first difference. */
  ghost predicate LexLess(a: string, b: string) {
    exists k: nat :: BelowAt(a, b, k)
  }

  lemma {:induction false} BelowAtShift(a: string, b: string, k: nat)
    requires 0 < k && 0 < |a| && 0 < |b| && a[0] == b[0]
    ensures BelowAt(a, b, k) <==> BelowAt(a[1..], b[1..], k - 1)
  {
    if k <= |a| && k <= |b| {
      assert a[..k] == [a[0]] + a[1..][..k - 1];
      assert b[..k] == [b[0]] + b[1..][..k - 1];
    }
  }

  /** strcmp's sign is negative exactly when `a` sorts lexicographically before `b`. */
  lemma {:induction false} CompareIsLexicographic(a: string, b: string)
    ensures Compare(a, b) < 0 <==> LexLess(a, b)
    decreases |a|
  {
    if |a| == 0 || |b| == 0 {
      if |a| == 0 && |b| > 0 {
        assert BelowAt(a, b, 0);
      }
      if LexLess(a, b) {
        var k: nat :| BelowAt(a, b, k);
      }
    } else if a[0] < b[0] {
      assert BelowAt(a, b, 0);
    } else if a[0] > b[0] {
      forall k: nat ensures !BelowAt(a, b, k) {
        if 0 < k <= |a| && k <= |b| {
          assert a[..k][0] == a[0] && b[..k][0] == b[0];
        }
      }
    } else {
      CompareIsLexicographic(a[1..], b[1..]);
      if LexLess(a, b) {
        var k: nat :| BelowAt(a, b, k);
        assert k != 0;
        BelowAtShift(a, b, k);
        assert BelowAt(a[1..], b[1..], k - 1);
      }
      if LexLess(a[1..], b[1..]) {
        var k: nat :| BelowAt(a[1..], b[1..], k);
        BelowAtShift(a, b, k + 1);
        assert BelowAt(a, b, k + 1);
      }
    }
  }

  /** Swapping the operands of strcmp flips its sign. */
  lemma {:induction false} CompareAntisymmetric(a: string, b: string)
    ensures Compare(b, a) == -Compare(a, b)
    decreases |a|
  {
    if |a| > 0 && |b| > 0 && a[0] == b[0] {
      CompareAntisymmetric(a[1..], b[1..]);
    }
  }
}
