/**
  The binary-operator rules of the evaluator (determine_op_result and its
  helpers). The rules are tried in a fixed order: the string rule, pointer
  plus or minus an integer, Int-to-Real promotion, comparisons, Int or
  Real arithmetic, and otherwise an operand-type error.
 */
module Operators {
  import opened Values
  import opened CText

  /**
    What an operator helper leaves behind: a value, or an error together
    with the tag it had already stored in the result when it gave up
    (NoneTag when it stored nothing).
   */
  datatype Outcome = Done(value: Value) | Failed(error: Error, residue: Tag)

  function Abs(x: int): nat {
    if x < 0 then -x else x
  }

  /** Dividing a natural number by a positive one gives a natural number. */
  lemma DivNonNegative(x: int, y: int)
    requires 0 <= x && 0 < y
    ensures x / y >= 0
  {
    assert x == y * (x / y) + x % y && 0 <= x % y < y;
  }

  /**
    C's `/` on int: the quotient truncated toward zero, so its magnitude is
    the quotient of the magnitudes and it is negative only when the signs
    differ.
   */
  function CDiv(a: int, b: int): (q: int)
    requires b != 0
    ensures Abs(q) == Abs(a) / Abs(b)
    ensures q > 0 ==> (a < 0) == (b < 0)
    ensures q < 0 ==> (a < 0) != (b < 0)
  {
    DivNonNegative(Abs(a), Abs(b));
    var magnitude: int := Abs(a) / Abs(b);
    if (a < 0) == (b < 0) then magnitude else -magnitude
  }

  /** C's `%` on int: the remainder that goes with the truncated quotient. */
  function CRem(a: int, b: int): int
    requires b != 0
  {
    a - b * CDiv(a, b)
  }

  /**
    The C division identity with truncation: the remainder is smaller than
    the divisor in magnitude and takes the sign of the dividend, and the
    quotient is the Euclidean quotient of the magnitudes, signed.
   */
  lemma CDivTruncates(a: int, b: int)
    requires b != 0
    ensures Abs(CDiv(a, b)) == Abs(a) / Abs(b)
    ensures CRem(a, b) == (if a < 0 then -(Abs(a) % Abs(b)) else Abs(a) % Abs(b))
    ensures Abs(CRem(a, b)) < Abs(b)
  {
    var q := Abs(a) / Abs(b);
    var r := Abs(a) % Abs(b);
    assert Abs(a) == q * Abs(b) + r;
    if a < 0 && b < 0 {
      assert b * CDiv(a, b) == q * Abs(b) * -1;
    } else if a < 0 {
      assert b * CDiv(a, b) == q * Abs(b) * -1;
    } else if b < 0 {
      assert b * CDiv(a, b) == q * Abs(b);
    } else {
      assert b * CDiv(a, b) == q * Abs(b);
    }
  }

  /** string_concat: a Str holding `a` followed by `b`. */
  function StringConcat(a: string, b: string): (v: Value)
    ensures v.Str? && |v.s| == |a| + |b|
    ensures v.s[..|a|] == a && v.s[|a|..] == b
  {
    Str(a + b)
  }

  /**
    string_comparison: a Boolean from the sign of strcmp, which orders the
    strings lexicographically; a non-comparison operator is an error that
    leaves no tag.
   */
  function StringComparison(op: Op, a: string, b: string): (r: Outcome)
    ensures r.Done? <==> op.IsRelational()
    ensures r.Failed? ==> r == Failed(InvalidOperandTypes, NoneTag)
    ensures r.Done? ==> r.value.Boolean?
    ensures op == Equal ==> r.value.b == (a == b)
    ensures op == NotEqual ==> r.value.b == (a != b)
    ensures op == Less ==> (r.value.b <==> LexLess(a, b))
    ensures op == LessEqual ==> (r.value.b <==> !LexLess(b, a))
    ensures op == Greater ==> (r.value.b <==> LexLess(b, a))
    ensures op == GreaterEqual ==> (r.value.b <==> !LexLess(a, b))
  {
    CompareIsLexicographic(a, b);
    CompareIsLexicographic(b, a);
    CompareAntisymmetric(a, b);
    if op.IsRelational() then Done(Boolean(Relate(op, Compare(a, b))))
    else Failed(InvalidOperandTypes, NoneTag)
  }

  /**
    number_comparison: stores the Boolean tag first, then checks the operand
    types. Two Ints compare as integers, two Reals through the floating
    unit, and anything else fails with the Boolean tag left behind.
   */
  function NumberComparison(op: Op, lhs: Value, rhs: Value, fu: FloatUnit): (r: Outcome)
    requires op.IsRelational()
    ensures r.Done? <==> (lhs.Int? && rhs.Int?) || (lhs.Real? && rhs.Real?)
    ensures r.Done? ==> r.value.Boolean?
    ensures r.Failed? ==> r == Failed(InvalidOperandTypes, BooleanTag)
    ensures lhs.Int? && rhs.Int? ==>
      && (op == Equal ==> r.value.b == (lhs.i == rhs.i))
      && (op == NotEqual ==> r.value.b == (lhs.i != rhs.i))
      && (op == Less ==> r.value.b == (lhs.i < rhs.i))
      && (op == LessEqual ==> r.value.b == (lhs.i <= rhs.i))
      && (op == Greater ==> r.value.b == (lhs.i > rhs.i))
      && (op == GreaterEqual ==> r.value.b == (lhs.i >= rhs.i))
    ensures lhs.Real? && rhs.Real? ==> r.value.b == fu.compare(op, lhs.d, rhs.d)
  {
    if lhs.Int? && rhs.Int? then Done(Boolean(Relate(op, lhs.i - rhs.i)))
    else if lhs.Real? && rhs.Real? then Done(Boolean(fu.compare(op, lhs.d, rhs.d)))
    else Failed(InvalidOperandTypes, BooleanTag)
  }

  /**
    change_numeric_types: an Int beside a Real becomes the Real (double) of
    that Int, the Real operand is kept, and any other pair is left alone.
   */
  function ChangeNumericTypes(lhs: Value, rhs: Value, fu: FloatUnit): (r: (Value, Value))
    ensures (lhs.Int? && rhs.Real?) || (lhs.Real? && rhs.Int?) ==>
      && r.0.Real? && r.1.Real?
      && r.0 == (if lhs.Int? then Real(fu.ofInt(lhs.i)) else lhs)
      && r.1 == (if rhs.Int? then Real(fu.ofInt(rhs.i)) else rhs)
    ensures !((lhs.Int? && rhs.Real?) || (lhs.Real? && rhs.Int?)) ==> r == (lhs, rhs)
  {
    if lhs.Int? && rhs.Real? then (Real(fu.ofInt(lhs.i)), rhs)
    else if lhs.Real? && rhs.Int? then (lhs, Real(fu.ofInt(rhs.i)))
    else (lhs, rhs)
  }

  /**
    handle_integer_ops: stores the Int tag first. `**` goes through the
    floating pow and truncates back; `%` by zero is undefined in C and is
    reported as an error here.
   */
  function HandleIntegerOps(op: Op, a: int, b: int, fu: FloatUnit): (r: Outcome)
    ensures r.Failed? <==> op.IsRelational() || ((op == Div || op == Mod) && b == 0)
    ensures r.Failed? ==> r.residue == IntTag
    ensures r.Failed? && op == Div ==> r.error == DivisionByZero
    ensures r.Failed? && op == Mod ==> r.error == RemainderByZero
    ensures r.Done? ==> r.value.Int?
    ensures op == Plus ==> r.value.i == a + b
    ensures op == Minus ==> r.value.i == a - b
    ensures op == Times ==> r.value.i == a * b
    ensures op == Div && b != 0 ==> Abs(r.value.i) == Abs(a) / Abs(b)
    ensures op == Div && b != 0 ==> (r.value.i < 0 ==> (a < 0) != (b < 0)) && (r.value.i > 0 ==> (a < 0) == (b < 0))
    ensures op == Mod && b != 0 ==> a == b * CDiv(a, b) + r.value.i && Abs(r.value.i) < Abs(b)
  {
    match op
    case Plus => Done(Int(a + b))
    case Minus => Done(Int(a - b))
    case Times => Done(Int(a * b))
    case Div => if b == 0 then Failed(DivisionByZero, IntTag) else Done(Int(CDiv(a, b)))
    case Mod =>
      if b == 0 then Failed(RemainderByZero, IntTag)
      else
        CDivTruncates(a, b);
        Done(Int(CRem(a, b)))
    case Power => Done(Int(fu.toInt(fu.arith(Power, fu.ofInt(a), fu.ofInt(b)))))
    case _ => Failed(UnsupportedOperator, IntTag)
  }

  /** handle_real_ops: stores the Real tag first; only division checks its divisor. */
  function HandleRealOps(op: Op, a: Double, b: Double, fu: FloatUnit): (r: Outcome)
    ensures r.Failed? <==> op.IsRelational() || (op == Div && b.IsZero())
    ensures r.Failed? ==> r.residue == RealTag
    ensures r.Failed? && op == Div ==> r.error == DivisionByZero
    ensures r.Done? ==> r == Done(Real(fu.arith(op, a, b)))
  {
    match op
    case Div => if b.IsZero() then Failed(DivisionByZero, RealTag) else Done(Real(fu.arith(Div, a, b)))
    case Plus => Done(Real(fu.arith(op, a, b)))
    case Minus => Done(Real(fu.arith(op, a, b)))
    case Times => Done(Real(fu.arith(op, a, b)))
    case Mod => Done(Real(fu.arith(op, a, b)))
    case Power => Done(Real(fu.arith(op, a, b)))
    case _ => Failed(UnsupportedOperator, RealTag)
  }

  /** The operands admit pointer arithmetic: a pointer not produced by `*`, beside an Int. */
  predicate PointerArithmeticApplies(lhs: Value, rhs: Value, lhsDeref: bool, rhsDeref: bool) {
    (lhs.Ptr? && rhs.Int? && !lhsDeref) || (rhs.Ptr? && lhs.Int? && !rhsDeref)
  }

  /** handle_pointer_arithmetic: the pointer's address moved by the integer, on whichever side it is. */
  function HandlePointerArithmetic(op: Op, lhs: Value, rhs: Value): (r: Outcome)
    requires (lhs.Ptr? && rhs.Int?) || (lhs.Int? && rhs.Ptr?)
    ensures r.Done? <==> op == Plus || op == Minus
    ensures r.Failed? ==> r == Failed(InvalidPointerArithmetic, NoneTag)
    ensures r.Done? ==>
      var address := if lhs.Ptr? then lhs.addr else rhs.addr;
      var offset := if lhs.Int? then lhs.i else rhs.i;
      r.value.Ptr? && r.value.addr - address == (if op == Plus then offset else -offset)
  {
    var address := if lhs.Ptr? then lhs.addr else rhs.addr;
    var offset := if lhs.Int? then lhs.i else rhs.i;
    if op == Plus then Done(Ptr(address + offset))
    else if op == Minus then Done(Ptr(address - offset))
    else Failed(InvalidPointerArithmetic, NoneTag)
  }

  predicate Numeric(v: Value) {
    v.Int? || v.Real?
  }

  predicate Arithmetic(op: Op) {
    !op.IsRelational()
  }

  /**
    determine_op_result. `lhsDeref`/`rhsDeref` say whether the operand was
    written `*name`. The contract is the operand-typing rule that the
    comment on execute_binary_expression lists (execute.h:169-174), plus
    which tag a failure leaves behind: the Int tag for Int `/` or `%` by
    zero, the Real tag for `/` by a Real zero, the Boolean tag for a
    comparison that reaches number_comparison with operands of the wrong
    types, and no tag for every other failure.
   */
  function DetermineOpResult(op: Op, lhs: Value, rhs: Value, lhsDeref: bool, rhsDeref: bool, fu: FloatUnit): (r: Outcome)
    ensures lhs.Int? && rhs.Int? && Arithmetic(op) && r.Done? ==> r.value.Int?
    ensures lhs.Real? && rhs.Real? && Arithmetic(op) && r.Done? ==> r.value.Real?
    ensures ((lhs.Int? && rhs.Real?) || (lhs.Real? && rhs.Int?)) && Arithmetic(op) && r.Done? ==> r.value.Real?
    ensures Numeric(lhs) && Numeric(rhs) && op.IsRelational() ==> r.Done? && r.value.Boolean?
    ensures lhs.Str? && rhs.Str? && op == Plus ==> r == Done(Str(lhs.s + rhs.s))
    ensures Numeric(lhs) && Numeric(rhs) && r.Failed? ==> op == Div || op == Mod
    ensures Numeric(lhs) && Numeric(rhs) && r.Failed? ==> r.residue == (if lhs.Int? && rhs.Int? then IntTag else RealTag)
    ensures !Numeric(lhs) || !Numeric(rhs) ==>
      (r.Done? <==> (lhs.Str? && rhs.Str? && (op == Plus || op.IsRelational()))
                    || (PointerArithmeticApplies(lhs, rhs, lhsDeref, rhsDeref) && (op == Plus || op == Minus)))
    ensures r.Failed? && r.residue == IntTag ==> lhs.Int? && rhs.Int? && (r.error == DivisionByZero || r.error == RemainderByZero)
    ensures r.Failed? && r.residue == RealTag ==> r.error == DivisionByZero
    ensures r.Failed? && r.residue == BooleanTag ==> op.IsRelational() && r.error == InvalidOperandTypes
    ensures r.Failed? ==> r.residue in {NoneTag, IntTag, RealTag, BooleanTag}
    ensures lhs.Int? && rhs.Int? && (op == Div || op == Mod) && rhs.i == 0 ==> r.Failed? && r.residue == IntTag
    ensures Numeric(lhs) && rhs.Real? && rhs.d.IsZero() && op == Div ==> r == Failed(DivisionByZero, RealTag)
    ensures !Numeric(lhs) || !Numeric(rhs) ==>
      var numberComparison := op.IsRelational() && !lhs.Str? && !rhs.Str?
                              && !PointerArithmeticApplies(lhs, rhs, lhsDeref, rhsDeref);
      && (r.Failed? && numberComparison ==> r.residue == BooleanTag)
      && (r.Failed? && !numberComparison ==> r.residue == NoneTag)
  {
    if lhs.Str? || rhs.Str? then
      if op == Plus && lhs.Str? && rhs.Str? then Done(StringConcat(lhs.s, rhs.s))
      else if lhs.Str? && rhs.Str? && op.IsRelational() then StringComparison(op, lhs.s, rhs.s)
      else Failed(InvalidOperandTypes, NoneTag)
    else if PointerArithmeticApplies(lhs, rhs, lhsDeref, rhsDeref) then
      HandlePointerArithmetic(op, lhs, rhs)
    else
      var (l, r) := ChangeNumericTypes(lhs, rhs, fu);
      if op.IsRelational() then NumberComparison(op, l, r, fu)
      else if l.Int? && r.Int? then HandleIntegerOps(op, l.i, r.i, fu)
      else if l.Real? && r.Real? then HandleRealOps(op, l.d, r.d, fu)
      else Failed(InvalidOperandTypes, NoneTag)
  }

  /**
    The string rule: once either operand is a Str, only Str + Str
    (concatenation) and a comparison of two Strs (lexicographic, as strcmp)
    succeed; everything else is an operand-type error.
   */
  lemma StringRule(op: Op, lhs: Value, rhs: Value, lhsDeref: bool, rhsDeref: bool, fu: FloatUnit)
    requires lhs.Str? || rhs.Str?
    ensures var r := DetermineOpResult(op, lhs, rhs, lhsDeref, rhsDeref, fu);
      && (r.Done? <==> lhs.Str? && rhs.Str? && (op == Plus || op.IsRelational()))
      && (r.Done? && op.IsRelational() ==> r.value == Boolean(Relate(op, Compare(lhs.s, rhs.s))))
      && (r.Done? && op == Less ==> (r.value.b <==> LexLess(lhs.s, rhs.s)))
      && (r.Done? && op == Equal ==> (r.value.b <==> lhs.s == rhs.s))
      && (r.Failed? ==> r == Failed(InvalidOperandTypes, NoneTag))
  {
    if lhs.Str? && rhs.Str? {
      CompareIsLexicographic(lhs.s, rhs.s);
    }
  }

  /**
    Pointer arithmetic: a pointer that did not come from `*`, combined with
    an Int, moves by that Int under `+` and `-`, computing pointer plus or
    minus integer whichever side the pointer is on; any other operator is
    an error.
   */
  lemma PointerRule(op: Op, lhs: Value, rhs: Value, lhsDeref: bool, rhsDeref: bool, fu: FloatUnit)
    requires PointerArithmeticApplies(lhs, rhs, lhsDeref, rhsDeref)
    ensures var r := DetermineOpResult(op, lhs, rhs, lhsDeref, rhsDeref, fu);
      var address := if lhs.Ptr? then lhs.addr else rhs.addr;
      var offset := if lhs.Int? then lhs.i else rhs.i;
      && (op == Plus ==> r == Done(Ptr(address + offset)))
      && (op == Minus ==> r == Done(Ptr(address - offset)))
      && (op != Plus && op != Minus ==> r == Failed(InvalidPointerArithmetic, NoneTag))
  {
  }

  /** A pointer read through `*` is not moved by an Int: the combination is an operand-type error. */
  lemma DereferencedPointerIsNotArithmetic(op: Op, p: int, k: int, fu: FloatUnit)
    ensures DetermineOpResult(op, Ptr(p), Int(k), true, false, fu).Failed?
    ensures DetermineOpResult(op, Int(k), Ptr(p), false, true, fu).Failed?
    ensures DetermineOpResult(op, Ptr(p), Int(k), true, false, fu).error == InvalidOperandTypes
  {
  }

  /**
    Promotion: an Int beside a Real is computed as the Real (double) of
    that Int, on either side, for every operator.
   */
  lemma Promotion(op: Op, a: int, d: Double, lhsDeref: bool, rhsDeref: bool, fu: FloatUnit)
    ensures DetermineOpResult(op, Int(a), Real(d), lhsDeref, rhsDeref, fu)
         == DetermineOpResult(op, Real(fu.ofInt(a)), Real(d), lhsDeref, rhsDeref, fu)
    ensures DetermineOpResult(op, Real(d), Int(a), lhsDeref, rhsDeref, fu)
         == DetermineOpResult(op, Real(d), Real(fu.ofInt(a)), lhsDeref, rhsDeref, fu)
  {
  }

  /**
    Int with Int: `+ - *` are exact, `/` by zero is a ZeroDivisionError and
    otherwise truncates toward zero, `%` is C's remainder (an error by
    zero), `**` goes through the floating pow, and each of the six
    comparisons compares the integers.
   */
  lemma IntegerRule(op: Op, a: int, b: int, lhsDeref: bool, rhsDeref: bool, fu: FloatUnit)
    ensures var r := DetermineOpResult(op, Int(a), Int(b), lhsDeref, rhsDeref, fu);
      && (op == Plus ==> r == Done(Int(a + b)))
      && (op == Minus ==> r == Done(Int(a - b)))
      && (op == Times ==> r == Done(Int(a * b)))
      && (op == Div && b == 0 ==> r == Failed(DivisionByZero, IntTag))
      && (op == Div && b != 0 ==> r == Done(Int(CDiv(a, b))))
      && (op == Mod && b == 0 ==> r == Failed(RemainderByZero, IntTag))
      && (op == Mod && b != 0 ==> r == Done(Int(CRem(a, b))))
      && (op == Power ==> r == Done(Int(fu.toInt(fu.arith(Power, fu.ofInt(a), fu.ofInt(b))))))
      && (op == Equal ==> r == Done(Boolean(a == b)))
      && (op == NotEqual ==> r == Done(Boolean(a != b)))
      && (op == Less ==> r == Done(Boolean(a < b)))
      && (op == LessEqual ==> r == Done(Boolean(a <= b)))
      && (op == Greater ==> r == Done(Boolean(a > b)))
      && (op == GreaterEqual ==> r == Done(Boolean(a >= b)))
  {
    if op.IsRelational() {
      assert DetermineOpResult(op, Int(a), Int(b), lhsDeref, rhsDeref, fu) == NumberComparison(op, Int(a), Int(b), fu);
    } else {
      assert DetermineOpResult(op, Int(a), Int(b), lhsDeref, rhsDeref, fu) == HandleIntegerOps(op, a, b, fu);
    }
  }

  /** Real with Real: division by 0.0 (of either sign) is a ZeroDivisionError; otherwise a Real. */
  lemma RealRule(op: Op, x: Double, y: Double, lhsDeref: bool, rhsDeref: bool, fu: FloatUnit)
    ensures var r := DetermineOpResult(op, Real(x), Real(y), lhsDeref, rhsDeref, fu);
      && (op == Div && y.IsZero() ==> r == Failed(DivisionByZero, RealTag))
      && (Arithmetic(op) && !(op == Div && y.IsZero()) ==> r == Done(Real(fu.arith(op, x, y))))
      && (op.IsRelational() ==> r == Done(Boolean(fu.compare(op, x, y))))
  {
  }

  /**
    ZeroDivisionError: `/` between numbers fails exactly when the divisor
    is the Int 0 or a Real zero, whichever type the dividend has, provided
    the conversion to double maps only 0 to zero.
   */
  lemma DivisionByZeroRule(lhs: Value, rhs: Value, lhsDeref: bool, rhsDeref: bool, fu: FloatUnit)
    requires fu.ExactZero()
    requires Numeric(lhs) && Numeric(rhs)
    ensures var r := DetermineOpResult(Div, lhs, rhs, lhsDeref, rhsDeref, fu);
      && (r.Failed? <==> rhs == Int(0) || (rhs.Real? && rhs.d.IsZero()))
      && (r.Failed? ==> r.error == DivisionByZero)
  {
    if lhs.Real? && rhs.Int? {
      assert fu.ofInt(rhs.i).IsZero() <==> rhs.i == 0;
    }
  }

  /**
    Every other combination (a Boolean, None or a pointer outside the
    pointer rule, without a Str) is an operand-type error. Comparisons fail
    after number_comparison has stored the Boolean tag.
   */
  lemma OtherCombinationsFail(op: Op, lhs: Value, rhs: Value, lhsDeref: bool, rhsDeref: bool, fu: FloatUnit)
    requires !lhs.Str? && !rhs.Str?
    requires !PointerArithmeticApplies(lhs, rhs, lhsDeref, rhsDeref)
    requires !Numeric(lhs) || !Numeric(rhs)
    ensures DetermineOpResult(op, lhs, rhs, lhsDeref, rhsDeref, fu)
         == Failed(InvalidOperandTypes, if op.IsRelational() then BooleanTag else NoneTag)
  {
  }
}
