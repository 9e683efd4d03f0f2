/**
  The tagged values the interpreter computes with and keeps in its store
  (struct RAM_VALUE), the operators of the expression language, the semantic
  errors it reports, and the floating-point unit it relies on.
 */
module Values {

  datatype Option<+T> = None | Some(value: T)

  /** A success value or the semantic error that stopped the computation. */
  datatype Result<+T> = Ok(value: T) | Err(error: Error) {

    predicate IsFailure() {
      Err?
    }

    function PropagateFailure<U>(): Result<U>
      requires Err?
    {
      Err(error)
    }

    function Extract(): T
      requires Ok?
    {
      value
    }
  }

  /** A C `double`, kept as its IEEE 754 binary64 bit pattern. */
  datatype Double = Double(bits: bv64) {

    /** `d == 0.0` in C: true of +0.0 and -0.0 and of nothing else (not of a NaN). */
    predicate IsZero() {
      bits & 0x7FFF_FFFF_FFFF_FFFF == 0
    }
  }

  /** The value_type discriminant of a value. */
  datatype Tag = NoneTag | IntTag | RealTag | BooleanTag | StrTag | PtrTag

  datatype Value =
    | NoneValue
    | Int(i: int)
    | Real(d: Double)
    | Boolean(b: bool)
    | Str(s: string)
    | Ptr(addr: int)
  {
    function TagOf(): Tag {
      match this
      case NoneValue => NoneTag
      case Int(_) => IntTag
      case Real(_) => RealTag
      case Boolean(_) => BooleanTag
      case Str(_) => StrTag
      case Ptr(_) => PtrTag
    }
  }

  /** The binary operators: `+ - * / % **` and the six comparisons. */
  datatype Op =
    | Plus | Minus | Times | Div | Mod | Power
    | Equal | NotEqual | Less | LessEqual | Greater | GreaterEqual
  {
    /** is_relational_op: the six comparisons, and no arithmetic operator. */
    function IsRelational(): (r: bool)
      ensures r <==> !(Plus? || Minus? || Times? || Div? || Mod? || Power?)
    {
      Equal? || NotEqual? || Less? || LessEqual? || Greater? || GreaterEqual?
    }
  }

  /** What a comparison yields, given the sign `c` of left minus right. */
  function Relate(op: Op, c: int): bool {
    match op
    case Equal => c == 0
    case NotEqual => c != 0
    case Less => c < 0
    case LessEqual => c <= 0
    case Greater => c > 0
    case GreaterEqual => c >= 0
    case _ => false
  }

  /** The diagnostics the interpreter prints before it gives up on a statement. */
  datatype Error =
    | NameNotDefined            // name '...' is not defined
    | AddressOfNonIdentifier    // '&' can only be used with an identifier
    | NotAPointer               // '*' applied to a variable that holds no pointer
    | InvalidAddress            // '...' contains invalid address
    | InvalidOperandTypes
    | InvalidPointerArithmetic
    | DivisionByZero            // ZeroDivisionError: division by zero
    | RemainderByZero           // integer % 0, undefined behaviour in C
    | UnsupportedOperator
    | UnsupportedOperand        // None literal as an operand of an expression
    | UnsupportedRhs            // None literal as the whole right-hand side
    | NeedsStringVariable       // int()/float() of something other than a Str variable
    | InvalidIntString
    | InvalidFloatString
    | InputNeedsString          // input() with a prompt that is not a string literal
    | InputUnavailable          // end of input reached by input()
    | UnsupportedCall           // a call other than input/int/float on the right of '='
    | WriteFailed               // *p = e where p's address holds no variable
    | UnprintableValue          // print(x) where x holds None
    | UnknownStatementCall      // a call statement other than print

  /**
    The floating-point operations of the C library, taken as a parameter:
    the interpreter only dispatches on tags around them.
   */
  datatype FloatUnit = FloatUnit(
    ofInt: int -> Double,                    // (double) i
    toInt: Double -> int,                    // (int) d
    arith: (Op, Double, Double) -> Double,   // + - * /, fmod, pow
    compare: (Op, Double, Double) -> bool,   // == != < <= > >=
    strtod: string -> (Double, nat))         // the value and the number of characters consumed
  {
    /**
      (double) i is 0.0 exactly for i == 0, as it is for every 32-bit int;
      the zero-divisor lemmas for mixed operands assume this of the unit.
     */
    ghost predicate ExactZero() {
      forall i :: ofInt(i).IsZero() <==> i == 0
    }
  }
}
