/**
  Evaluation of operands, expressions and assignment right-hand sides
  against the store: retrieve_value, execute_binary_expression,
  handle_normal_expression, the int()/float()/input() calls and
  process_rhs.
 */
module Evaluate {
  import opened Values
  import opened CText
  import opened Ram
  import opened ProgramGraph
  import opened Operators

  /**
    The value a literal element denotes; None for identifiers and the None
    literal. An Int literal is read with atoi, a Real literal with strtod.
   */
  function Literal(e: Element, fu: FloatUnit): (r: Option<Value>)
    ensures r.None? <==> e.kind == Identifier || e.kind == NoneLiteral
    ensures e.kind == IntLiteral ==> r.Some? && r.value.Int?
    ensures e.kind == RealLiteral ==> r.Some? && r.value.Real?
    ensures e.kind == StrLiteral ==> r == Some(Str(e.text))
    ensures e.kind == TrueLiteral ==> r == Some(Boolean(true))
    ensures e.kind == FalseLiteral ==> r == Some(Boolean(false))
  {
    match e.kind
    case IntLiteral => Some(Int(Atoi(e.text)))
    case RealLiteral => Some(Real(fu.strtod(e.text).0))
    case StrLiteral => Some(Str(e.text))
    case TrueLiteral => Some(Boolean(true))
    case FalseLiteral => Some(Boolean(false))
    case NoneLiteral => None
    case Identifier => None
  }

  /** An Int literal written as `%d` prints `n` denotes `n`. */
  lemma IntLiteralReadsDecimal(n: int, fu: FloatUnit)
    ensures Literal(Element(IntLiteral, Decimal(n)), fu) == Some(Int(n))
  {
    StrToLDecimal(n);
  }

  /** The value of a variable, or NameNotDefined. */
  function Lookup(m: Memory, name: string): (r: Result<Value>)
    requires Valid(m)
    ensures r.Err? <==> !Defined(m, name)
    ensures r.Err? ==> r.error == NameNotDefined
    ensures r.Ok? ==> Holds(m, name, r.value)
  {
    match ReadByName(m, name)
    case None => Err(NameNotDefined)
    case Some(v) => Ok(v)
  }

  /** `&name`: a pointer to the variable's cell; only an identifier that is defined has one. */
  function AddressOfElement(m: Memory, e: Element): (r: Result<Value>)
    requires Valid(m)
    ensures r.Ok? <==> e.kind == Identifier && Defined(m, e.text)
    ensures r.Ok? ==> r.value.Ptr? && 0 <= r.value.addr < m.numValues
    ensures r.Ok? ==> m.cells[r.value.addr].identifier == Some(e.text)
    ensures r.Err? ==> r.error == (if e.kind != Identifier then AddressOfNonIdentifier else NameNotDefined)
  {
    if e.kind != Identifier then Err(AddressOfNonIdentifier)
    else
      var addr := GetAddr(m, e.text);
      if addr == -1 then Err(NameNotDefined) else Ok(Ptr(addr))
  }

  /** `name` is defined, holds a pointer, and that pointer addresses an occupied cell. */
  ghost predicate PointsToOccupied(m: Memory, name: string)
    requires Valid(m)
  {
    var p := ReadByName(m, name);
    p.Some? && p.value.Ptr? && 0 <= p.value.addr < m.numValues
  }

  /**
    `*name`: the address is first checked against the capacity, then the
    store's read rejects any address that holds no variable, so only
    occupied cells can be read through a pointer.
   */
  function Deref(m: Memory, name: string): (r: Result<Value>)
    requires Valid(m)
    ensures r.Ok? <==> PointsToOccupied(m, name)
    ensures r.Ok? ==> r.value == m.cells[ReadByName(m, name).value.addr].value
    ensures !Defined(m, name) ==> r == Err(NameNotDefined)
    ensures Defined(m, name) && !ReadByName(m, name).value.Ptr? ==> r == Err(NotAPointer)
    ensures Defined(m, name) && ReadByName(m, name).value.Ptr? && r.Err? ==> r.error == InvalidAddress
  {
    match ReadByName(m, name)
    case None => Err(NameNotDefined)
    case Some(p) =>
      if !p.Ptr? then Err(NotAPointer)
      else if p.addr < 0 || p.addr >= m.capacity then Err(InvalidAddress)
      else
        match ReadByAddr(m, p.addr)
        case None => Err(InvalidAddress)
        case Some(v) => Ok(v)
  }

  /** retrieve_value: the value of one operand of an expression. */
  function RetrieveValue(u: UnaryExpr, m: Memory, fu: FloatUnit): (r: Result<Value>)
    requires Valid(m)
    ensures u.kind == AddressOf ==> r == AddressOfElement(m, u.element)
    ensures u.kind == PtrDeref ==> r == Deref(m, u.element.text)
    ensures u.kind == Plain && u.element.kind == Identifier ==> r == Lookup(m, u.element.text)
    ensures u.kind == AddressOf ==>
      && (r.Ok? <==> u.element.kind == Identifier && Defined(m, u.element.text))
      && (r.Ok? ==> r.value == Ptr(GetAddr(m, u.element.text)))
    ensures u.kind == PtrDeref ==>
      && (r.Ok? <==> PointsToOccupied(m, u.element.text))
      && (r.Ok? ==> r.value == m.cells[ReadByName(m, u.element.text).value.addr].value)
    ensures u.kind == Plain && u.element.kind == Identifier ==>
      && (r.Ok? <==> Defined(m, u.element.text))
      && (r.Ok? ==> Holds(m, u.element.text, r.value))
    ensures u.kind == Plain && u.element.kind != Identifier ==>
      r == (if u.element.kind == NoneLiteral then Err(UnsupportedOperand) else Ok(Literal(u.element, fu).value))
  {
    match u.kind
    case AddressOf => AddressOfElement(m, u.element)
    case PtrDeref => Deref(m, u.element.text)
    case Plain =>
      if u.element.kind == Identifier then Lookup(m, u.element.text)
      else
        match Literal(u.element, fu)
        case None => Err(UnsupportedOperand)
        case Some(v) => Ok(v)
  }

  /**
    execute_binary_expression: evaluate the left operand, and for a binary
    expression the right one, then apply the operator rules. A failure to
    evaluate an operand leaves nothing in the result.
   */
  function ExecuteBinaryExpression(expr: Expr, m: Memory, fu: FloatUnit): (r: Outcome)
    requires Valid(m)
    ensures RetrieveValue(expr.lhs, m, fu).Err? ==> r == Failed(RetrieveValue(expr.lhs, m, fu).error, NoneTag)
    ensures expr.Single? ==> (r.Done? <==> RetrieveValue(expr.lhs, m, fu).Ok?)
    ensures expr.Single? && r.Done? ==> r.value == RetrieveValue(expr.lhs, m, fu).value
    ensures expr.Binary? && RetrieveValue(expr.lhs, m, fu).Ok? && RetrieveValue(expr.rhs, m, fu).Err? ==>
      r == Failed(RetrieveValue(expr.rhs, m, fu).error, NoneTag)
    ensures r.Failed? && r.residue != NoneTag ==>
      expr.Binary? && RetrieveValue(expr.lhs, m, fu).Ok? && RetrieveValue(expr.rhs, m, fu).Ok?
    ensures expr.Binary? && RetrieveValue(expr.lhs, m, fu).Ok? && RetrieveValue(expr.rhs, m, fu).Ok? ==>
      r == DetermineOpResult(expr.op, RetrieveValue(expr.lhs, m, fu).value, RetrieveValue(expr.rhs, m, fu).value,
                             expr.lhs.kind == PtrDeref, expr.rhs.kind == PtrDeref, fu)
  {
    match RetrieveValue(expr.lhs, m, fu)
    case Err(e) => Failed(e, NoneTag)
    case Ok(lhs) =>
      if expr.Single? then Done(lhs)
      else
        match RetrieveValue(expr.rhs, m, fu)
        case Err(e) => Failed(e, NoneTag)
        case Ok(rhs) =>
          DetermineOpResult(expr.op, lhs, rhs, expr.lhs.kind == PtrDeref, expr.rhs.kind == PtrDeref, fu)
  }

  /**
    handle_normal_expression: a right-hand side that is a single element.
    The None literal is not accepted here.
   */
  function HandleNormalExpression(e: Element, m: Memory, fu: FloatUnit): (r: Result<Value>)
    requires Valid(m)
    ensures e.kind == Identifier ==> (r.Ok? <==> Defined(m, e.text)) && (r.Ok? ==> Holds(m, e.text, r.value))
    ensures e.kind == NoneLiteral ==> r == Err(UnsupportedRhs)
    ensures e.kind != Identifier && e.kind != NoneLiteral ==> r == Ok(Literal(e, fu).value)
  {
    if e.kind == Identifier then Lookup(m, e.text)
    else
      match Literal(e, fu)
      case None => Err(UnsupportedRhs)
      case Some(v) => Ok(v)
  }

  datatype Conversion = ToInt | ToFloat

  /** The text of a Str variable, if `name` is one. */
  function StringVariable(m: Memory, name: string): Option<string>
    requires Valid(m)
  {
    match ReadByName(m, name)
    case Some(Str(s)) => Some(s)
    case _ => None
  }

  /**
    handle_conversion: int(x) and float(x) need a variable holding a Str,
    and succeed only when the numeric parse consumes the whole string.
   */
  function HandleConversion(conv: Conversion, parameter: Element, m: Memory, fu: FloatUnit): (r: Result<Value>)
    requires Valid(m)
    ensures StringVariable(m, parameter.text).None? ==> r == Err(NeedsStringVariable)
    ensures conv == ToInt && StringVariable(m, parameter.text).Some? ==>
      var s := StringVariable(m, parameter.text).value;
      && (r.Ok? <==> StrToL(s).1 == |s|)
      && (r.Ok? ==> r.value == Int(StrToL(s).0))
      && (r.Err? ==> r.error == InvalidIntString)
    ensures conv == ToFloat && r.Ok? ==> r.value.Real?
  {
    match StringVariable(m, parameter.text)
    case None => Err(NeedsStringVariable)
    case Some(s) =>
      match conv
      case ToInt =>
        var (n, end) := StrToL(s);
        if end != |s| then Err(InvalidIntString) else Ok(Int(n))
      case ToFloat =>
        var (d, end) := fu.strtod(s);
        if end != |s| then Err(InvalidFloatString) else Ok(Real(d))
  }

  /** int() of a variable holding the decimal rendering of `n` yields `n`. */
  lemma ConversionReadsDecimal(m: Memory, parameter: Element, n: int, fu: FloatUnit)
    requires Valid(m) && ReadByName(m, parameter.text) == Some(Str(Decimal(n)))
    ensures HandleConversion(ToInt, parameter, m, fu) == Ok(Int(n))
  {
    StrToLDecimal(n);
  }

  /**
    handle_function: the calls allowed on the right of `=`. input() takes
    a string-literal prompt and yields the next line of input as a Str;
    int() and float() convert a Str variable.
   */
  function HandleFunction(name: string, parameter: Element, m: Memory, stdin: seq<string>, fu: FloatUnit)
    : (r: Result<(Value, seq<string>)>)
    requires Valid(m)
    ensures name == "input" ==>
      r == (if parameter.kind != StrLiteral then Err(InputNeedsString)
            else if |stdin| == 0 then Err(InputUnavailable)
            else Ok((Str(stdin[0]), stdin[1..])))
    ensures name != "input" && r.Ok? ==> r.value.1 == stdin
    ensures name == "int" || name == "float" ==>
      var c := HandleConversion(if name == "int" then ToInt else ToFloat, parameter, m, fu);
      && (r.Ok? <==> c.Ok?)
      && (r.Ok? ==> r.value == (c.value, stdin))
      && (r.Err? ==> r.error == c.error)
    ensures name != "input" && name != "int" && name != "float" ==> r == Err(UnsupportedCall)
  {
    if name == "input" then
      if parameter.kind != StrLiteral then Err(InputNeedsString)
      else if |stdin| == 0 then Err(InputUnavailable)
      else Ok((Str(stdin[0]), stdin[1..]))
    else if name == "int" || name == "float" then
      var v :- HandleConversion(if name == "int" then ToInt else ToFloat, parameter, m, fu);
      Ok((v, stdin))
    else Err(UnsupportedCall)
  }

  /** process_rhs: the value a plain assignment `name = rhs` stores. */
  function ProcessRhs(rhs: Rhs, m: Memory, stdin: seq<string>, fu: FloatUnit): (r: Result<(Value, seq<string>)>)
    requires Valid(m)
    ensures rhs.CallRhs? ==> r == HandleFunction(rhs.name, rhs.parameter, m, stdin, fu)
    ensures rhs.ExprRhs? && r.Ok? ==> r.value.1 == stdin
    ensures rhs.ExprRhs? && rhs.expr.Single? && rhs.expr.lhs.kind == Plain && rhs.expr.lhs.element.kind == NoneLiteral ==>
      r == Err(UnsupportedRhs)
    ensures rhs.ExprRhs? && rhs.expr.Single? ==>
      var u := rhs.expr.lhs;
      (u.kind != Plain || u.element.kind != NoneLiteral ==>
        && (r.Ok? <==> RetrieveValue(u, m, fu).Ok?)
        && (r.Ok? ==> r.value.0 == RetrieveValue(u, m, fu).value)
        && (r.Err? ==> r.error == RetrieveValue(u, m, fu).error))
    ensures rhs.ExprRhs? && rhs.expr.Binary? ==>
      (r.Ok? <==> ExecuteBinaryExpression(rhs.expr, m, fu).Done?)
      && (r.Ok? ==> r.value.0 == ExecuteBinaryExpression(rhs.expr, m, fu).value)
      && (r.Err? ==> r.error == ExecuteBinaryExpression(rhs.expr, m, fu).error)
  {
    match rhs
    case CallRhs(name, parameter) => HandleFunction(name, parameter, m, stdin, fu)
    case ExprRhs(expr) =>
      if expr.Binary? then
        match ExecuteBinaryExpression(expr, m, fu)
        case Done(v) => Ok((v, stdin))
        case Failed(e, _) => Err(e)
      else
        var v :-
          match expr.lhs.kind
          case AddressOf => AddressOfElement(m, expr.lhs.element)
          case PtrDeref => Deref(m, expr.lhs.element.text)
          case Plain => HandleNormalExpression(expr.lhs.element, m, fu);
        Ok((v, stdin))
  }
}
