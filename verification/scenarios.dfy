/**
  Concrete statements and expressions, each showing one behaviour of the
  code: a pointer round trip, one round of a counting loop, a while
  condition that fails, division by zero stopping a run, an undefined
  name, the strict int() conversion and concatenation.
 */
module Scenarios {
  import opened Values
  import opened CText
  import opened Ram
  import opened ProgramGraph
  import opened Operators
  import opened Evaluate
  import opened Execute

  /** An integer literal operand, written the way `%d` prints `n`. */
  function IntLit(n: int): UnaryExpr {
    UnaryExpr(Plain, Element(IntLiteral, Decimal(n)))
  }

  function Var(name: string): UnaryExpr {
    UnaryExpr(Plain, Element(Identifier, name))
  }

  function AddressOfVar(name: string): UnaryExpr {
    UnaryExpr(AddressOf, Element(Identifier, name))
  }

  /** The store after `x = 5; p = &x`, written from `m`. */
  function PointerStore(m: Memory): Memory
    requires Valid(m)
  {
    WriteByName(WriteByName(m, Int(5), "x"), Ptr(m.numValues), "p")
  }

  lemma AssignFive(m: Memory, fu: FloatUnit)
    requires Valid(m)
    ensures ExecuteAssignment("x", false, ExprRhs(Single(IntLit(5))), Machine(m, []), fu)
         == Ok(Machine(WriteByName(m, Int(5), "x"), []))
  {
    StrToLDecimal(5);
  }

  lemma AssignAddress(m: Memory, fu: FloatUnit)
    requires Valid(m) && !Defined(m, "x")
    ensures ExecuteAssignment("p", false, ExprRhs(Single(AddressOfVar("x"))), Machine(WriteByName(m, Int(5), "x"), []), fu)
         == Ok(Machine(PointerStore(m), []))
  {
  }

  /** In that store p points at x's cell, which holds 5. */
  lemma PointerStoreLayout(m: Memory)
    requires Valid(m) && !Defined(m, "x") && !Defined(m, "p")
    ensures GetAddr(PointerStore(m), "x") == m.numValues
    ensures ReadByName(PointerStore(m), "p") == Some(Ptr(m.numValues))
    ensures PointsToOccupied(PointerStore(m), "p")
  {
    var m1 := WriteByName(m, Int(5), "x");
    ExtendsKeepsAddress(m1, PointerStore(m), "x");
  }

  lemma NineThroughPointer(m: Memory, fu: FloatUnit)
    requires Valid(m)
    ensures PointerRhs(ExprRhs(Single(IntLit(9))), m, [], fu) == Ok((Int(9), []))
  {
    StrToLDecimal(9);
  }

  /** Then `*p = 9` writes 9 into x's cell and leaves p alone. */
  lemma PointerWrite(m: Memory, fu: FloatUnit)
    requires Valid(m) && !Defined(m, "x") && !Defined(m, "p")
    ensures var a3 := HandlePointerAssignment("p", ExprRhs(Single(IntLit(9))), Machine(PointerStore(m), []), fu);
      && a3.Ok?
      && ReadByName(a3.value.ram, "x") == Some(Int(9))
      && ReadByName(a3.value.ram, "p") == Some(Ptr(m.numValues))
      && GetAddr(a3.value.ram, "x") == m.numValues
  {
    var m2 := PointerStore(m);
    NineThroughPointer(m2, fu);
    PointerStoreLayout(m);
    var m3 := HandlePointerAssignment("p", ExprRhs(Single(IntLit(9))), Machine(m2, []), fu).value.ram;
    ExtendsKeepsAddress(m2, m3, "x");
  }

  /**
    `x = 5; p = &x; *p = 9` from any store without x and p: each
    assignment succeeds, and afterwards x reads 9 while p still holds x's
    address.
   */
  lemma PointerRoundTrip(m: Memory, fu: FloatUnit)
    requires Valid(m) && !Defined(m, "x") && !Defined(m, "p")
    ensures var a1 := ExecuteAssignment("x", false, ExprRhs(Single(IntLit(5))), Machine(m, []), fu);
      && a1.Ok?
      && var a2 := ExecuteAssignment("p", false, ExprRhs(Single(AddressOfVar("x"))), a1.value, fu);
      && a2.Ok?
      && var a3 := ExecuteAssignment("p", true, ExprRhs(Single(IntLit(9))), a2.value, fu);
      && a3.Ok?
      && ReadByName(a3.value.ram, "x") == Some(Int(9))
      && ReadByName(a3.value.ram, "p") == Some(Ptr(GetAddr(a3.value.ram, "x")))
  {
    AssignFive(m, fu);
    AssignAddress(m, fu);
    PointerWrite(m, fu);
    assert ExecuteAssignment("p", true, ExprRhs(Single(IntLit(9))), Machine(PointerStore(m), []), fu)
        == HandlePointerAssignment("p", ExprRhs(Single(IntLit(9))), Machine(PointerStore(m), []), fu);
  }

  /** The condition `i < 3` sends the loop into its body exactly while i is below 3. */
  lemma CountingLoopCondition(m: Memory, k: int, body: Link, next: Link, fu: FloatUnit)
    requires Valid(m) && ReadByName(m, "i") == Some(Int(k))
    ensures WhileTarget(ExecuteBinaryExpression(Binary(Less, Var("i"), IntLit(3)), m, fu), body, next)
         == Some(if k < 3 then body else next)
  {
    StrToLDecimal(3);
  }

  lemma IncrementValue(m: Memory, k: int, fu: FloatUnit)
    requires Valid(m) && ReadByName(m, "i") == Some(Int(k))
    ensures ProcessRhs(ExprRhs(Binary(Plus, Var("i"), IntLit(1))), m, [], fu) == Ok((Int(k + 1), []))
  {
    IntLiteralReadsDecimal(1, fu);
    assert RetrieveValue(IntLit(1), m, fu) == Ok(Int(1));
    assert RetrieveValue(Var("i"), m, fu) == Ok(Int(k));
    IntegerRule(Plus, k, 1, false, false, fu);
  }

  /** The body `i = i + 1` adds one to i and touches no other variable. */
  lemma CountingLoopBody(m: Memory, k: int, fu: FloatUnit)
    requires Valid(m) && ReadByName(m, "i") == Some(Int(k))
    ensures var r := ExecuteAssignment("i", false, ExprRhs(Binary(Plus, Var("i"), IntLit(1))), Machine(m, []), fu);
      && r.Ok?
      && ReadByName(r.value.ram, "i") == Some(Int(k + 1))
      && forall other | other != "i" :: ReadByName(r.value.ram, other) == ReadByName(m, other)
  {
    IncrementValue(m, k, fu);
  }

  /** `while 1 / 0:` -- the Int tag is stored before the zero check, so the loop is skipped, not halted. */
  lemma DividingConditionMovesOn(mach: Machine, fu: FloatUnit)
    requires Valid(mach.ram)
    ensures var prog := [WhileLoop(Binary(Div, IntLit(1), IntLit(0)), Some(1), None), Pass(Some(0))];
      Step(prog, 0, mach, fu) == Continue(None, mach)
  {
    StrToLDecimal(1);
    StrToLDecimal(0);
  }

  /** `while y:` with y undefined fails before any tag is stored, so execution halts. */
  lemma UndefinedConditionHalts(mach: Machine, fu: FloatUnit)
    requires Valid(mach.ram) && !Defined(mach.ram, "y")
    ensures var prog := [WhileLoop(Single(Var("y")), Some(1), None), Pass(Some(0))];
      Step(prog, 0, mach, fu) == Halt(NameNotDefined)
  {
  }

  lemma FiveOverZero(m: Memory, fu: FloatUnit)
    requires Valid(m)
    ensures ProcessRhs(ExprRhs(Binary(Div, IntLit(5), IntLit(0))), m, [], fu) == Err(DivisionByZero)
  {
    StrToLDecimal(5);
    StrToLDecimal(0);
  }

  /** `x = 5 / 0` is a ZeroDivisionError: execution stops there and nothing is written. */
  lemma DivisionByZeroStops(mach: Machine, fu: FloatUnit, fuel: nat)
    requires Valid(mach.ram)
    ensures var prog := [Assignment("x", false, ExprRhs(Binary(Div, IntLit(5), IntLit(0))), None)];
      && WellFormed(prog)
      && Run(prog, Some(0), mach, fu, fuel + 1) == Stopped(mach, 0, DivisionByZero)
  {
    FiveOverZero(mach.ram, fu);
    var prog := [Assignment("x", false, ExprRhs(Binary(Div, IntLit(5), IntLit(0))), None)];
    StopOnError(prog, 0, mach, fu, fuel);
  }

  /** `x = y + 1` with y undefined reports the name, and nothing is written. */
  lemma UndefinedNameFails(mach: Machine, fu: FloatUnit)
    requires Valid(mach.ram) && !Defined(mach.ram, "y")
    ensures ExecuteAssignment("x", false, ExprRhs(Binary(Plus, Var("y"), IntLit(1))), mach, fu) == Err(NameNotDefined)
  {
  }

  /** A store holding the string `s` in the variable v. */
  function WithText(m: Memory, s: string): Memory
    requires Valid(m)
  {
    WriteByName(m, Str(s), "v")
  }

  lemma TextOfV(m: Memory, s: string)
    requires Valid(m)
    ensures StringVariable(WithText(m, s), "v") == Some(s)
  {
  }

  /** int(v) with v = "12" is 12. */
  lemma ConversionReadsNumber(m: Memory, fu: FloatUnit)
    requires Valid(m)
    ensures HandleConversion(ToInt, Element(Identifier, "v"), WithText(m, "12"), fu) == Ok(Int(12))
  {
    TextOfV(m, "12");
    assert Decimal(12) == "12";
    StrToLDecimal(12);
  }

  /** int(v) with v = " -7" is -7: leading white space and a sign are accepted. */
  lemma ConversionSkipsSpace(m: Memory, fu: FloatUnit)
    requires Valid(m)
    ensures HandleConversion(ToInt, Element(Identifier, "v"), WithText(m, " -7"), fu) == Ok(Int(-7))
  {
    TextOfV(m, " -7");
    assert Decimal(-7) == "-7";
    StrToLDecimal(-7);
    StrToLSkipsSpace(' ', "-7");
    assert [' '] + "-7" == " -7";
  }

  /** int(v) with v = "12x" is an error: the parse must consume the whole string. */
  lemma ConversionRejectsTrailing(m: Memory, fu: FloatUnit)
    requires Valid(m)
    ensures HandleConversion(ToInt, Element(Identifier, "v"), WithText(m, "12x"), fu) == Err(InvalidIntString)
  {
    TextOfV(m, "12x");
    assert Decimal(12) == "12";
    StrToLReadsDecimal(12, "x");
    assert "12" + "x" == "12x";
  }

  /** int(v) with v = "" is 0: strtol consumes nothing and so reaches the end of the empty string. */
  lemma ConversionOfEmpty(m: Memory, fu: FloatUnit)
    requires Valid(m)
    ensures HandleConversion(ToInt, Element(Identifier, "v"), WithText(m, ""), fu) == Ok(Int(0))
  {
    TextOfV(m, "");
  }

  function StrLit(t: string): UnaryExpr {
    UnaryExpr(Plain, Element(StrLiteral, t))
  }

  /** `"ab" + "cd"` is "abcd". */
  lemma Concatenation(m: Memory, fu: FloatUnit)
    requires Valid(m)
    ensures ExecuteBinaryExpression(Binary(Plus, StrLit("ab"), StrLit("cd")), m, fu) == Done(Str("abcd"))
  {
    assert "ab" + "cd" == "abcd";
  }
}
