/**
  The statement executor: assignments in their two forms (`x = e` and
  `*p = e`), call statements, pass, while loops, and the walk over the
  program graph that stops at the first semantic error.
 */
module Execute {
  import opened Values
  import opened Ram
  import opened ProgramGraph
  import opened Operators
  import opened Evaluate

  /** What the executor works on: the store and the lines of input not yet read. */
  datatype Machine = Machine(ram: Memory, stdin: seq<string>)

  /**
    The value `*p = rhs` stores. A single operand is evaluated by
    handle_normal_expression on its element, so any `&` or `*` in front
    of it is not applied.
   */
  function PointerRhs(rhs: Rhs, m: Memory, stdin: seq<string>, fu: FloatUnit): (r: Result<(Value, seq<string>)>)
    requires Valid(m)
    ensures rhs.ExprRhs? && r.Ok? ==> r.value.1 == stdin
    ensures rhs.CallRhs? || rhs.expr.Binary? ==> r == ProcessRhs(rhs, m, stdin, fu)
    ensures rhs.ExprRhs? && rhs.expr.Single? ==>
      r == ProcessRhs(ExprRhs(Single(UnaryExpr(Plain, rhs.expr.lhs.element))), m, stdin, fu)
  {
    match rhs
    case CallRhs(name, parameter) => HandleFunction(name, parameter, m, stdin, fu)
    case ExprRhs(expr) =>
      if expr.Binary? then
        match ExecuteBinaryExpression(expr, m, fu)
        case Done(v) => Ok((v, stdin))
        case Failed(e, _) => Err(e)
      else
        var v :- HandleNormalExpression(expr.lhs.element, m, fu);
        Ok((v, stdin))
  }

  /**
    handle_pointer_assignment: `*target = rhs`. The target must hold a
    pointer within the capacity; then the right-hand side is evaluated; then
    the store writes at the pointer's address, which fails unless a
    variable lives there. Only that one cell's value changes.
   */
  function HandlePointerAssignment(target: string, rhs: Rhs, mach: Machine, fu: FloatUnit): (r: Result<Machine>)
    requires Valid(mach.ram)
    ensures r.Ok? ==> Valid(r.value.ram) && Extends(mach.ram, r.value.ram)
    ensures r.Ok? <==> PointsToOccupied(mach.ram, target) && PointerRhs(rhs, mach.ram, mach.stdin, fu).Ok?
    ensures r.Ok? ==>
      var a := ReadByName(mach.ram, target).value.addr;
      var v := PointerRhs(rhs, mach.ram, mach.stdin, fu).value.0;
      && r.value.ram.numValues == mach.ram.numValues
      && r.value.ram.capacity == mach.ram.capacity
      && r.value.ram.cells == mach.ram.cells[a := Cell(mach.ram.cells[a].identifier, v)]
      && r.value.stdin == PointerRhs(rhs, mach.ram, mach.stdin, fu).value.1
    ensures r.Ok? && GetAddr(mach.ram, target) != ReadByName(mach.ram, target).value.addr ==>
      ReadByName(r.value.ram, target) == ReadByName(mach.ram, target)
    ensures !Defined(mach.ram, target) ==> r == Err(NameNotDefined)
    ensures Defined(mach.ram, target) && !ReadByName(mach.ram, target).value.Ptr? ==> r == Err(NotAPointer)
    ensures Defined(mach.ram, target) && ReadByName(mach.ram, target).value.Ptr? ==>
      var a := ReadByName(mach.ram, target).value.addr;
      && (a < 0 || a >= mach.ram.capacity ==> r == Err(InvalidAddress))
      && (0 <= a < mach.ram.capacity && PointerRhs(rhs, mach.ram, mach.stdin, fu).Err? ==>
            r == Err(PointerRhs(rhs, mach.ram, mach.stdin, fu).error))
      && (mach.ram.numValues <= a < mach.ram.capacity && PointerRhs(rhs, mach.ram, mach.stdin, fu).Ok? ==>
            r == Err(WriteFailed))
  {
    match ReadByName(mach.ram, target)
    case None => Err(NameNotDefined)
    case Some(p) =>
      if !p.Ptr? then Err(NotAPointer)
      else if p.addr < 0 || p.addr >= mach.ram.capacity then Err(InvalidAddress)
      else
        var stored :- PointerRhs(rhs, mach.ram, mach.stdin, fu);
        match WriteByAddr(mach.ram, stored.0, p.addr)
        case None => Err(WriteFailed)
        case Some(m') =>
          assert m'.cells == mach.ram.cells[p.addr := Cell(mach.ram.cells[p.addr].identifier, stored.0)];
          ExtendsKeepsAddress(mach.ram, m', target);
          Ok(Machine(m', stored.1))
  }

  /**
    execute_assignment: `target = rhs` evaluates the right-hand side and
    writes it by name; `*target = rhs` goes through the pointer. A failed
    evaluation writes nothing.
   */
  function ExecuteAssignment(target: string, isPtrDeref: bool, rhs: Rhs, mach: Machine, fu: FloatUnit)
    : (r: Result<Machine>)
    requires Valid(mach.ram)
    ensures r.Ok? ==> Valid(r.value.ram) && Extends(mach.ram, r.value.ram)
    ensures !isPtrDeref ==> (r.Ok? <==> ProcessRhs(rhs, mach.ram, mach.stdin, fu).Ok?)
    ensures !isPtrDeref && r.Err? ==> r.error == ProcessRhs(rhs, mach.ram, mach.stdin, fu).error
    ensures !isPtrDeref && r.Ok? ==>
      var stored := ProcessRhs(rhs, mach.ram, mach.stdin, fu).value;
      && ReadByName(r.value.ram, target) == Some(stored.0)
      && (forall other | other != target :: ReadByName(r.value.ram, other) == ReadByName(mach.ram, other))
      && r.value.stdin == stored.1
    ensures isPtrDeref ==> r == HandlePointerAssignment(target, rhs, mach, fu)
  {
    if isPtrDeref then HandlePointerAssignment(target, rhs, mach, fu)
    else
      var stored :- ProcessRhs(rhs, mach.ram, mach.stdin, fu);
      Ok(Machine(WriteByName(mach.ram, stored.0, target), stored.1))
  }

  /**
    execute_function_call: only print is a statement. print() and print of
    a literal always succeed; print of a variable needs it defined and not
    None. Output is not modelled.
   */
  function ExecuteFunctionCall(name: string, parameter: Option<Element>, m: Memory): (r: Result<()>)
    requires Valid(m)
    ensures name != "print" ==> r == Err(UnknownStatementCall)
    ensures name == "print" && parameter.Some? && parameter.value.kind == Identifier ==>
      var v := ReadByName(m, parameter.value.text);
      r == (if v.None? then Err(NameNotDefined) else if v.value.NoneValue? then Err(UnprintableValue) else Ok(()))
    ensures name == "print" && (parameter.None? || parameter.value.kind != Identifier) ==> r == Ok(())
  {
    if name != "print" then Err(UnknownStatementCall)
    else
      match parameter
      case None => Ok(())
      case Some(e) =>
        if e.kind != Identifier then Ok(())
        else
          match ReadByName(m, e.text)
          case None => Err(NameNotDefined)
          case Some(NoneValue) => Err(UnprintableValue)
          case Some(_) => Ok(())
  }

  /** How a loop condition's value is read: Boolean, Int and Real are true when nonzero. */
  function Truthy(v: Value): Option<bool> {
    match v
    case Boolean(b) => Some(b)
    case Int(i) => Some(i != 0)
    case Real(d) => Some(!d.IsZero())
    case _ => None
  }

  /**
    Where a while loop goes after evaluating its condition: the body when
    it is true, past the loop when it is false or of another type, and
    nowhere (halt) when the evaluation failed before any tag was stored.
    A failure after a helper already stored a tag moves past the loop.
   */
  function WhileTarget(cond: Outcome, body: Link, next: Link): (r: Option<Link>)
    ensures cond.Done? ==> r == Some(if Truthy(cond.value) == Some(true) then body else next)
    ensures cond.Failed? ==> (r.None? <==> cond.residue == NoneTag)
    ensures cond.Failed? && r.Some? ==> r.value == next
  {
    match cond
    case Done(v) => if Truthy(v) == Some(true) then Some(body) else Some(next)
    case Failed(_, residue) => if residue == NoneTag then None else Some(next)
  }

  datatype StepResult = Continue(next: Link, machine: Machine) | Halt(error: Error)

  /** One iteration of execute's loop, at statement `pc`. */
  function Step(prog: Program, pc: nat, mach: Machine, fu: FloatUnit): (r: StepResult)
    requires pc < |prog| && Valid(mach.ram)
    ensures r.Continue? ==> Valid(r.machine.ram) && Extends(mach.ram, r.machine.ram)
    ensures r.Continue? ==> r.next == prog[pc].next || (prog[pc].WhileLoop? && r.next == prog[pc].body)
    ensures r.Continue? && !prog[pc].Assignment? ==> r.machine == mach
    ensures r.Halt? ==> !prog[pc].Pass?
    ensures prog[pc].Pass? ==> r == Continue(prog[pc].next, mach)
    ensures prog[pc].Assignment? ==>
      var a := ExecuteAssignment(prog[pc].target, prog[pc].isPtrDeref, prog[pc].rhs, mach, fu);
      && (r.Halt? <==> a.Err?)
      && (r.Halt? ==> r.error == a.error)
      && (r.Continue? ==> r == Continue(prog[pc].next, a.value))
    ensures prog[pc].FunctionCall? ==>
      var c := ExecuteFunctionCall(prog[pc].name, prog[pc].parameter, mach.ram);
      && (r.Halt? <==> c.Err?)
      && (r.Halt? ==> r.error == c.error)
      && (r.Continue? ==> r == Continue(prog[pc].next, mach))
    ensures prog[pc].WhileLoop? ==>
      var cond := ExecuteBinaryExpression(prog[pc].condition, mach.ram, fu);
      var w := WhileTarget(cond, prog[pc].body, prog[pc].next);
      && (r.Halt? <==> w.None?)
      && (r.Halt? ==> r.error == cond.error)
      && (r.Continue? ==> r == Continue(w.value, mach))
  {
    match prog[pc]
    case Assignment(target, isPtrDeref, rhs, next) =>
      (match ExecuteAssignment(target, isPtrDeref, rhs, mach, fu)
       case Err(e) => Halt(e)
       case Ok(mach') => Continue(next, mach'))
    case FunctionCall(name, parameter, next) =>
      (match ExecuteFunctionCall(name, parameter, mach.ram)
       case Err(e) => Halt(e)
       case Ok(_) => Continue(next, mach))
    case Pass(next) => Continue(next, mach)
    case WhileLoop(condition, body, next) =>
      var cond := ExecuteBinaryExpression(condition, mach.ram, fu);
      match WhileTarget(cond, body, next)
      case None => Halt(cond.error)
      case Some(link) => Continue(link, mach)
  }

  datatype RunResult =
    | Finished(machine: Machine)
    | Stopped(machine: Machine, at: nat, error: Error)
    | OutOfFuel(machine: Machine, at: nat)

  /**
    execute: follow the graph from `pc` until the end of the program or the
    first statement that fails; `fuel` bounds the number of statements run.
    The store stays valid and keeps every variable at its address, and a
    run stops only at a statement that fails in the state it reached.
   */
  function Run(prog: Program, pc: Link, mach: Machine, fu: FloatUnit, fuel: nat): (r: RunResult)
    requires WellFormed(prog) && LinkOk(prog, pc) && Valid(mach.ram)
    ensures Valid(r.machine.ram) && Extends(mach.ram, r.machine.ram)
    ensures r.Stopped? ==> r.at < |prog| && Step(prog, r.at, r.machine, fu) == Halt(r.error)
    ensures r.OutOfFuel? ==> r.at < |prog|
    ensures pc.None? ==> r == Finished(mach)
    decreases fuel
  {
    match pc
    case None => Finished(mach)
    case Some(i) =>
      if fuel == 0 then OutOfFuel(mach, i)
      else
        match Step(prog, i, mach, fu)
        case Halt(e) => Stopped(mach, i, e)
        case Continue(next, mach') => Run(prog, next, mach', fu, fuel - 1)
  }

  /** One statement that does not fail hands the rest of the run to its successor. */
  lemma RunUnfolds(prog: Program, i: nat, mach: Machine, fu: FloatUnit, fuel: nat)
    requires WellFormed(prog) && i < |prog| && Valid(mach.ram)
    requires Step(prog, i, mach, fu).Continue?
    ensures LinkOk(prog, Step(prog, i, mach, fu).next)
    ensures Run(prog, Some(i), mach, fu, fuel + 1)
         == Run(prog, Step(prog, i, mach, fu).next, Step(prog, i, mach, fu).machine, fu, fuel)
  {
  }

  /** On a semantic error execution stops at that statement, with the store as it was before it. */
  lemma StopOnError(prog: Program, i: nat, mach: Machine, fu: FloatUnit, fuel: nat)
    requires WellFormed(prog) && i < |prog| && Valid(mach.ram)
    requires Step(prog, i, mach, fu).Halt?
    ensures Run(prog, Some(i), mach, fu, fuel + 1) == Stopped(mach, i, Step(prog, i, mach, fu).error)
  {
  }

  /**
    `*p = rhs` with a single operand on the right evaluates it as a plain
    element: `*p = &x` stores the value of x, not its address.
   */
  lemma PointerAssignmentIgnoresUnaryOperator(target: string, kind: UnaryKind, e: Element, mach: Machine, fu: FloatUnit)
    requires Valid(mach.ram)
    ensures HandlePointerAssignment(target, ExprRhs(Single(UnaryExpr(kind, e))), mach, fu)
         == HandlePointerAssignment(target, ExprRhs(Single(UnaryExpr(Plain, e))), mach, fu)
  {
  }

  /** A failing right-hand side in either assignment form stops the statement before any write. */
  lemma FailedRhsWritesNothing(prog: Program, i: nat, mach: Machine, fu: FloatUnit, fuel: nat)
    requires WellFormed(prog) && i < |prog| && Valid(mach.ram) && prog[i].Assignment?
    requires var s := prog[i];
      if s.isPtrDeref then PointerRhs(s.rhs, mach.ram, mach.stdin, fu).Err?
      else ProcessRhs(s.rhs, mach.ram, mach.stdin, fu).Err?
    ensures Run(prog, Some(i), mach, fu, fuel + 1).Stopped?
    ensures Run(prog, Some(i), mach, fu, fuel + 1).machine == mach
  {
  }
}
