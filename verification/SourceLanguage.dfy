/** The statements and expressions lowered at run time, over variables held in registers,
    and what they mean. */
module SourceLanguage {
  import opened Instructions
  import opened Machine
  import opened AsmCommands

  /** Side-effect-free expressions with a run-time value, one constructor per lowering row. */
  datatype Expr =
    | Var(reg: nat)
    | AddVar(lhs: Expr, rhs: Expr)
    | AddConst(lhs: Expr, c: int)
    | SubVar(lhs: Expr, rhs: Expr)
    | SubConst(lhs: Expr, c: int)
    | ConstSub(c: int, rhs: Expr)
    | Neg(e: Expr)
    | Inv(e: Expr)
    | Not(e: Expr)
    | Choose(cond: Expr, thn: Operand, els: Operand)

  /** A value known when lowering, or one computed when running. */
  datatype Operand = Constant(c: int) | Runtime(e: Expr)

  datatype Case = Case(value: int, body: Stmt)

  datatype Stmt =
    | Block(stmts: seq<Stmt>)
    | Assign(x: nat, v: Operand)
    | PreStep(x: nat, delta: int)
    | PostStep(x: nat, delta: int)
    | Command(a: Assembler)
    | If(cond: Expr, body: Stmt)
    | IfElse(cond: Expr, thn: Stmt, els: Stmt)
    | While(test: Operand, body: Stmt)
    | For(init: Stmt, forTest: Option<Operand>, incr: Stmt, body: Stmt)
    | DoWhile(body: Stmt, test: Operand)
    | RepeatVar(count: Expr, body: Stmt)
    | RepeatConst(n: int, body: Stmt)
    | Switch(cond: Expr, cases: seq<Case>, otherwise: Option<Stmt>)

  // ----- Expressions -----

  function Eval(e: Expr, regs: Registers): Word {
    match e
    case Var(r) => Get(regs, r)
    case AddVar(l, r) => Wrap(Eval(l, regs) + Eval(r, regs))
    case AddConst(l, c) => Wrap(Eval(l, regs) + c)
    case SubVar(l, r) => Wrap(Eval(l, regs) - Eval(r, regs))
    case SubConst(l, c) => Wrap(Eval(l, regs) - c)
    case ConstSub(c, r) => Wrap(c - Eval(r, regs))
    case Neg(e) => Wrap(0 - Eval(e, regs))
    case Inv(e) => BitNot(Eval(e, regs))
    case Not(e) => if Eval(e, regs) == 0 then 1 else 0
    case Choose(c, a, b) => if Eval(c, regs) != 0 then EvalOperand(a, regs) else EvalOperand(b, regs)
  }

  function EvalOperand(v: Operand, regs: Registers): Word {
    match v
    case Constant(c) => Wrap(c)
    case Runtime(e) => Eval(e, regs)
  }

  /** Does the loop go on? A missing test always holds. */
  predicate Holds(test: Option<Operand>, regs: Registers) {
    match test
    case None => true
    case Some(Constant(c)) => c != 0
    case Some(Runtime(e)) => Eval(e, regs) != 0
  }

  predicate ExprBelow(e: Expr, base: nat) {
    match e
    case Var(r) => 0 < r < base
    case AddVar(l, r) => ExprBelow(l, base) && ExprBelow(r, base)
    case AddConst(l, _) => ExprBelow(l, base)
    case SubVar(l, r) => ExprBelow(l, base) && ExprBelow(r, base)
    case SubConst(l, _) => ExprBelow(l, base)
    case ConstSub(_, r) => ExprBelow(r, base)
    case Neg(e) => ExprBelow(e, base)
    case Inv(e) => ExprBelow(e, base)
    case Not(e) => ExprBelow(e, base)
    case Choose(c, a, b) => ExprBelow(c, base) && OperandBelow(a, base) && OperandBelow(b, base)
  }

  predicate OperandBelow(v: Operand, base: nat) {
    v.Runtime? ==> ExprBelow(v.e, base)
  }

  // ----- Statements -----

  /** What lowering takes from its surroundings: the device family, the unroll limit and the
      trigger constant a switch waits for. */
  datatype Context = Context(hirzel: bool, unrollLimit: int, waitTrigger: int)

  datatype Store = Store(regs: Registers, trace: seq<Event>)

  /** Either the statement ends, or the fuel ran out after the given commands. */
  datatype Outcome = Done(store: Store) | OutOfFuel(trace: seq<Event>)

  /** How often `repeat` runs its body for a count held in a register. */
  function Repetitions(count: Word): nat {
    if count <= 0x8000_0000 then count else 1
  }

  const SUSER_TRIGGER_LOAD := 0x1a

  /** Cycles a switch announces before branching. */
  function SwitchCycles(cases: seq<Case>, otherwise: Option<Stmt>): int {
    (|cases| + (if otherwise.Some? then 1 else 0) + 1) * (GetCycles(BRZ) + GetCycles(ADDI)) - 4
  }

  function AnnounceEvent(cases: seq<Case>, otherwise: Option<Stmt>): Event {
    Event(ST, [], [SUSER_TRIGGER_LOAD], Wrap(SwitchCycles(cases, otherwise)), 0)
  }

  function WaitEvent(ctx: Context): Event {
    Event(WTRIG, [], [], Wrap(ctx.waitTrigger), Wrap(ctx.waitTrigger))
  }

  /** The first case from i on whose constant equals v modulo 2^32, or |cases|. */
  function FirstMatch(cases: seq<Case>, i: nat, v: Word): (k: nat)
    requires i <= |cases|
    ensures i <= k <= |cases|
    ensures k < |cases| ==> Wrap(cases[k].value) == v
    ensures forall j :: i <= j < k ==> Wrap(cases[j].value) != v
    decreases |cases| - i
  {
    if i == |cases| || Wrap(cases[i].value) == v then i else FirstMatch(cases, i + 1, v)
  }

  /** What a statement does. Fuel bounds the iterations of each while, for and do loop, so a
      statement that loops for ever runs out of every fuel. */
  function Exec(s: Stmt, ctx: Context, st: Store, fuel: nat): Outcome
    decreases fuel, s, 1, 0
  {
    match s
    case Block(stmts) => ExecBlock(stmts, ctx, st, fuel)
    case Assign(x, v) => Done(st.(regs := Set(st.regs, R(x), EvalOperand(v, st.regs))))
    case PreStep(x, delta) => Done(st.(regs := Set(st.regs, R(x), Wrap(Get(st.regs, x) + delta))))
    case PostStep(x, delta) => Done(st.(regs := Set(st.regs, R(x), Wrap(Get(st.regs, x) + delta))))
    case Command(a) => Done(st.(trace := st.trace + Emitted(a, st.regs)))
    case If(c, body) => if Eval(c, st.regs) != 0 then Exec(body, ctx, st, fuel) else Done(st)
    case IfElse(c, a, b) => if Eval(c, st.regs) != 0 then Exec(a, ctx, st, fuel) else Exec(b, ctx, st, fuel)
    case While(_, _) => ExecLoop(s, ctx, st, fuel)
    case For(init, _, _, _) =>
      (match Exec(init, ctx, st, fuel)
       case OutOfFuel(trace) => OutOfFuel(trace)
       case Done(st') => ExecLoop(s, ctx, st', fuel))
    case DoWhile(_, _) => ExecDo(s, ctx, st, fuel)
    case RepeatVar(n, _) => ExecTimes(s, Repetitions(Eval(n, st.regs)), ctx, st, fuel)
    case RepeatConst(n, _) => ExecTimes(s, if n < 0 then 0 else n, ctx, st, fuel)
    case Switch(c, cases, otherwise) =>
      var i := FirstMatch(cases, 0, Eval(c, st.regs));
      var st' := st.(trace := st.trace + [AnnounceEvent(cases, otherwise)]);
      var st'' := st'.(trace := st'.trace + [WaitEvent(ctx)]);
      if i < |cases| then Exec(cases[i].body, ctx, st'', fuel)
      else if otherwise.Some? then Exec(otherwise.value, ctx, st'', fuel)
      else Done(st')
  }

  function ExecBlock(stmts: seq<Stmt>, ctx: Context, st: Store, fuel: nat): Outcome
    decreases fuel, stmts, 0, 0
  {
    if stmts == [] then Done(st)
    else match Exec(stmts[0], ctx, st, fuel)
      case OutOfFuel(trace) => OutOfFuel(trace)
      case Done(st') => ExecBlock(stmts[1..], ctx, st', fuel)
  }

  function LoopTest(s: Stmt): Option<Operand>
    requires s.While? || s.For?
  {
    if s.While? then Some(s.test) else s.forTest
  }

  /** One round: the body, and for a for loop its increment. */
  function ExecRound(s: Stmt, ctx: Context, st: Store, fuel: nat): Outcome
    requires s.While? || s.For?
    decreases fuel, s, 0, 0
  {
    match Exec(s.body, ctx, st, fuel)
    case OutOfFuel(trace) => OutOfFuel(trace)
    case Done(st') => if s.While? then Done(st') else Exec(s.incr, ctx, st', fuel)
  }

  /** The rounds of a while or for loop. */
  function ExecLoop(s: Stmt, ctx: Context, st: Store, fuel: nat): Outcome
    requires s.While? || s.For?
    decreases fuel, s, 0, 1
  {
    if fuel == 0 then OutOfFuel(st.trace)
    else if !Holds(LoopTest(s), st.regs) then Done(st)
    else match ExecRound(s, ctx, st, fuel)
      case OutOfFuel(trace) => OutOfFuel(trace)
      case Done(st') => ExecLoop(s, ctx, st', fuel - 1)
  }

  function ExecDo(s: Stmt, ctx: Context, st: Store, fuel: nat): Outcome
    requires s.DoWhile?
    decreases fuel, s, 0, 0
  {
    if fuel == 0 then OutOfFuel(st.trace)
    else match Exec(s.body, ctx, st, fuel)
      case OutOfFuel(trace) => OutOfFuel(trace)
      case Done(st') => if Holds(Some(s.test), st'.regs) then ExecDo(s, ctx, st', fuel - 1) else Done(st')
  }

  function ExecTimes(s: Stmt, n: nat, ctx: Context, st: Store, fuel: nat): Outcome
    requires s.RepeatVar? || s.RepeatConst?
    decreases fuel, s, 0, n
  {
    if n == 0 then Done(st)
    else match Exec(s.body, ctx, st, fuel)
      case OutOfFuel(trace) => OutOfFuel(trace)
      case Done(st') => ExecTimes(s, n - 1, ctx, st', fuel)
  }

  /** Statements the lowering accepts, over variables below base. */
  predicate Lowerable(s: Stmt, base: nat) {
    match s
    case Block(stmts) => forall i :: 0 <= i < |stmts| ==> Lowerable(stmts[i], base)
    case Assign(x, v) => 0 < x < base && OperandBelow(v, base)
    case PreStep(x, _) => 0 < x < base
    case PostStep(x, _) => 0 < x < base
    case Command(a) => IsIo(a.cmd) && forall r :: r in Mentions(a) ==> r < base
    case If(c, body) => ExprBelow(c, base) && Lowerable(body, base)
    case IfElse(c, a, b) => ExprBelow(c, base) && Lowerable(a, base) && Lowerable(b, base)
    case While(t, body) => OperandBelow(t, base) && Lowerable(body, base)
    case For(init, t, incr, body) =>
      Lowerable(init, base) && (t.Some? ==> OperandBelow(t.value, base)) && Lowerable(incr, base) && Lowerable(body, base)
    case DoWhile(body, t) => OperandBelow(t, base) && Lowerable(body, base)
    case RepeatVar(n, body) => ExprBelow(n, base) && Lowerable(body, base)
    case RepeatConst(n, body) => 0 <= n < 0x8000_0000 && Lowerable(body, base)
    case Switch(c, cases, otherwise) =>
      ExprBelow(c, base) && (cases != [] || otherwise.Some?) &&
      (forall i :: 0 <= i < |cases| ==> Lowerable(cases[i].body, base)) &&
      (otherwise.Some? ==> Lowerable(otherwise.value, base))
  }
}
