// Dropping `if (false)` statements (crates/bundler/src/tree_shaker.rs).
module DeadCode {
  import opened Prelude

  datatype Test = Literal(value: bool) | Computed(expr: nat)

  // Expressions are opaque: a number stands for one in the source text. Do-while
  // and try stand for the statements that the pass does not enter.
  datatype Stmt =
    | Expr(expr: nat)
    | Jump(completion: Completion)
    | Block(body: seq<Stmt>)
    | If(test: Test, consequent: Stmt, alternate: Option<Stmt>)
    | While(test: Test, loopBody: Stmt)
    | For(init: Option<nat>, test: Test, update: Option<nat>, loopBody: Stmt)
    | Function(name: string, body: seq<Stmt>)
    | DoWhile(loopBody: Stmt, test: Test)
    | Try(body: seq<Stmt>, handler: seq<Stmt>)

  datatype Completion = Normal | Break | Continue | Return | Thrown

  // ---- The pass ------------------------------------------------------------

  // An `if (false)` without an else.
  predicate Dead(s: Stmt) { s.If? && s.test == Literal(false) && s.alternate.None? }

  function ElimStmt(s: Stmt): Stmt {
    match s
    case Block(body) => Block(ElimList(body))
    case If(test, consequent, alternate) =>
      If(test, ElimNested(consequent), match alternate case Some(a) => Some(ElimNested(a)) case None => None)
    case While(test, body) => While(test, ElimNested(body))
    case For(init, test, update, body) => For(init, test, update, ElimNested(body))
    case Function(name, body) => Function(name, ElimList(body))
    case _ => s
  }

  // A statement that is a part of another is entered only if it is a block.
  function ElimNested(s: Stmt): Stmt { if s.Block? then Block(ElimList(s.body)) else s }

  function ElimList(ss: seq<Stmt>): seq<Stmt> {
    if ss == [] then []
    else if Dead(ss[0]) then ElimList(ss[1..])
    else [ElimStmt(ss[0])] + ElimList(ss[1..])
  }

  method Eliminate(stmts: seq<Stmt>) returns (out: seq<Stmt>)
    ensures out == ElimList(stmts)
    decreases stmts
  {
    out := [];
    for i := 0 to |stmts|
      invariant out == Retained(stmts[..i])
      invariant forall s :: s in out ==> s in stmts
    {
      assert stmts[..i + 1][..i] == stmts[..i];
      if !Dead(stmts[i]) { out := out + [stmts[i]]; }
    }
    assert stmts[..|stmts|] == stmts;
    RetainedThenEach(stmts);
    ghost var kept := out;
    for i := 0 to |out|
      invariant |out| == |kept|
      invariant forall k :: 0 <= k < i ==> out[k] == ElimStmt(kept[k])
      invariant forall k :: i <= k < |kept| ==> out[k] == kept[k]
    {
      assert kept[i] in stmts;
      var s := EliminateIn(out[i]);
      out := out[i := s];
    }
    EachElimAt(kept);
  }

  method EliminateIn(stmt: Stmt) returns (out: Stmt)
    ensures out == ElimStmt(stmt)
    decreases stmt
  {
    out := stmt;
    match stmt {
      case Block(body) =>
        var b := Eliminate(body);
        out := Block(b);
      case If(test, consequent, alternate) =>
        if consequent.Block? {
          var b := Eliminate(consequent.body);
          out := out.(consequent := Block(b));
        }
        if alternate.Some? && alternate.value.Block? {
          var b := Eliminate(alternate.value.body);
          out := out.(alternate := Some(Block(b)));
        }
      case For(init, test, update, body) =>
        if body.Block? {
          var b := Eliminate(body.body);
          out := For(init, test, update, Block(b));
        }
      case While(test, body) =>
        if body.Block? {
          var b := Eliminate(body.body);
          out := While(test, Block(b));
        }
      case Function(name, body) =>
        var b := Eliminate(body);
        out := Function(name, b);
      case _ =>
    }
  }

  // What retain leaves of a list.
  function Retained(ss: seq<Stmt>): seq<Stmt> {
    if ss == [] then []
    else Retained(ss[..|ss| - 1]) + if Dead(ss[|ss| - 1]) then [] else [ss[|ss| - 1]]
  }

  function EachElim(ss: seq<Stmt>): seq<Stmt> {
    if ss == [] then [] else [ElimStmt(ss[0])] + EachElim(ss[1..])
  }

  lemma {:induction false} EachElimAt(ss: seq<Stmt>)
    ensures |EachElim(ss)| == |ss| && forall k :: 0 <= k < |ss| ==> EachElim(ss)[k] == ElimStmt(ss[k])
  {
    if ss != [] { EachElimAt(ss[1..]); }
  }

  lemma {:induction false} RetainedFirst(ss: seq<Stmt>)
    requires ss != []
    ensures Retained(ss) == (if Dead(ss[0]) then [] else [ss[0]]) + Retained(ss[1..])
  {
    if |ss| > 1 {
      var before, after, last := ss[..|ss| - 1], ss[1..], ss[|ss| - 1];
      RetainedFirst(before);
      assert before[1..] == after[..|after| - 1] && before[0] == ss[0] && after[|after| - 1] == last;
      assert Retained(after) == Retained(before[1..]) + if Dead(last) then [] else [last];
    } else {
      assert ss[..0] == [] && ss[1..] == [];
    }
  }

  lemma {:induction false} RetainedThenEach(ss: seq<Stmt>)
    ensures EachElim(Retained(ss)) == ElimList(ss)
  {
    if ss != [] {
      RetainedFirst(ss);
      RetainedThenEach(ss[1..]);
      assert if Dead(ss[0]) then Retained(ss) == Retained(ss[1..]) else Retained(ss)[1..] == Retained(ss[1..]);
    }
  }

  // ---- What programs do ----------------------------------------------------

  // What evaluating an expression does next, from all that happened so far: it
  // gives a value, throws, or calls a function and then goes on.
  datatype Answer = Value(truthy: bool) | Raise | Call(name: string)

  datatype Event = At(expr: nat) | Back(name: string)

  type Oracle = (nat, seq<Event>) -> Answer

  // The events so far and the functions declared.
  datatype State = State(trace: seq<Event>, funcs: map<string, seq<Stmt>>)

  datatype Outcome = NoValue | Val(truthy: bool, state: State) | Threw(state: State)

  datatype Result = Timeout | Done(completion: Completion, state: State)

  function Log(st: State, e: Event): State { st.(trace := st.trace + [e]) }

  function Size(s: Stmt): nat {
    match s
    case Block(body) => 1 + SizeList(body)
    case If(_, c, a) => 2 + Size(c) + SizePart(a)
    case While(_, body) => 2 + Size(body)
    case For(_, _, _, body) => 2 + Size(body)
    case Function(_, body) => 1 + SizeList(body)
    case DoWhile(body, _) => 3 + Size(body)
    case Try(body, handler) => 2 + SizeList(body) + SizeList(handler)
    case _ => 1
  }

  function SizePart(s: Option<Stmt>): nat { match s case Some(t) => Size(t) case None => 0 }

  function SizeList(ss: seq<Stmt>): nat {
    if ss == [] then 0 else 1 + Size(ss[0]) + SizeList(ss[1..])
  }

  // n bounds the calls and the turns of a loop that may still begin, in depth;
  // nothing else uses it up.
  function Eval(o: Oracle, expr: nat, st: State, n: nat): Outcome
    decreases n, 0
  {
    var here := Log(st, At(expr));
    match o(expr, st.trace)
    case Value(b) => Val(b, here)
    case Raise => Threw(here)
    case Call(f) =>
      if f !in st.funcs then Threw(here)
      else if n == 0 then NoValue
      else match ExecList(o, st.funcs[f], here, n - 1)
        case Timeout => NoValue
        case Done(c, after) => if c.Thrown? then Threw(after) else Eval(o, expr, Log(after, Back(f)), n - 1)
  }

  function EvalTest(o: Oracle, test: Test, st: State, n: nat): Outcome
    decreases n, 1
  {
    if test.Literal? then Val(test.value, st) else Eval(o, test.expr, st, n)
  }

  // An expression that may be missing.
  function EvalPart(o: Oracle, part: Option<nat>, st: State, n: nat): Outcome
    decreases n, 1
  {
    if part.None? then Val(true, st) else Eval(o, part.value, st, n)
  }

  function Exec(o: Oracle, s: Stmt, st: State, n: nat): Result
    decreases n, 1 + Size(s)
  {
    match s
    case Expr(expr) => Then(Eval(o, expr, st, n))
    case Jump(c) => Done(c, st)
    case Block(body) => ExecList(o, body, st, n)
    case If(test, consequent, alternate) =>
      (match EvalTest(o, test, st, n)
      case Val(b, after) => Branch(o, b, consequent, alternate, after, n)
      case other => Then(other))
    case While(test, body) => Loop(o, test, None, body, st, n)
    case For(init, test, update, body) =>
      (match EvalPart(o, init, st, n)
      case Val(_, after) => Loop(o, test, update, body, after, n)
      case other => Then(other))
    case Function(name, body) => Done(Normal, st.(funcs := st.funcs[name := body]))
    case DoWhile(body, test) =>
      (match Turn(Exec(o, body, st, n))
      case Done(Normal, after) => Loop(o, test, None, body, after, n)
      case Done(Break, after) => Done(Normal, after)
      case other => other)
    case Try(body, handler) =>
      (match ExecList(o, body, st, n)
      case Done(Thrown, after) => ExecList(o, handler, after, n)
      case other => other)
  }

  function Branch(o: Oracle, b: bool, consequent: Stmt, alternate: Option<Stmt>, st: State, n: nat): Result
    decreases n, 2 + Size(consequent) + SizePart(alternate)
  {
    if b then Exec(o, consequent, st, n)
    else if alternate.Some? then Exec(o, alternate.value, st, n)
    else Done(Normal, st)
  }

  function ExecList(o: Oracle, ss: seq<Stmt>, st: State, n: nat): Result
    decreases n, 1 + SizeList(ss)
  {
    if ss == [] then Done(Normal, st)
    else match Exec(o, ss[0], st, n)
      case Done(Normal, after) => ExecList(o, ss[1..], after, n)
      case other => other
  }

  // An expression evaluated for its effects.
  function Then(v: Outcome): Result {
    match v
    case NoValue => Timeout
    case Val(_, after) => Done(Normal, after)
    case Threw(after) => Done(Thrown, after)
  }

  // A loop's body may end its turn early.
  function Turn(r: Result): Result {
    match r
    case Done(Continue, after) => Done(Normal, after)
    case other => other
  }

  function Loop(o: Oracle, test: Test, update: Option<nat>, body: Stmt, st: State, n: nat): Result
    decreases n, 2 + Size(body)
  {
    match EvalTest(o, test, st, n)
    case Val(b, now) =>
      if !b then Done(Normal, now)
      else AfterBody(o, test, update, body, Turn(Exec(o, body, now, n)), n)
    case other => Then(other)
  }

  function AfterBody(o: Oracle, test: Test, update: Option<nat>, body: Stmt, r: Result, n: nat): Result
    decreases n, 2
  {
    match r
    case Done(Break, after) => Done(Normal, after)
    case Done(Normal, after) => AfterUpdate(o, test, update, body, EvalPart(o, update, after, n), n)
    case other => other
  }

  function AfterUpdate(o: Oracle, test: Test, update: Option<nat>, body: Stmt, v: Outcome, n: nat): Result
    decreases n, 1
  {
    match v
    case Val(_, next) => if n == 0 then Timeout else Loop(o, test, update, body, next, n - 1)
    case other => Then(other)
  }
}
