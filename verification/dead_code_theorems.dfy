// Dropping `if (false)` changes nothing a program does.
module DeadCodeTheorems {
  import opened Prelude
  import opened DeadCode

  // The pass enters function bodies where it finds them, but not those inside
  // the statements it does not enter: either way a body becomes one of these.
  ghost predicate ListOf(ts: seq<Stmt>, ss: seq<Stmt>) { ts == ss || ts == ElimList(ss) }

  ghost predicate StmtOf(t: Stmt, s: Stmt) { t == s || t == ElimStmt(s) }

  // The same happened, and the same functions are declared.
  ghost predicate SameState(a: State, b: State) {
    && a.trace == b.trace
    && a.funcs.Keys == b.funcs.Keys
    && forall f :: f in a.funcs ==> ListOf(b.funcs[f], a.funcs[f])
  }

  ghost predicate SameOutcome(x: Outcome, y: Outcome) {
    match x
    case NoValue => y.NoValue?
    case Val(b, st) => y.Val? && y.truthy == b && SameState(st, y.state)
    case Threw(st) => y.Threw? && SameState(st, y.state)
  }

  ghost predicate SameResult(x: Result, y: Result) {
    match x
    case Timeout => y.Timeout?
    case Done(c, st) => y.Done? && y.completion == c && SameState(st, y.state)
  }

  lemma {:induction false} EvalSame(o: Oracle, expr: nat, a: State, b: State, n: nat)
    requires SameState(a, b)
    ensures SameOutcome(Eval(o, expr, a, n), Eval(o, expr, b, n))
    decreases n, 0
  {
    var answer := o(expr, a.trace);
    if answer.Call? && answer.name in a.funcs && n > 0 {
      var f, a1, b1 := answer.name, Log(a, At(expr)), Log(b, At(expr));
      ListSame(o, a.funcs[f], b.funcs[f], a1, b1, n - 1);
      var r, q := ExecList(o, a.funcs[f], a1, n - 1), ExecList(o, b.funcs[f], b1, n - 1);
      if r.Done? && !r.completion.Thrown? {
        EvalSame(o, expr, Log(r.state, Back(f)), Log(q.state, Back(f)), n - 1);
      }
    }
  }

  lemma {:induction false} TestSame(o: Oracle, test: Test, a: State, b: State, n: nat)
    requires SameState(a, b)
    ensures SameOutcome(EvalTest(o, test, a, n), EvalTest(o, test, b, n))
    decreases n, 1
  {
    if test.Computed? { EvalSame(o, test.expr, a, b, n); }
  }

  lemma {:induction false} PartSame(o: Oracle, part: Option<nat>, a: State, b: State, n: nat)
    requires SameState(a, b)
    ensures SameOutcome(EvalPart(o, part, a, n), EvalPart(o, part, b, n))
    decreases n, 1
  {
    if part.Some? { EvalSame(o, part.value, a, b, n); }
  }

  lemma DeadDoesNothing(o: Oracle, s: Stmt, st: State, n: nat)
    requires Dead(s)
    ensures Exec(o, s, st, n) == Done(Normal, st)
  {
  }

  lemma NestedOf(s: Stmt)
    ensures StmtOf(ElimNested(s), s)
  {
  }

  lemma {:induction false} ListSame(o: Oracle, ss: seq<Stmt>, ts: seq<Stmt>, a: State, b: State, n: nat)
    requires ListOf(ts, ss) && SameState(a, b)
    ensures SameResult(ExecList(o, ss, a, n), ExecList(o, ts, b, n))
    decreases n, 1 + SizeList(ss)
  {
    if ss != [] {
      if ts != ss && Dead(ss[0]) {
        DeadDoesNothing(o, ss[0], a, n);
        ListSame(o, ss[1..], ts, a, b, n);
      } else {
        StmtSame(o, ss[0], ts[0], a, b, n);
        var r, q := Exec(o, ss[0], a, n), Exec(o, ts[0], b, n);
        if r.Done? && r.completion.Normal? { ListSame(o, ss[1..], ts[1..], r.state, q.state, n); }
      }
    }
  }

  lemma {:induction false} StmtSame(o: Oracle, s: Stmt, t: Stmt, a: State, b: State, n: nat)
    requires StmtOf(t, s) && SameState(a, b)
    ensures SameResult(Exec(o, s, a, n), Exec(o, t, b, n))
    decreases n, 1 + Size(s)
  {
    match s
    case Expr(expr) => EvalSame(o, expr, a, b, n);
    case Jump(_) =>
    case Block(body) => ListSame(o, body, t.body, a, b, n);
    case If(test, consequent, alternate) =>
      NestedOf(consequent);
      if alternate.Some? { NestedOf(alternate.value); }
      TestSame(o, test, a, b, n);
      var v, w := EvalTest(o, test, a, n), EvalTest(o, test, b, n);
      if v.Val? { BranchSame(o, v.truthy, consequent, t.consequent, alternate, t.alternate, v.state, w.state, n); }
    case While(test, body) =>
      NestedOf(body);
      LoopSame(o, test, None, body, t.loopBody, a, b, n);
    case For(init, test, update, body) =>
      NestedOf(body);
      PartSame(o, init, a, b, n);
      var v, w := EvalPart(o, init, a, n), EvalPart(o, init, b, n);
      if v.Val? { LoopSame(o, test, update, body, t.loopBody, v.state, w.state, n); }
    case Function(_, _) =>
    case DoWhile(_, _) => DoWhileSame(o, s, a, b, n);
    case Try(_, _) => TrySame(o, s, a, b, n);
  }

  lemma {:induction false} BranchSame(o: Oracle, truthy: bool, c: Stmt, d: Stmt, x: Option<Stmt>, y: Option<Stmt>,
        a: State, b: State, n: nat)
    requires SameState(a, b) && StmtOf(d, c) && (x.Some? <==> y.Some?) && (x.Some? ==> StmtOf(y.value, x.value))
    ensures SameResult(Branch(o, truthy, c, x, a, n), Branch(o, truthy, d, y, b, n))
    decreases n, 2 + Size(c) + SizePart(x)
  {
    if truthy { StmtSame(o, c, d, a, b, n); } else if x.Some? { StmtSame(o, x.value, y.value, a, b, n); }
  }

  lemma {:induction false} DoWhileSame(o: Oracle, s: Stmt, a: State, b: State, n: nat)
    requires s.DoWhile? && SameState(a, b)
    ensures SameResult(Exec(o, s, a, n), Exec(o, s, b, n))
    decreases n, Size(s)
  {
    StmtSame(o, s.loopBody, s.loopBody, a, b, n);
    var r, q := Turn(Exec(o, s.loopBody, a, n)), Turn(Exec(o, s.loopBody, b, n));
    if r.Done? && r.completion.Normal? { LoopSame(o, s.test, None, s.loopBody, s.loopBody, r.state, q.state, n); }
  }

  lemma {:induction false} TrySame(o: Oracle, s: Stmt, a: State, b: State, n: nat)
    requires s.Try? && SameState(a, b)
    ensures SameResult(Exec(o, s, a, n), Exec(o, s, b, n))
    decreases n, Size(s)
  {
    ListSame(o, s.body, s.body, a, b, n);
    var r, q := ExecList(o, s.body, a, n), ExecList(o, s.body, b, n);
    if r.Done? && r.completion.Thrown? { ListSame(o, s.handler, s.handler, r.state, q.state, n); }
  }

  lemma {:induction false} LoopSame(o: Oracle, test: Test, update: Option<nat>, body: Stmt, other: Stmt, a: State,
        b: State, n: nat)
    requires StmtOf(other, body) && SameState(a, b)
    ensures SameResult(Loop(o, test, update, body, a, n), Loop(o, test, update, other, b, n))
    decreases n, 2 + Size(body)
  {
    TestSame(o, test, a, b, n);
    var v, w := EvalTest(o, test, a, n), EvalTest(o, test, b, n);
    if v.Val? && v.truthy {
      StmtSame(o, body, other, v.state, w.state, n);
      AfterBodySame(o, test, update, body, other, Turn(Exec(o, body, v.state, n)), Turn(Exec(o, other, w.state, n)), n);
    }
  }

  lemma {:induction false} AfterBodySame(o: Oracle, test: Test, update: Option<nat>, body: Stmt, other: Stmt, r: Result,
        q: Result, n: nat)
    requires StmtOf(other, body) && SameResult(r, q)
    ensures SameResult(AfterBody(o, test, update, body, r, n), AfterBody(o, test, update, other, q, n))
    decreases n, 2
  {
    if r.Done? && r.completion.Normal? {
      PartSame(o, update, r.state, q.state, n);
      AfterUpdateSame(o, test, update, body, other, EvalPart(o, update, r.state, n), EvalPart(o, update, q.state, n),
        n);
    }
  }

  lemma {:induction false} AfterUpdateSame(o: Oracle, test: Test, update: Option<nat>, body: Stmt, other: Stmt,
        v: Outcome, w: Outcome, n: nat)
    requires StmtOf(other, body) && SameOutcome(v, w)
    ensures SameResult(AfterUpdate(o, test, update, body, v, n), AfterUpdate(o, test, update, other, w, n))
    decreases n, 1
  {
    if v.Val? && n > 0 { LoopSame(o, test, update, body, other, v.state, w.state, n - 1); }
  }

  const NOTHING_YET := State([], map[])

  // For every meaning of the expressions, a program and what the pass makes of
  // it end together, in the same way, after the same events.
  lemma MeaningKept(o: Oracle, program: seq<Stmt>, n: nat)
    ensures var was, now := ExecList(o, program, NOTHING_YET, n), ExecList(o, ElimList(program), NOTHING_YET, n);
      && (was.Timeout? <==> now.Timeout?)
      && (was.Done? ==> now.completion == was.completion && now.state.trace == was.state.trace)
  {
    ListSame(o, program, ElimList(program), NOTHING_YET, NOTHING_YET, n);
  }

  // ---- What the pass leaves ------------------------------------------------

  // No `if (false)` without an else in any list that the pass visits.
  predicate CleanList(ss: seq<Stmt>) {
    ss == []
    || (!(ss[0].If? && ss[0].test == Literal(false) && ss[0].alternate == None) && CleanStmt(ss[0])
      && CleanList(ss[1..]))
  }

  predicate CleanNested(s: Stmt) { s.Block? ==> CleanList(s.body) }

  predicate CleanStmt(s: Stmt) {
    match s
    case Block(body) => CleanList(body)
    case If(_, c, a) => CleanNested(c) && (a.Some? ==> CleanNested(a.value))
    case While(_, body) => CleanNested(body)
    case For(_, _, _, body) => CleanNested(body)
    case Function(_, body) => CleanList(body)
    case _ => true
  }

  lemma {:induction false} ElimCleans(ss: seq<Stmt>)
    ensures CleanList(ElimList(ss))
  {
    if ss != [] {
      ElimCleans(ss[1..]);
      if !Dead(ss[0]) {
        ElimStmtCleans(ss[0]);
        assert ElimList(ss)[1..] == ElimList(ss[1..]);
      }
    }
  }

  lemma {:induction false} ElimNestedCleans(s: Stmt)
    ensures CleanNested(ElimNested(s))
  {
    if s.Block? { ElimCleans(s.body); }
  }

  lemma {:induction false} ElimStmtCleans(s: Stmt)
    ensures CleanStmt(ElimStmt(s)) && (Dead(ElimStmt(s)) ==> Dead(s))
  {
    match s
    case Block(body) => ElimCleans(body);
    case If(_, c, a) =>
      ElimNestedCleans(c);
      if a.Some? { ElimNestedCleans(a.value); }
    case While(_, body) => ElimNestedCleans(body);
    case For(_, _, _, body) => ElimNestedCleans(body);
    case Function(_, body) => ElimCleans(body);
    case _ =>
  }

  // The pass changes a list exactly when there is something to drop in it.
  lemma {:induction false} CleanUnchanged(ss: seq<Stmt>)
    requires CleanList(ss)
    ensures ElimList(ss) == ss
  {
    if ss != [] {
      CleanUnchanged(ss[1..]);
      CleanStmtUnchanged(ss[0]);
    }
  }

  lemma {:induction false} CleanNestedUnchanged(s: Stmt)
    requires CleanNested(s)
    ensures ElimNested(s) == s
  {
    if s.Block? { CleanUnchanged(s.body); }
  }

  lemma {:induction false} CleanStmtUnchanged(s: Stmt)
    requires CleanStmt(s)
    ensures ElimStmt(s) == s
  {
    match s
    case Block(body) => CleanUnchanged(body);
    case If(_, c, a) =>
      CleanNestedUnchanged(c);
      if a.Some? { CleanNestedUnchanged(a.value); }
    case While(_, body) => CleanNestedUnchanged(body);
    case For(_, _, _, body) => CleanNestedUnchanged(body);
    case Function(_, body) => CleanUnchanged(body);
    case _ =>
  }

  lemma UnchangedExact(ss: seq<Stmt>)
    ensures ElimList(ss) == ss <==> CleanList(ss)
  {
    ElimCleans(ss);
    if CleanList(ss) { CleanUnchanged(ss); }
  }

  lemma OnceIsEnough(ss: seq<Stmt>)
    ensures ElimList(ElimList(ss)) == ElimList(ss)
  {
    ElimCleans(ss);
    CleanUnchanged(ElimList(ss));
  }
}
