/** Infix to postfix over an operator stack (`shuntingYardRPN`). */
module ShuntingYard {
  import opened Wrappers
  import opened QuerySyntax

  /** Popping an empty stack panics. */
  datatype State = State(stack: seq<int>, output: seq<int>) | Panic

  function Top(stack: seq<int>): int
    requires stack != []
  {
    stack[|stack| - 1]
  }

  function Below(stack: seq<int>): (rest: seq<int>)
    requires stack != []
    ensures |rest| + 1 == |stack|
  {
    stack[..|stack| - 1]
  }

  /** Only strictly higher precedence is popped. */
  function PopHigher(stack: seq<int>, output: seq<int>, p: int): State
    decreases |stack|
  {
    if stack != [] && p < Precedence(Top(stack)) then PopHigher(Below(stack), output + [Top(stack)], p)
    else State(stack, output)
  }

  function PopToOpen(stack: seq<int>, output: seq<int>): State
    decreases |stack|
  {
    if stack == [] then Panic
    else if Top(stack) == OPEN then State(Below(stack), output)
    else PopToOpen(Below(stack), output + [Top(stack)])
  }

  function Step(s: State, token: int): State {
    if s.Panic? then Panic
    else if token == OPEN then State(s.stack + [OPEN], s.output)
    else if token == CLOSE then PopToOpen(s.stack, s.output)
    else if IsOperator(token) then
      var r := PopHigher(s.stack, s.output, Precedence(token));
      if r.Panic? then Panic else State(r.stack + [token], r.output)
    else State(s.stack, s.output + [token])
  }

  function Run(s: State, tokens: seq<int>): State
    decreases |tokens|
  {
    if tokens == [] then s else Run(Step(s, tokens[0]), tokens[1..])
  }

  function Reversed(s: seq<int>): seq<int> {
    if s == [] then [] else [Top(s)] + Reversed(Below(s))
  }

  /** The postfix list, or None for a panic. */
  function Rpn(tokens: seq<int>): Option<seq<int>> {
    var s := Run(State([], []), tokens);
    if s.Panic? then None else Some(s.output + Reversed(s.stack))
  }

  lemma {:induction false} RunBoth(s: State, a: seq<int>, b: seq<int>)
    ensures Run(s, a + b) == Run(Run(s, a), b)
    decreases |a|
  {
    if a == [] {
      assert a + b == b;
    } else {
      assert (a + b)[1..] == a[1..] + b;
      RunBoth(Step(s, a[0]), a[1..], b);
    }
  }

  lemma RunMore(s: State, tokens: seq<int>, i: nat)
    requires i < |tokens|
    ensures Run(s, tokens[..i + 1]) == Step(Run(s, tokens[..i]), tokens[i])
  {
    assert tokens[..i + 1] == tokens[..i] + [tokens[i]] && [tokens[i]][1..] == [];
    RunBoth(s, tokens[..i], [tokens[i]]);
  }

  lemma {:induction false} PanicStays(tokens: seq<int>)
    ensures Run(Panic, tokens) == Panic
  {
    if tokens != [] { PanicStays(tokens[1..]); }
  }

  method ShuntingYardRPN(tokens: seq<int>) returns (result: Option<seq<int>>)
    ensures result == Rpn(tokens)
  {
    var output, stack: seq<int> := [], [];
    ghost var start := State([], []);
    for i := 0 to |tokens|
      invariant Run(start, tokens[..i]) == State(stack, output)
    {
      var token := tokens[i];
      RunMore(start, tokens, i);
      if token == OPEN {
        stack := stack + [OPEN];
      } else if token == CLOSE {
        ghost var after := PopToOpen(stack, output);
        if stack == [] {
          PanicBefore(start, tokens, i + 1);
          return None;
        }
        var operator := stack[|stack| - 1];
        stack := stack[..|stack| - 1];
        while operator != OPEN
          invariant PopToOpen(stack + [operator], output) == after
          decreases |stack|
        {
          assert Below(stack + [operator]) == stack;
          output := output + [operator];
          if stack == [] {
            PanicBefore(start, tokens, i + 1);
            return None;
          }
          assert Below(stack) + [Top(stack)] == stack;
          operator := stack[|stack| - 1];
          stack := stack[..|stack| - 1];
        }
        assert Below(stack + [operator]) == stack;
      } else if IsOperator(token) {
        ghost var after := PopHigher(stack, output, Precedence(token));
        if |stack| != 0 {
          var operator := stack[|stack| - 1];
          while |stack| != 0 && Precedence(token) < Precedence(operator)
            invariant PopHigher(stack, output, Precedence(token)) == after && (stack != [] ==> operator == Top(stack))
            decreases |stack|
          {
            output := output + [operator];
            stack := stack[..|stack| - 1];
            if |stack| != 0 {
              operator := stack[|stack| - 1];
            }
          }
        }
        stack := stack + [token];
      } else {
        output := output + [token];
      }
    }
    assert tokens[..|tokens|] == tokens;
    ghost var all := output + Reversed(stack);
    while |stack| != 0
      invariant output + Reversed(stack) == all
      decreases |stack|
    {
      var token := stack[|stack| - 1];
      assert output + Reversed(stack) == (output + [token]) + Reversed(Below(stack));
      stack := stack[..|stack| - 1];
      output := output + [token];
    }
    assert output + [] == output;
    return Some(output);
  }

  lemma PanicBefore(s: State, tokens: seq<int>, i: nat)
    requires i <= |tokens| && Run(s, tokens[..i]) == Panic
    ensures Run(s, tokens) == Panic
  {
    assert tokens == tokens[..i] + tokens[i..];
    RunBoth(s, tokens[..i], tokens[i..]);
    PanicStays(tokens[i..]);
  }

  // ----- the output is the postorder of the tree -----

  /** What an expression leaves on the stack: the operators on its right edge. */
  function Pending(e: Expr): seq<int> {
    match e
    case Not(e1) => [NOT] + Pending(e1)
    case Binary(op, _, r) => [op] + Pending(r)
    case _ => []
  }

  /** What an expression has put out by then. */
  function Emitted(e: Expr): seq<int> {
    match e
    case Term(t) => [t]
    case Paren(e1) => Postorder(e1)
    case Not(e1) => Emitted(e1)
    case Binary(_, l, r) => Postorder(l) + Emitted(r)
  }

  lemma {:induction false} ReversedConcat(a: seq<int>, b: seq<int>)
    ensures Reversed(a + b) == Reversed(b) + Reversed(a)
  {
    if b == [] {
      assert a + b == a;
    } else {
      assert Below(a + b) == a + Below(b) && Top(a + b) == Top(b);
      ReversedConcat(a, Below(b));
    }
  }

  lemma {:induction false} EmittedThenPending(e: Expr)
    ensures Emitted(e) + Reversed(Pending(e)) == Postorder(e)
  {
    match e
    case Not(e1) =>
      EmittedThenPending(e1);
      ReversedConcat([NOT], Pending(e1));
      assert Below([NOT]) == [];
    case Binary(op, l, r) =>
      EmittedThenPending(r);
      ReversedConcat([op], Pending(r));
      assert Below([op]) == [];
    case _ =>
  }

  /** The operators on the right edge bind at least as strongly as the expression. */
  lemma {:induction false} PendingIsStrong(e: Expr)
    requires Canonical(e)
    ensures forall k :: 0 <= k < |Pending(e)| ==> Precedence(Pending(e)[k]) >= Level(e)
  {
    match e
    case Not(e1) => PendingIsStrong(e1);
    case Binary(_, _, r) => PendingIsStrong(r);
    case _ =>
  }

  ghost predicate Waits(stack: seq<int>, p: int) {
    stack == [] || Precedence(Top(stack)) <= p
  }

  /** Stronger operators above a weaker one are popped, and nothing else. */
  lemma {:induction false} PopsExactly(stack: seq<int>, strong: seq<int>, output: seq<int>, p: int)
    requires Waits(stack, p) && forall k :: 0 <= k < |strong| ==> p < Precedence(strong[k])
    ensures PopHigher(stack + strong, output, p) == State(stack, output + Reversed(strong))
    decreases |strong|
  {
    if strong == [] {
      assert stack + strong == stack && output + [] == output;
    } else {
      assert Below(stack + strong) == stack + Below(strong) && Top(stack + strong) == Top(strong);
      PopsExactly(stack, Below(strong), output + [Top(strong)], p);
      Regroup(output, [Top(strong)], Reversed(Below(strong)));
    }
  }

  lemma {:induction false} PopsToBracket(stack: seq<int>, strong: seq<int>, output: seq<int>)
    requires forall k :: 0 <= k < |strong| ==> strong[k] != OPEN
    ensures PopToOpen(stack + [OPEN] + strong, output) == State(stack, output + Reversed(strong))
    decreases |strong|
  {
    if strong == [] {
      assert stack + [OPEN] + strong == stack + [OPEN] && Below(stack + [OPEN]) == stack && output + [] == output;
    } else {
      assert Below(stack + [OPEN] + strong) == stack + [OPEN] + Below(strong) &&
        Top(stack + [OPEN] + strong) == Top(strong);
      PopsToBracket(stack, Below(strong), output + [Top(strong)]);
      Regroup(output, [Top(strong)], Reversed(Below(strong)));
    }
  }

  /** Running over an expression leaves the stack below it alone. */
  lemma {:induction false} RunsExpr(e: Expr, stack: seq<int>, output: seq<int>)
    requires Canonical(e) && Waits(stack, Level(e))
    ensures Run(State(stack, output), Tokens(e)) == State(stack + Pending(e), output + Emitted(e))
    decreases e, 1
  {
    match e
    case Term(t) =>
      assert Run(Step(State(stack, output), t), []) == Step(State(stack, output), t);
      assert stack + [] == stack && [t][1..] == [];
    case Not(e1) => RunsNot(e1, stack, output);
    case Paren(e1) => RunsParen(e1, stack, output);
    case Binary(op, l, r) => RunsBinary(op, l, r, stack, output);
  }

  lemma RunsNot(e1: Expr, stack: seq<int>, output: seq<int>)
    requires Canonical(Not(e1)) && Waits(stack, 3)
    ensures Run(State(stack, output), Tokens(Not(e1))) == State(stack + Pending(Not(e1)), output + Emitted(Not(e1)))
    decreases Not(e1), 0
  {
    assert Tokens(Not(e1))[1..] == Tokens(e1);
    Regroup(stack, [NOT], Pending(e1));
    RunsExpr(e1, stack + [NOT], output);
  }

  lemma RunsParen(e1: Expr, stack: seq<int>, output: seq<int>)
    requires Canonical(e1)
    ensures Run(State(stack, output), Tokens(Paren(e1))) == State(stack, output + Postorder(e1))
    decreases Paren(e1), 0
  {
    var inner := [OPEN] + Tokens(e1);
    assert inner[1..] == Tokens(e1) && Tokens(Paren(e1)) == inner + [CLOSE] && [CLOSE][1..] == [];
    RunsExpr(e1, stack + [OPEN], output);
    RunBoth(State(stack, output), inner, [CLOSE]);
    PendingIsStrong(e1);
    PopsToBracket(stack, Pending(e1), output + Emitted(e1));
    EmittedThenPending(e1);
    Regroup(output, Emitted(e1), Reversed(Pending(e1)));
  }

  lemma RunsBinary(op: int, l: Expr, r: Expr, stack: seq<int>, output: seq<int>)
    requires Canonical(Binary(op, l, r)) && Waits(stack, Precedence(op))
    ensures Run(State(stack, output), Tokens(Binary(op, l, r))) ==
            State(stack + Pending(Binary(op, l, r)), output + Emitted(Binary(op, l, r)))
    decreases Binary(op, l, r), 0
  {
    RunsLeft(op, l, stack, output);
    RunsExpr(r, stack + [op], output + Postorder(l));
    RunBoth(State(stack, output), Tokens(l) + [op], Tokens(r));
    Regroup(stack, [op], Pending(r));
    Regroup(output, Postorder(l), Emitted(r));
  }

  lemma Regroup(a: seq<int>, b: seq<int>, c: seq<int>)
    ensures a + b + c == a + (b + c)
  {
  }

  lemma RunsLeft(op: int, l: Expr, stack: seq<int>, output: seq<int>)
    requires (op == AND || op == OR) && Canonical(l) && Level(l) > Precedence(op) && Waits(stack, Precedence(op))
    ensures Run(State(stack, output), Tokens(l) + [op]) == State(stack + [op], output + Postorder(l))
    decreases l, 2
  {
    RunsExpr(l, stack, output);
    OperatorStep(op, l, stack, output);
    assert [op][1..] == [];
    RunBoth(State(stack, output), Tokens(l), [op]);
  }

  /** An operator puts out what is pending of its left operand. */
  lemma OperatorStep(op: int, l: Expr, stack: seq<int>, output: seq<int>)
    requires (op == AND || op == OR) && Canonical(l) && Level(l) > Precedence(op) && Waits(stack, Precedence(op))
    ensures Step(State(stack + Pending(l), output + Emitted(l)), op) == State(stack + [op], output + Postorder(l))
  {
    PendingIsStrong(l);
    PopsExactly(stack, Pending(l), output + Emitted(l), Precedence(op));
    EmittedThenPending(l);
    Regroup(output, Emitted(l), Reversed(Pending(l)));
  }

  /** For every well-formed token list the output is the postorder of its tree, and no empty stack
      is popped. */
  lemma PostfixIsPostorder(tokens: seq<int>)
    requires WellFormed(tokens)
    ensures Parse(tokens).Some? && Rpn(tokens) == Some(Postorder(Parse(tokens).value))
  {
    WellFormedIffParsed(tokens);
    var e := Parse(tokens).value;
    RunsExpr(e, [], []);
    EmittedThenPending(e);
    assert [] + Pending(e) == Pending(e) && [] + Emitted(e) == Emitted(e);
  }

  // ----- exactly when a token list makes it panic -----

  function Balance(tokens: seq<int>): int {
    if tokens == [] then 0 else
    Balance(Below(tokens)) + (if Top(tokens) == OPEN then 1 else if Top(tokens) == CLOSE then -1 else 0)
  }

  function Opens(stack: seq<int>): nat {
    if stack == [] then 0 else Opens(Below(stack)) + (if Top(stack) == OPEN then 1 else 0)
  }

  lemma {:induction false} HigherKeepsOpens(stack: seq<int>, output: seq<int>, p: int)
    requires p > 0
    ensures PopHigher(stack, output, p).State? && Opens(PopHigher(stack, output, p).stack) == Opens(stack)
    decreases |stack|
  {
    if stack != [] && p < Precedence(Top(stack)) { HigherKeepsOpens(Below(stack), output + [Top(stack)], p); }
  }

  lemma {:induction false} OpenPopsOne(stack: seq<int>, output: seq<int>)
    ensures PopToOpen(stack, output).Panic? <==> Opens(stack) == 0
    ensures PopToOpen(stack, output).State? ==> Opens(PopToOpen(stack, output).stack) == Opens(stack) - 1
    decreases |stack|
  {
    if stack != [] { OpenPopsOne(Below(stack), output + [Top(stack)]); }
  }

  /** Some prefix closes more brackets than it opens. */
  ghost predicate ClosesTooMuch(tokens: seq<int>) {
    exists k :: 0 <= k <= |tokens| && Balance(tokens[..k]) < 0
  }

  /** One token changes the brackets on the stack as it changes the balance, and panics where the
      balance would drop below zero. */
  lemma StepKeepsBalance(s: State, t: int, balance: nat)
    requires s.State? && Opens(s.stack) == balance
    ensures var next := Step(s, t); var b := balance + (if t == OPEN then 1 else if t == CLOSE then -1 else 0);
      if next.Panic? then b < 0 else b >= 0 && Opens(next.stack) == b
  {
    if t == OPEN {
      assert Below(s.stack + [OPEN]) == s.stack;
    } else if t == CLOSE {
      OpenPopsOne(s.stack, s.output);
    } else if IsOperator(t) {
      HigherKeepsOpens(s.stack, s.output, Precedence(t));
      var r := PopHigher(s.stack, s.output, Precedence(t));
      assert Below(r.stack + [t]) == r.stack;
    }
  }

  lemma BalanceMore(tokens: seq<int>, n: nat)
    requires n < |tokens|
    ensures Balance(tokens[..n + 1]) ==
      Balance(tokens[..n]) + (if tokens[n] == OPEN then 1 else if tokens[n] == CLOSE then -1 else 0)
  {
    assert Below(tokens[..n + 1]) == tokens[..n] && Top(tokens[..n + 1]) == tokens[n];
  }

  ghost predicate ClosesTooMuchBy(tokens: seq<int>, n: nat)
    requires n <= |tokens|
  {
    exists k :: 0 <= k <= n && Balance(tokens[..k]) < 0
  }

  lemma {:induction false} PanicsUpTo(tokens: seq<int>, n: nat)
    requires n <= |tokens|
    ensures Run(State([], []), tokens[..n]).Panic? <==> ClosesTooMuchBy(tokens, n)
    ensures var s := Run(State([], []), tokens[..n]); s.State? ==> Opens(s.stack) == Balance(tokens[..n])
  {
    if n > 0 {
      PanicsUpTo(tokens, n - 1);
      RunMore(State([], []), tokens, n - 1);
      BalanceMore(tokens, n - 1);
      var before := Run(State([], []), tokens[..n - 1]);
      if before.State? {
        StepKeepsBalance(before, tokens[n - 1], Opens(before.stack));
      }
    }
  }

  lemma PanicsIff(tokens: seq<int>)
    ensures Rpn(tokens) == None <==> ClosesTooMuch(tokens)
  {
    PanicsUpTo(tokens, |tokens|);
    assert tokens[..|tokens|] == tokens;
    assert ClosesTooMuchBy(tokens, |tokens|) <==> ClosesTooMuch(tokens);
  }
}
