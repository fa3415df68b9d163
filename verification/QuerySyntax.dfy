/** Boolean queries: token codes, expression trees, and the reference parser. */
module QuerySyntax {
  import opened Wrappers

  const AND := -1
  const OPEN := -2
  const CLOSE := -3
  const OR := -4
  const NOT := -5

  predicate IsOperator(token: int) {
    token == AND || token == OR || token == NOT
  }

  predicate IsTerm(token: int) {
    !(NOT <= token <= AND)
  }

  /** The table of `shuntingYardRPN`. */
  function Precedence(token: int): int {
    if token == AND then 2 else if token == OR then 1 else if token == NOT then 3 else 0
  }

  datatype Expr = Term(t: int) | Paren(e: Expr) | Not(e: Expr) | Binary(op: int, left: Expr, right: Expr)

  function Level(e: Expr): int {
    match e
    case Term(_) => 4
    case Paren(_) => 4
    case Not(_) => 3
    case Binary(op, _, _) => Precedence(op)
  }

  /** Brackets are where precedence asks for them, and operators of one kind group to the right. */
  predicate Canonical(e: Expr) {
    match e
    case Term(t) => IsTerm(t)
    case Paren(e1) => Canonical(e1)
    case Not(e1) => Canonical(e1) && Level(e1) >= 3
    case Binary(op, l, r) =>
      (op == AND || op == OR) && Canonical(l) && Canonical(r) && Level(l) > Precedence(op) && Level(r) >= Precedence(op)
  }

  function Tokens(e: Expr): seq<int> {
    match e
    case Term(t) => [t]
    case Paren(e1) => [OPEN] + Tokens(e1) + [CLOSE]
    case Not(e1) => [NOT] + Tokens(e1)
    case Binary(op, l, r) => Tokens(l) + [op] + Tokens(r)
  }

  function Postorder(e: Expr): seq<int> {
    match e
    case Term(t) => [t]
    case Paren(e1) => Postorder(e1)
    case Not(e1) => Postorder(e1) + [NOT]
    case Binary(op, l, r) => Postorder(l) + Postorder(r) + [op]
  }

  // ----- well-formed token lists -----

  /** Reads tokens from left to right: an operand or an operator is due, and `depth` brackets are open. */
  predicate Accepts(tokens: seq<int>, operandDue: bool, depth: nat) {
    if tokens == [] then !operandDue && depth == 0 else
    var (t, rest) := (tokens[0], tokens[1..]);
    if operandDue then
      if t == OPEN then Accepts(rest, true, depth + 1)
      else if t == NOT then Accepts(rest, true, depth)
      else IsTerm(t) && Accepts(rest, false, depth)
    else
      if t == CLOSE then depth > 0 && Accepts(rest, false, depth - 1)
      else (t == AND || t == OR) && Accepts(rest, true, depth)
  }

  predicate WellFormed(tokens: seq<int>) {
    Accepts(tokens, true, 0)
  }

  // ----- the reference parser: one function per level -----

  datatype Parsed = Fail | Done(e: Expr, rest: seq<int>)

  /** The longest expression at the front whose level is at least `level` (1 for OR, 2 for AND, 3 for NOT). */
  function ParseFrom(tokens: seq<int>, level: nat): (p: Parsed)
    requires 1 <= level <= 3
    ensures p.Done? ==> |p.rest| < |tokens|
    decreases |tokens|, 4 - level
  {
    if level == 3 then ParseOperand(tokens) else
    var left := ParseFrom(tokens, level + 1);
    var op := if level == 1 then OR else AND;
    if left.Done? && left.rest != [] && left.rest[0] == op then
      var right := ParseFrom(left.rest[1..], level);
      if right.Done? then Done(Binary(op, left.e, right.e), right.rest) else Fail
    else left
  }

  function ParseOperand(tokens: seq<int>): (p: Parsed)
    ensures p.Done? ==> |p.rest| < |tokens|
    decreases |tokens|, 0
  {
    if tokens == [] then Fail
    else if tokens[0] == NOT then
      var p := ParseOperand(tokens[1..]);
      if p.Done? then Done(Not(p.e), p.rest) else Fail
    else if tokens[0] == OPEN then
      var p := ParseFrom(tokens[1..], 1);
      if p.Done? && p.rest != [] && p.rest[0] == CLOSE then Done(Paren(p.e), p.rest[1..]) else Fail
    else if IsTerm(tokens[0]) then Done(Term(tokens[0]), tokens[1..])
    else Fail
  }

  /** The tree of a token list, when all tokens belong to it. */
  function Parse(tokens: seq<int>): Option<Expr> {
    var p := ParseFrom(tokens, 1);
    if p.Done? && p.rest == [] then Some(p.e) else None
  }

  // ----- the parser returns the one canonical tree -----

  lemma BinaryTokens(op: int, l: Expr, r: Expr, middle: seq<int>, rest: seq<int>)
    requires middle != [] && middle[0] == op && middle[1..] == Tokens(r) + rest
    ensures Tokens(l) + middle == Tokens(Binary(op, l, r)) + rest
  {
    assert middle == [op] + (Tokens(r) + rest);
  }

  lemma {:induction false} ParsedIsCanonical(tokens: seq<int>, level: nat)
    requires 1 <= level <= 3
    ensures var p := ParseFrom(tokens, level); p.Done? ==>
      Canonical(p.e) && Level(p.e) >= level && tokens == Tokens(p.e) + p.rest
    decreases |tokens|, 4 - level
  {
    if level == 3 {
      OperandIsCanonical(tokens);
    } else {
      ParsedIsCanonical(tokens, level + 1);
      var left := ParseFrom(tokens, level + 1);
      var op := if level == 1 then OR else AND;
      if left.Done? && left.rest != [] && left.rest[0] == op {
        var right := ParseFrom(left.rest[1..], level);
        ParsedIsCanonical(left.rest[1..], level);
        if right.Done? {
          BinaryTokens(op, left.e, right.e, left.rest, right.rest);
        }
      }
    }
  }

  lemma {:induction false} OperandIsCanonical(tokens: seq<int>)
    ensures var p := ParseOperand(tokens); p.Done? ==>
      Canonical(p.e) && Level(p.e) >= 3 && tokens == Tokens(p.e) + p.rest
    decreases |tokens|, 0
  {
    if tokens != [] && tokens[0] == NOT {
      OperandIsCanonical(tokens[1..]);
    } else if tokens != [] && tokens[0] == OPEN {
      ParsedIsCanonical(tokens[1..], 1);
    }
  }

  /** Nothing at the front of `rest` continues an expression of this level. */
  ghost predicate Stops(rest: seq<int>, level: int) {
    rest == [] || rest[0] == CLOSE || (IsOperator(rest[0]) && rest[0] != NOT && Precedence(rest[0]) < level)
  }

  lemma {:induction false} CanonicalIsParsed(e: Expr, rest: seq<int>, level: nat)
    requires Canonical(e) && 1 <= level <= 3 && level <= Level(e) && Stops(rest, level)
    ensures ParseFrom(Tokens(e) + rest, level) == Done(e, rest)
    decreases e, 4 - level
  {
    if level == 3 {
      OperandIsParsed(e, rest);
    } else if level < Level(e) {
      CanonicalIsParsed(e, rest, level + 1);
    } else {
      var (op, l, r) := (e.op, e.left, e.right);
      assert Tokens(e) + rest == Tokens(l) + ([op] + (Tokens(r) + rest));
      CanonicalIsParsed(l, [op] + (Tokens(r) + rest), level + 1);
      CanonicalIsParsed(r, rest, level);
      assert ([op] + (Tokens(r) + rest))[1..] == Tokens(r) + rest;
    }
  }

  lemma {:induction false} OperandIsParsed(e: Expr, rest: seq<int>)
    requires Canonical(e) && Level(e) >= 3
    ensures ParseOperand(Tokens(e) + rest) == Done(e, rest)
    decreases e, 0
  {
    match e
    case Term(t) =>
      assert (Tokens(e) + rest)[1..] == rest;
    case Not(e1) =>
      assert (Tokens(e) + rest)[1..] == Tokens(e1) + rest;
      OperandIsParsed(e1, rest);
    case Paren(e1) =>
      assert (Tokens(e) + rest)[1..] == Tokens(e1) + ([CLOSE] + rest);
      CanonicalIsParsed(e1, [CLOSE] + rest, 1);
      assert ([CLOSE] + rest)[1..] == rest;
  }

  // ----- exactly the well-formed lists have a tree -----

  lemma {:induction false} AcceptedParses(tokens: seq<int>, level: nat, depth: nat)
    requires 1 <= level <= 3 && Accepts(tokens, true, depth)
    ensures var p := ParseFrom(tokens, level); p.Done? && Accepts(p.rest, false, depth) && Stops(p.rest, level)
    decreases |tokens|, 4 - level
  {
    if level == 3 {
      AcceptedOperand(tokens, depth);
    } else {
      AcceptedParses(tokens, level + 1, depth);
      var left := ParseFrom(tokens, level + 1);
      var op := if level == 1 then OR else AND;
      if left.rest != [] && left.rest[0] == op {
        AcceptedParses(left.rest[1..], level, depth);
      }
    }
  }

  lemma {:induction false} AcceptedOperand(tokens: seq<int>, depth: nat)
    requires Accepts(tokens, true, depth)
    ensures var p := ParseOperand(tokens); p.Done? && Accepts(p.rest, false, depth) && Stops(p.rest, 3)
    decreases |tokens|, 0
  {
    if tokens[0] == NOT {
      AcceptedOperand(tokens[1..], depth);
    } else if tokens[0] == OPEN {
      AcceptedParses(tokens[1..], 1, depth + 1);
    }
  }

  lemma {:induction false} TokensAreAccepted(e: Expr, rest: seq<int>, depth: nat)
    requires Canonical(e)
    ensures Accepts(Tokens(e) + rest, true, depth) <==> Accepts(rest, false, depth)
  {
    match e
    case Term(t) =>
      assert (Tokens(e) + rest)[1..] == rest;
    case Not(e1) =>
      assert (Tokens(e) + rest)[1..] == Tokens(e1) + rest;
      TokensAreAccepted(e1, rest, depth);
    case Paren(e1) =>
      assert (Tokens(e) + rest)[1..] == Tokens(e1) + ([CLOSE] + rest);
      TokensAreAccepted(e1, [CLOSE] + rest, depth + 1);
      assert ([CLOSE] + rest)[1..] == rest;
    case Binary(op, l, r) =>
      var middle := [op] + (Tokens(r) + rest);
      assert Tokens(e) + rest == Tokens(l) + middle && middle[1..] == Tokens(r) + rest;
      TokensAreAccepted(l, middle, depth);
      TokensAreAccepted(r, rest, depth);
  }

  /** A token list is well-formed exactly when it has a tree, and it has no other canonical tree. */
  lemma WellFormedIffParsed(tokens: seq<int>)
    ensures WellFormed(tokens) <==> Parse(tokens).Some?
    ensures forall e :: Canonical(e) && Tokens(e) == tokens ==> Parse(tokens) == Some(e)
    ensures Parse(tokens).Some? ==> Canonical(Parse(tokens).value) && Tokens(Parse(tokens).value) == tokens
  {
    ParsedIsCanonical(tokens, 1);
    if WellFormed(tokens) {
      AcceptedParses(tokens, 1, 0);
    }
    if Parse(tokens).Some? {
      TokensAreAccepted(Parse(tokens).value, [], 0);
      assert Tokens(Parse(tokens).value) + [] == tokens;
    }
    forall e | Canonical(e) && Tokens(e) == tokens
      ensures Parse(tokens) == Some(e)
    {
      CanonicalIsParsed(e, [], 1);
      assert Tokens(e) + [] == tokens;
    }
  }

  // ----- precedence, without numbers -----

  /** NOT binds tighter than AND, and AND tighter than OR: an operand of NOT is no binary expression, no operand of
      AND is an OR, and the left operand of an operator is not of its own kind. */
  predicate Bracketed(e: Expr) {
    match e
    case Term(t) => IsTerm(t)
    case Paren(e1) => Bracketed(e1)
    case Not(e1) => Bracketed(e1) && !e1.Binary?
    case Binary(op, l, r) =>
      Bracketed(l) && Bracketed(r) &&
      if op == AND then !l.Binary? && !(r.Binary? && r.op == OR) else op == OR && !(l.Binary? && l.op == OR)
  }

  lemma {:induction false} CanonicalIsBracketed(e: Expr)
    ensures Canonical(e) <==> Bracketed(e)
  {
    match e
    case Term(t) =>
    case Paren(e1) => CanonicalIsBracketed(e1);
    case Not(e1) => CanonicalIsBracketed(e1);
    case Binary(op, l, r) =>
      CanonicalIsBracketed(l);
      CanonicalIsBracketed(r);
  }

  /** The trees of some lists: 7 OR 8 AND 9, 7 AND 8 OR 9, and NOT 7 AND 8 AND 9. */
  lemma SomeTrees()
    ensures Parse([7, -4, 8, -1, 9]) == Some(Binary(OR, Term(7), Binary(AND, Term(8), Term(9))))
    ensures Parse([7, -1, 8, -4, 9]) == Some(Binary(OR, Binary(AND, Term(7), Term(8)), Term(9)))
    ensures Parse([-5, 7, -1, 8, -1, 9]) == Some(Binary(AND, Not(Term(7)), Binary(AND, Term(8), Term(9))))
    ensures Parse([-2, 7, -4, 8, -3, -1, 9]) == Some(Binary(AND, Paren(Binary(OR, Term(7), Term(8))), Term(9)))
  {
    hide Parse;
    HasTree(Binary(OR, Term(7), Binary(AND, Term(8), Term(9))), [7, -4, 8, -1, 9]);
    HasTree(Binary(OR, Binary(AND, Term(7), Term(8)), Term(9)), [7, -1, 8, -4, 9]);
    HasTree(Binary(AND, Not(Term(7)), Binary(AND, Term(8), Term(9))), [-5, 7, -1, 8, -1, 9]);
    HasTree(Binary(AND, Paren(Binary(OR, Term(7), Term(8))), Term(9)), [-2, 7, -4, 8, -3, -1, 9]);
  }

  lemma HasTree(e: Expr, tokens: seq<int>)
    requires Canonical(e) && Tokens(e) == tokens
    ensures Parse(tokens) == Some(e)
  {
    WellFormedIffParsed(tokens);
  }
}
