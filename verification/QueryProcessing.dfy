/** Evaluation of postfix queries over posting lists (`processQuery`, `Deque`, `PostingListIntersection2`). */
module QueryProcessing {
  import opened Wrappers
  import opened Compress
  import opened Postings
  import opened InvertedIndexes
  import opened Indexer
  import opened FieldTexts
  import opened SpimiPipeline
  import opened QuerySyntax
  import opened ShuntingYard

  function Min(a: nat, b: nat): nat {
    if a < b then a else b
  }

  // ----- intersection of ascending lists -----

  function Intersection(a: seq<Int64>, b: seq<Int64>): seq<Int64>
    decreases |a| + |b|
  {
    if a == [] || b == [] then []
    else if a[0] < b[0] then Intersection(a[1..], b)
    else if b[0] < a[0] then Intersection(a, b[1..])
    else [a[0]] + Intersection(a[1..], b[1..])
  }

  method PostingListIntersection2(a: seq<Int64>, b: seq<Int64>) returns (result: seq<Int64>)
    ensures result == Intersection(a, b)
  {
    var idx1, idx2 := 0, 0;
    result := [];
    while idx1 < |a| && idx2 < |b|
      invariant 0 <= idx1 <= |a| && 0 <= idx2 <= |b|
      invariant result + Intersection(a[idx1..], b[idx2..]) == Intersection(a, b)
      decreases |a| - idx1 + |b| - idx2
    {
      assert a[idx1..][1..] == a[idx1 + 1..] && b[idx2..][1..] == b[idx2 + 1..];
      if a[idx1] < b[idx2] {
        idx1 := idx1 + 1;
      } else if b[idx2] < a[idx1] {
        idx2 := idx2 + 1;
      } else {
        result := result + [a[idx1]];
        idx1 := idx1 + 1;
        idx2 := idx2 + 1;
      }
    }
    assert result + [] == result;
  }

  lemma {:induction false} NoneBelowFirst(s: seq<Int64>, d: int)
    requires Ascending(s) && (s != [] ==> d < s[0])
    ensures Count(s, d) == 0
  {
    if s != [] { NoneBelowFirst(s[1..], d); }
  }

  /** Every document occurs the smaller number of times. */
  lemma {:induction false} IntersectionCount(a: seq<Int64>, b: seq<Int64>, d: int)
    requires Ascending(a) && Ascending(b)
    ensures Count(Intersection(a, b), d) == Min(Count(a, d), Count(b, d))
    decreases |a| + |b|
  {
    if a != [] && b != [] {
      if a[0] < b[0] {
        IntersectionCount(a[1..], b, d);
        if d == a[0] { NoneBelowFirst(b, d); }
      } else if b[0] < a[0] {
        IntersectionCount(a, b[1..], d);
        if d == b[0] { NoneBelowFirst(a, d); }
      } else {
        IntersectionCount(a[1..], b[1..], d);
      }
    }
  }

  lemma {:induction false} IntersectionAscends(a: seq<Int64>, b: seq<Int64>)
    requires Ascending(a) && Ascending(b)
    ensures Ascending(Intersection(a, b))
    ensures forall k :: 0 <= k < |Intersection(a, b)| ==>
      a != [] && b != [] && a[0] <= Intersection(a, b)[k] && b[0] <= Intersection(a, b)[k]
    decreases |a| + |b|
  {
    if a != [] && b != [] {
      if a[0] < b[0] {
        IntersectionAscends(a[1..], b);
      } else if b[0] < a[0] {
        IntersectionAscends(a, b[1..]);
      } else {
        IntersectionAscends(a[1..], b[1..]);
      }
    }
  }

  // ----- the evaluator -----

  class Deque {
    var items: seq<int>

    constructor (items: seq<int>)
      ensures this.items == items
    {
      this.items := items;
    }

    method GetSize() returns (n: nat)
      ensures n == |items|
    {
      n := |items|;
    }

    method PushFront(item: int)
      modifies this
      ensures items == [item] + old(items)
    {
      items := [item] + items;
    }

    method PushBack(item: int)
      modifies this
      ensures items == old(items) + [item]
    {
      items := items + [item];
    }

    method PopFront() returns (front: Option<int>)
      modifies this
      ensures if old(items) == [] then front == None && items == []
        else front.Some? && old(items) == [front.value] + items
    {
      if items == [] {
        return None;
      }
      front := Some(items[0]);
      items := items[1..];
    }

    method PopBack() returns (rear: Option<int>)
      modifies this
      ensures if old(items) == [] then rear == None && items == [] else rear.Some? && old(items) == items + [rear.value]
    {
      if items == [] {
        return None;
      }
      rear := Some(items[|items| - 1]);
      items := items[..|items| - 1];
    }
  }

  /** The stack of lists after one token, or None for a panic. OR and NOT do nothing. */
  function EvalStep(stack: seq<seq<Int64>>, token: int, lists: Lists): Option<seq<seq<Int64>>> {
    if !IsOperator(token) then Some(stack + [ListFor(lists, token)])
    else if token != AND then Some(stack)
    else if |stack| < 2 then None
    else Some(stack[..|stack| - 2] + [Intersection(stack[|stack| - 2], stack[|stack| - 1])])
  }

  function Eval(stack: seq<seq<Int64>>, rpn: seq<int>, lists: Lists): Option<seq<seq<Int64>>>
    decreases |rpn|
  {
    if rpn == [] then Some(stack) else
    var next := EvalStep(stack, rpn[0], lists);
    if next == None then None else Eval(next.value, rpn[1..], lists)
  }

  /** The last list on the stack. */
  function Result(stack: Option<seq<seq<Int64>>>): Option<seq<Int64>> {
    if stack.None? || stack.value == [] then None else Some(stack.value[|stack.value| - 1])
  }

  method ProcessQuery(index: InvertedIndex, rpnDeque: Deque) returns (docs: Option<seq<Int64>>)
    requires index.Valid()
    modifies rpnDeque
    ensures docs == Result(Eval([], old(rpnDeque.items), index.lists))
  {
    var stack: seq<seq<Int64>> := [];
    ghost var all := Eval([], rpnDeque.items, index.lists);
    while |rpnDeque.items| != 0
      invariant Eval(stack, rpnDeque.items, index.lists) == all
      decreases |rpnDeque.items|
    {
      ghost var before := rpnDeque.items;
      var front := rpnDeque.PopFront();
      var token: int := front.value;
      assert before[0] == token && before[1..] == rpnDeque.items;
      if !IsOperator(token) {
        var list := index.GetPostingList(token);
        stack := stack + [list.value];
      } else if token == AND {
        if |stack| < 2 {
          return None;
        }
        var both := PostingListIntersection2(stack[|stack| - 2], stack[|stack| - 1]);
        stack := stack[..|stack| - 2] + [both];
      }
    }
    if stack == [] {
      return None;
    }
    return Some(stack[|stack| - 1]);
  }

  // ----- what a query tree evaluates to -----

  /** The lists an expression leaves on the stack: one, unless OR left two behind. */
  function Values(e: Expr, lists: Lists): (v: seq<seq<Int64>>)
    ensures v != []
  {
    match e
    case Term(t) => [ListFor(lists, t)]
    case Paren(e1) => Values(e1, lists)
    case Not(e1) => Values(e1, lists)
    case Binary(op, l, r) =>
      var v := Values(l, lists) + Values(r, lists);
      if op == AND then v[..|v| - 2] + [Intersection(v[|v| - 2], v[|v| - 1])] else v
  }

  lemma {:induction false} EvalBoth(stack: seq<seq<Int64>>, a: seq<int>, b: seq<int>, lists: Lists)
    ensures var s := Eval(stack, a, lists);
      Eval(stack, a + b, lists) == if s.None? then None else Eval(s.value, b, lists)
    decreases |a|
  {
    if a == [] {
      assert a + b == b;
    } else {
      assert (a + b)[1..] == a[1..] + b;
      var next := EvalStep(stack, a[0], lists);
      if next.Some? { EvalBoth(next.value, a[1..], b, lists); }
    }
  }

  lemma EvalOne(stack: seq<seq<Int64>>, token: int, lists: Lists)
    ensures Eval(stack, [token], lists) == EvalStep(stack, token, lists)
  {
    assert [token][1..] == [];
  }

  /** The postorder of a well-formed query never panics. */
  lemma {:induction false} EvalsToValues(e: Expr, stack: seq<seq<Int64>>, lists: Lists)
    requires Canonical(e)
    ensures Eval(stack, Postorder(e), lists) == Some(stack + Values(e, lists))
  {
    match e
    case Term(t) => EvalOne(stack, t, lists);
    case Paren(e1) => EvalsToValues(e1, stack, lists);
    case Not(e1) =>
      EvalsToValues(e1, stack, lists);
      EvalBoth(stack, Postorder(e1), [NOT], lists);
      EvalOne(stack + Values(e1, lists), NOT, lists);
    case Binary(op, l, r) =>
      var v := Values(l, lists) + Values(r, lists);
      EvalsToValues(l, stack, lists);
      EvalsToValues(r, stack + Values(l, lists), lists);
      RegroupLists(stack, Values(l, lists), Values(r, lists));
      EvalBoth(stack, Postorder(l), Postorder(r), lists);
      EvalBoth(stack, Postorder(l) + Postorder(r), [op], lists);
      EvalOne(stack + v, op, lists);
      LastTwo(stack, v, lists);
  }

  lemma RegroupLists(a: seq<seq<Int64>>, b: seq<seq<Int64>>, c: seq<seq<Int64>>)
    ensures a + b + c == a + (b + c)
  {
  }

  lemma LastTwo(stack: seq<seq<Int64>>, v: seq<seq<Int64>>, lists: Lists)
    requires |v| >= 2
    ensures EvalStep(stack + v, AND, lists) == Some(stack + (v[..|v| - 2] + [Intersection(v[|v| - 2], v[|v| - 1])]))
  {
    assert (stack + v)[..|stack + v| - 2] == stack + v[..|v| - 2];
    RegroupLists(stack, v[..|v| - 2], [Intersection(v[|v| - 2], v[|v| - 1])]);
  }

  function Last<X>(s: seq<X>): X
    requires s != []
  {
    s[|s| - 1]
  }

  /** How often a document occurs in the lists that an expression leaves on the stack. */
  function Counts(e: Expr, lists: Lists, d: int): (v: seq<nat>)
    ensures v != []
  {
    match e
    case Term(t) => [Count(ListFor(lists, t), d)]
    case Paren(e1) => Counts(e1, lists, d)
    case Not(e1) => Counts(e1, lists, d)
    case Binary(op, l, r) =>
      var v := Counts(l, lists, d) + Counts(r, lists, d);
      if op == AND then v[..|v| - 2] + [Min(v[|v| - 2], v[|v| - 1])] else v
  }

  ghost predicate Counted(v: seq<seq<Int64>>, c: seq<nat>, d: int) {
    |v| == |c| && forall k :: 0 <= k < |v| ==> Ascending(v[k]) && Count(v[k], d) == c[k]
  }

  lemma TermIsCounted(t: int, lists: Lists, d: int)
    requires forall t: int :: Ascending(ListFor(lists, t))
    ensures Counted([ListFor(lists, t)], [Count(ListFor(lists, t), d)], d)
  {
  }

  lemma {:induction false} ValuesAreCounted(e: Expr, lists: Lists, d: int)
    requires forall t: int :: Ascending(ListFor(lists, t))
    ensures Counted(Values(e, lists), Counts(e, lists, d), d)
  {
    hide Counted, Intersection, Count, ListFor, Ascending, Min;
    match e
    case Term(t) => TermIsCounted(t, lists, d);
    case Paren(e1) => ValuesAreCounted(e1, lists, d);
    case Not(e1) => ValuesAreCounted(e1, lists, d);
    case Binary(op, l, r) =>
      ValuesAreCounted(l, lists, d);
      ValuesAreCounted(r, lists, d);
      BothCounted(Values(l, lists), Values(r, lists), Counts(l, lists, d), Counts(r, lists, d), d);
      if op == AND {
        LastTwoCounted(Values(l, lists) + Values(r, lists), Counts(l, lists, d) + Counts(r, lists, d), d);
      }
  }

  lemma BothCounted(v: seq<seq<Int64>>, w: seq<seq<Int64>>, b: seq<nat>, c: seq<nat>, d: int)
    requires Counted(v, b, d) && Counted(w, c, d)
    ensures Counted(v + w, b + c, d)
  {
  }

  lemma LastTwoCounted(v: seq<seq<Int64>>, c: seq<nat>, d: int)
    requires Counted(v, c, d) && |v| >= 2
    ensures Counted(v[..|v| - 2] + [Intersection(v[|v| - 2], v[|v| - 1])],
                    c[..|c| - 2] + [Min(c[|c| - 2], c[|c| - 1])], d)
  {
    IntersectionCount(v[|v| - 2], v[|v| - 1], d);
    IntersectionAscends(v[|v| - 2], v[|v| - 1]);
  }

  /** Terms, brackets and AND only. */
  predicate Conjunctive(e: Expr) {
    match e
    case Term(_) => true
    case Paren(e1) => Conjunctive(e1)
    case Not(_) => false
    case Binary(op, l, r) => op == AND && Conjunctive(l) && Conjunctive(r)
  }

  /** The least number of times a document occurs in the lists of the terms. */
  function LeastCount(e: Expr, lists: Lists, d: int): nat {
    match e
    case Term(t) => Count(ListFor(lists, t), d)
    case Paren(e1) => LeastCount(e1, lists, d)
    case Not(e1) => LeastCount(e1, lists, d)
    case Binary(_, l, r) => Min(LeastCount(l, lists, d), LeastCount(r, lists, d))
  }

  lemma {:induction false} ConjunctionCounts(e: Expr, lists: Lists, d: int)
    requires Conjunctive(e)
    ensures Counts(e, lists, d) == [LeastCount(e, lists, d)]
  {
    match e
    case Term(t) =>
    case Paren(e1) => ConjunctionCounts(e1, lists, d);
    case Binary(op, l, r) =>
      ConjunctionCounts(l, lists, d);
      ConjunctionCounts(r, lists, d);
  }

  /** From tokens to documents, for every well-formed query: the result is the ascending list with
      every document as often as the last of the query's counts says; for conjunctions that is the
      least number of times over the terms. */
  lemma QueryMeaning(tokens: seq<int>, lists: Lists)
    requires WellFormed(tokens) && forall t: int :: Ascending(ListFor(lists, t))
    ensures Parse(tokens).Some? && Rpn(tokens).Some? && Result(Eval([], Rpn(tokens).value, lists)).Some?
    ensures var docs := Result(Eval([], Rpn(tokens).value, lists)).value;
      Ascending(docs) && forall d: int :: Count(docs, d) == Last(Counts(Parse(tokens).value, lists, d))
    ensures Conjunctive(Parse(tokens).value) ==>
      forall d: int :: Last(Counts(Parse(tokens).value, lists, d)) == LeastCount(Parse(tokens).value, lists, d)
  {
    hide Counts, Values, Eval, Rpn, Parse, Tokens, Postorder, LeastCount, Accepts;
    PostfixIsPostorder(tokens);
    WellFormedIffParsed(tokens);
    var e := Parse(tokens).value;
    EvalsToValues(e, [], lists);
    var v := Values(e, lists);
    assert [] + v == v;
    ValuesAreCounted(e, lists, 0);
    forall d: int
      ensures Count(Last(v), d) == Last(Counts(e, lists, d))
      ensures Conjunctive(e) ==> Last(Counts(e, lists, d)) == LeastCount(e, lists, d)
    {
      ValuesAreCounted(e, lists, d);
      if Conjunctive(e) { ConjunctionCounts(e, lists, d); }
    }
  }

  // ----- the Boolean meaning, and when a query has it -----

  /** What the query asks of a document. */
  predicate Means(e: Expr, lists: Lists, d: int) {
    match e
    case Term(t) => Count(ListFor(lists, t), d) > 0
    case Paren(e1) => Means(e1, lists, d)
    case Not(e1) => !Means(e1, lists, d)
    case Binary(op, l, r) =>
      if op == AND then Means(l, lists, d) && Means(r, lists, d) else Means(l, lists, d) || Means(r, lists, d)
  }

  /** The document is in the result exactly if the query asks for it. */
  predicate Right(e: Expr, lists: Lists, d: int) {
    Last(Counts(e, lists, d)) > 0 <==> Means(e, lists, d)
  }

  /** A query without OR and NOT is always answered as it is meant. */
  lemma {:induction false} ConjunctionIsRight(e: Expr, lists: Lists, d: int)
    requires Conjunctive(e)
    ensures Right(e, lists, d)
  {
    ConjunctionCounts(e, lists, d);
    match e
    case Term(t) =>
    case Paren(e1) => ConjunctionIsRight(e1, lists, d);
    case Binary(op, l, r) =>
      ConjunctionIsRight(l, lists, d);
      ConjunctionIsRight(r, lists, d);
      ConjunctionCounts(l, lists, d);
      ConjunctionCounts(r, lists, d);
  }

  /** NOT changes nothing, so it answers rightly for a document exactly if its operand does not. */
  lemma NegationIsWrong(e: Expr, lists: Lists, d: int)
    ensures Values(Not(e), lists) == Values(e, lists)
    ensures Right(Not(e), lists, d) <==> !Right(e, lists, d)
  {
  }

  /** OR returns what its right operand returns. If that is right for a document, OR is right for it
      exactly if the left operand asks for the document only when the right one does. */
  lemma DisjunctionIsRightOperand(l: Expr, r: Expr, lists: Lists, d: int)
    ensures Last(Values(Binary(OR, l, r), lists)) == Last(Values(r, lists))
    ensures Right(r, lists, d) ==>
      (Right(Binary(OR, l, r), lists, d) <==> (Means(l, lists, d) ==> Means(r, lists, d)))
  {
    assert Last(Counts(Binary(OR, l, r), lists, d)) == Last(Counts(r, lists, d));
  }

  /** How many lists an expression leaves on the stack: one more than it has ORs. */
  function Width(e: Expr): (n: nat)
    ensures n >= 1
  {
    match e
    case Term(_) => 1
    case Paren(e1) => Width(e1)
    case Not(e1) => Width(e1)
    case Binary(op, l, r) => Width(l) + Width(r) - (if op == AND then 1 else 0)
  }

  lemma {:induction false} WidthOfValues(e: Expr, lists: Lists, d: int)
    ensures |Values(e, lists)| == |Counts(e, lists, d)| == Width(e)
  {
    match e
    case Term(t) =>
    case Paren(e1) => WidthOfValues(e1, lists, d);
    case Not(e1) => WidthOfValues(e1, lists, d);
    case Binary(op, l, r) =>
      WidthOfValues(l, lists, d);
      WidthOfValues(r, lists, d);
  }

  /** AND over an operand with an OR intersects the last two lists of that operand, and its left
      operand has no influence; over any other operand it intersects both operands' results. */
  lemma ConjunctionOfLastTwo(l: Expr, r: Expr, lists: Lists)
    ensures |Values(r, lists)| == Width(r)
    ensures var v := Values(r, lists);
      Last(Values(Binary(AND, l, r), lists)) ==
        if |v| >= 2 then Intersection(v[|v| - 2], v[|v| - 1]) else Intersection(Last(Values(l, lists)), Last(v))
  {
    WidthOfValues(r, lists, 0);
  }

  /** A term AND-ed with a bracketed OR of two terms: exactly the documents that have both of those
      terms are returned, so the answer is right for a document exactly if having both of them implies
      having the first, and having the first implies having both or neither. */
  lemma TermAndEither(a: int, b: int, c: int, lists: Lists, d: int)
    ensures var e := Binary(AND, Term(a), Paren(Binary(OR, Term(b), Term(c))));
      var (x, y, z) := (Means(Term(a), lists, d), Means(Term(b), lists, d), Means(Term(c), lists, d));
      Last(Values(e, lists)) == Intersection(ListFor(lists, b), ListFor(lists, c)) &&
      (Right(e, lists, d) <==> (y && z ==> x) && (x ==> (y <==> z)))
  {
    hide Count, Intersection, ListFor;
    var either := Binary(OR, Term(b), Term(c));
    var e := Binary(AND, Term(a), Paren(either));
    assert Values(either, lists) == [ListFor(lists, b), ListFor(lists, c)];
    ConjunctionOfLastTwo(Term(a), Paren(either), lists);
    var (i, j, k) := (Count(ListFor(lists, a), d), Count(ListFor(lists, b), d), Count(ListFor(lists, c), d));
    assert Counts(either, lists, d) == [j, k];
    assert Counts(e, lists, d) == [i, Min(j, k)];
    assert Means(either, lists, d) == (j > 0 || k > 0) && Means(Paren(either), lists, d) == Means(either, lists, d);
  }

  // ----- the terms that a query uses -----

  /** The terms whose lists are intersected to each list that an expression leaves on the stack. */
  function Used(e: Expr): (u: seq<set<int>>)
    ensures u != []
  {
    match e
    case Term(t) => [{t}]
    case Paren(e1) => Used(e1)
    case Not(e1) => Used(e1)
    case Binary(op, l, r) =>
      var u := Used(l) + Used(r);
      if op == AND then u[..|u| - 2] + [u[|u| - 2] + u[|u| - 1]] else u
  }

  /** `n` is the least number of times that the document occurs in the lists of the terms. */
  ghost predicate LeastIn(n: nat, terms: set<int>, lists: Lists, d: int) {
    (exists t :: t in terms && Count(ListFor(lists, t), d) == n) &&
    forall t :: t in terms ==> n <= Count(ListFor(lists, t), d)
  }

  ghost predicate AllLeast(c: seq<nat>, u: seq<set<int>>, lists: Lists, d: int) {
    |c| == |u| && forall k :: 0 <= k < |c| ==> LeastIn(c[k], u[k], lists, d)
  }

  lemma LeastInBoth(m: nat, n: nat, a: set<int>, b: set<int>, lists: Lists, d: int)
    requires LeastIn(m, a, lists, d) && LeastIn(n, b, lists, d)
    ensures LeastIn(Min(m, n), a + b, lists, d)
  {
    if m <= n {
      var t :| t in a && Count(ListFor(lists, t), d) == m;
      assert t in a + b;
    } else {
      var t :| t in b && Count(ListFor(lists, t), d) == n;
      assert t in a + b;
    }
  }

  /** Every list that an expression leaves counts a document the least number of times over its terms. */
  lemma {:induction false} CountsAreLeast(e: Expr, lists: Lists, d: int)
    ensures AllLeast(Counts(e, lists, d), Used(e), lists, d)
  {
    hide LeastIn;
    match e
    case Term(t) => TermIsLeast(t, lists, d);
    case Paren(e1) => CountsAreLeast(e1, lists, d);
    case Not(e1) => CountsAreLeast(e1, lists, d);
    case Binary(op, l, r) =>
      CountsAreLeast(l, lists, d);
      CountsAreLeast(r, lists, d);
      var (c, u) := (Counts(l, lists, d) + Counts(r, lists, d), Used(l) + Used(r));
      LeastInBoth(c[|c| - 2], c[|c| - 1], u[|u| - 2], u[|u| - 1], lists, d);
  }

  lemma TermIsLeast(t: int, lists: Lists, d: int)
    ensures LeastIn(Count(ListFor(lists, t), d), {t}, lists, d)
  {
  }

  /** The document has all the terms. */
  predicate HasAll(terms: set<int>, lists: Lists, d: int) {
    forall t :: t in terms ==> Count(ListFor(lists, t), d) > 0
  }

  /** From tokens to documents, for every well-formed query: whatever its operators are, it returns the
      conjunction of a set of its terms, each document the least number of times over that set. So it is
      answered rightly for a document if and only if having that set of terms is what the query means. */
  lemma AnsweredIff(tokens: seq<int>, lists: Lists, d: int)
    requires WellFormed(tokens) && forall t: int :: Ascending(ListFor(lists, t))
    ensures Parse(tokens).Some? && Rpn(tokens).Some? && Result(Eval([], Rpn(tokens).value, lists)).Some?
    ensures var e := Parse(tokens).value;
      var docs := Result(Eval([], Rpn(tokens).value, lists)).value;
      Ascending(docs) && LeastIn(Count(docs, d), Last(Used(e)), lists, d) &&
      ((Count(docs, d) > 0 <==> Means(e, lists, d)) <==> (HasAll(Last(Used(e)), lists, d) <==> Means(e, lists, d)))
  {
    hide Counts, Means, Eval, Rpn, Parse, Used;
    QueryMeaning(tokens, lists);
    CountsAreLeast(Parse(tokens).value, lists, d);
  }

  /** The Boolean meaning of a query for a document with these terms. */
  predicate Holds(e: Expr, has: set<int>) {
    match e
    case Term(t) => t in has
    case Paren(e1) => Holds(e1, has)
    case Not(e1) => !Holds(e1, has)
    case Binary(op, l, r) => if op == AND then Holds(l, has) && Holds(r, has) else Holds(l, has) || Holds(r, has)
  }

  function TermsOf(e: Expr): set<int> {
    match e
    case Term(t) => {t}
    case Paren(e1) => TermsOf(e1)
    case Not(e1) => TermsOf(e1)
    case Binary(_, l, r) => TermsOf(l) + TermsOf(r)
  }

  lemma {:induction false} MeaningOfTerms(e: Expr, lists: Lists, d: int, has: set<int>)
    requires forall t :: t in TermsOf(e) ==> (t in has <==> Count(ListFor(lists, t), d) > 0)
    ensures Holds(e, has) <==> Means(e, lists, d)
  {
    match e
    case Term(t) =>
    case Paren(e1) => MeaningOfTerms(e1, lists, d, has);
    case Not(e1) => MeaningOfTerms(e1, lists, d, has);
    case Binary(_, l, r) =>
      MeaningOfTerms(l, lists, d, has);
      MeaningOfTerms(r, lists, d, has);
  }

  lemma {:induction false} UsedAreTerms(e: Expr)
    ensures forall k :: 0 <= k < |Used(e)| ==> Used(e)[k] <= TermsOf(e)
  {
    match e
    case Term(t) =>
    case Paren(e1) => UsedAreTerms(e1);
    case Not(e1) => UsedAreTerms(e1);
    case Binary(_, l, r) =>
      UsedAreTerms(l);
      UsedAreTerms(r);
  }

  /** The index of one document with these terms. */
  function OneDocument(has: set<int>, d: Int64): Lists {
    map t | t in has :: [d]
  }

  lemma OneDocumentHas(has: set<int>, d: Int64)
    ensures forall t: int :: Count(ListFor(OneDocument(has, d), t), d) == if t in has then 1 else 0
  {
    assert [d][1..] == [];
  }

  /** For every set of its terms, a query holds if and only if the set has the terms that it uses. */
  ghost predicate MeansConjunction(e: Expr) {
    forall has: set<int> :: has <= TermsOf(e) ==> (Last(Used(e)) <= has <==> Holds(e, has))
  }

  /** A query is answered rightly on every index if and only if it means the conjunction of the terms it
      uses, which a truth table over its terms decides. */
  lemma AlwaysRightIff(e: Expr)
    ensures (forall lists: Lists, d: Int64 :: Right(e, lists, d)) <==> MeansConjunction(e)
  {
    hide Counts, Means, Used, Holds, TermsOf;
    UsedAreTerms(e);
    if MeansConjunction(e) {
      forall lists: Lists, d: Int64
        ensures Right(e, lists, d)
      {
        var has := set t | t in TermsOf(e) && Count(ListFor(lists, t), d) > 0;
        RightOfTerms(e, lists, d, has);
      }
    }
    if forall lists: Lists, d: Int64 :: Right(e, lists, d) {
      forall has: set<int> | has <= TermsOf(e)
        ensures Last(Used(e)) <= has <==> Holds(e, has)
      {
        OneDocumentHas(has, 0);
        RightOfTerms(e, OneDocument(has, 0), 0, has);
        assert Right(e, OneDocument(has, 0), 0);
      }
    }
  }

  lemma RightOfTerms(e: Expr, lists: Lists, d: int, has: set<int>)
    requires has <= TermsOf(e)
    requires forall t :: t in TermsOf(e) ==> (t in has <==> Count(ListFor(lists, t), d) > 0)
    ensures Right(e, lists, d) <==> (Last(Used(e)) <= has <==> Holds(e, has))
  {
    UsedAreTerms(e);
    CountsAreLeast(e, lists, d);
    MeaningOfTerms(e, lists, d, has);
    var (n, used) := (Last(Counts(e, lists, d)), Last(Used(e)));
    assert LeastIn(n, used, lists, d) && used <= TermsOf(e);
    assert n > 0 <==> HasAll(used, lists, d);
    if HasAll(used, lists, d) {
      forall t | t in used
        ensures t in has
      {
        assert t in TermsOf(e);
      }
    }
  }

  // ----- the token list that `Autocomplete` builds -----

  function AndTokens(terms: seq<int>): seq<int> {
    if |terms| <= 1 then terms else [terms[0], AND] + AndTokens(terms[1..])
  }

  function Comb(terms: seq<int>): Expr
    requires terms != []
  {
    if |terms| == 1 then Term(terms[0]) else Binary(AND, Term(terms[0]), Comb(terms[1..]))
  }

  /** The least number of times a document occurs in the lists of the terms. */
  function LeastOf(terms: seq<int>, lists: Lists, d: int): nat
    requires terms != []
  {
    var first := Count(ListFor(lists, terms[0]), d);
    if |terms| == 1 then first else Min(first, LeastOf(terms[1..], lists, d))
  }

  lemma {:induction false} CombIsParsed(terms: seq<int>)
    requires terms != [] && forall k :: 0 <= k < |terms| ==> IsTerm(terms[k])
    ensures Canonical(Comb(terms)) && Conjunctive(Comb(terms)) && Tokens(Comb(terms)) == AndTokens(terms)
    ensures Level(Comb(terms)) >= 2
  {
    if |terms| > 1 {
      CombIsParsed(terms[1..]);
      assert AndTokens(terms) == [terms[0]] + [AND] + AndTokens(terms[1..]);
    }
  }

  lemma {:induction false} LeastOfComb(terms: seq<int>, lists: Lists, d: int)
    requires terms != []
    ensures LeastCount(Comb(terms), lists, d) == LeastOf(terms, lists, d)
  {
    if |terms| > 1 { LeastOfComb(terms[1..], lists, d); }
  }

  method BuildTokens(queryTerms: seq<int>) returns (tokens: seq<int>)
    ensures tokens == AndTokens(queryTerms)
  {
    tokens := [];
    for j := 0 to |queryTerms|
      invariant tokens + AndTokens(queryTerms[j..]) == AndTokens(queryTerms)
    {
      assert queryTerms[j..][1..] == queryTerms[j + 1..];
      ghost var rest := AndTokens(queryTerms[j + 1..]);
      tokens := tokens + [queryTerms[j]];
      if j != |queryTerms| - 1 {
        tokens := tokens + [AND];
      }
    }
    assert tokens + [] == tokens;
  }

  /** The candidate documents of a query: each as often as in the term where it occurs least. */
  method AndQuery(index: InvertedIndex, queryTerms: seq<int>) returns (docs: Option<seq<Int64>>)
    requires index.Valid() && (forall t: int :: Ascending(ListFor(index.lists, t)))
    requires queryTerms != [] && forall k :: 0 <= k < |queryTerms| ==> 0 <= queryTerms[k]
    ensures docs.Some? && Ascending(docs.value)
    ensures forall d: int :: Count(docs.value, d) == LeastOf(queryTerms, index.lists, d)
  {
    var tokens := BuildTokens(queryTerms);
    CombIsParsed(queryTerms);
    WellFormedIffParsed(tokens);
    QueryMeaning(tokens, index.lists);
    var rpn := ShuntingYardRPN(tokens);
    var rpnDeque := new Deque(rpn.value);
    docs := ProcessQuery(index, rpnDeque);
    forall d: int
      ensures Count(docs.value, d) == LeastOf(queryTerms, index.lists, d)
    {
      ConjunctionCounts(Comb(queryTerms), index.lists, d);
      LeastOfComb(queryTerms, index.lists, d);
    }
  }

  // ----- documents to query results -----

  /** The least number of times the terms occur in the field of the document, but for what a flush lost. */
  function LeastFound(terms: seq<int>, chunks: seq<Chunk>, nodes: seq<Node>, field: string, tokenize: Tokenizer,
                      d: int): int
    requires terms != []
  {
    var first := TermCount(nodes, field, tokenize, terms[0], d) - LostAll(chunks, terms[0], d);
    if |terms| == 1 then first else
    var rest := LeastFound(terms[1..], chunks, nodes, field, tokenize, d);
    if first < rest then first else rest
  }

  /** The least number of times the terms occur in the field of the document. */
  function LeastTermCount(terms: seq<int>, nodes: seq<Node>, field: string, tokenize: Tokenizer, d: int): int
    requires terms != []
  {
    LeastFound(terms, [], nodes, field, tokenize, d)
  }

  lemma {:induction false} LeastOfFound(terms: seq<int>, lists: Lists, chunks: seq<Chunk>, nodes: seq<Node>,
                                        field: string, tokenize: Tokenizer, d: int)
    requires terms != [] && Finds(lists, chunks, nodes, field, tokenize)
    ensures LeastOf(terms, lists, d) == LeastFound(terms, chunks, nodes, field, tokenize, d)
  {
    var t: int := terms[0];
    assert Count(ListFor(lists, t), d) + LostAll(chunks, t, d) == TermCount(nodes, field, tokenize, t, d);
    if |terms| > 1 { LeastOfFound(terms[1..], lists, chunks, nodes, field, tokenize, d); }
  }

  lemma {:induction false} LeastWhenNoneLost(terms: seq<int>, chunks: seq<Chunk>, nodes: seq<Node>, field: string,
                                             tokenize: Tokenizer, d: int)
    requires terms != [] && NothingLost(chunks)
    ensures LeastFound(terms, chunks, nodes, field, tokenize, d) == LeastTermCount(terms, nodes, field, tokenize, d)
  {
    NoneLost(chunks, terms[0], d);
    if |terms| > 1 { LeastWhenNoneLost(terms[1..], chunks, nodes, field, tokenize, d); }
  }

  /** The least number of times that one of the terms occurs in the text. */
  function LeastInText(terms: seq<int>, text: string, tokenize: Tokenizer): (least: int)
    requires terms != []
    ensures exists k :: 0 <= k < |terms| && least == TextCount(text, tokenize, terms[k])
    ensures forall k :: 0 <= k < |terms| ==> least <= TextCount(text, tokenize, terms[k])
  {
    var first := TextCount(text, tokenize, terms[0]);
    if |terms| == 1 then first else
    var rest := LeastInText(terms[1..], text, tokenize);
    assert forall k :: 0 < k < |terms| ==> terms[k] == terms[1..][k - 1];
    if first < rest then first else rest
  }

  function LeastTimes(terms: seq<int>, tokenize: Tokenizer): string -> int
    requires terms != []
  {
    text => LeastInText(terms, text, tokenize)
  }

  /** The documents found are those with all the terms in their own text. */
  ghost predicate DocsOnFields(docs: seq<Int64>, terms: seq<int>, nodes: seq<Node>, field: string,
                               tokenize: Tokenizer)
    requires terms != []
  {
    OnFields(d => Count(docs, d), LeastTimes(terms, tokenize), nodes, field)
  }

  lemma {:induction false} LeastOfOne(terms: seq<int>, nodes: seq<Node>, field: string, tokenize: Tokenizer,
                                      text: string, d: int)
    requires terms != []
    requires forall t: int :: TermCount(nodes, field, tokenize, t, d) == TextCount(text, tokenize, t)
    ensures LeastTermCount(terms, nodes, field, tokenize, d) == LeastInText(terms, text, tokenize)
  {
    hide TermCount, TextCount;
    assert TermCount(nodes, field, tokenize, terms[0], d) == TextCount(text, tokenize, terms[0]);
    if |terms| > 1 { LeastOfOne(terms[1..], nodes, field, tokenize, text, d); }
  }

  lemma {:induction false} LeastOfNone(terms: seq<int>, nodes: seq<Node>, field: string, tokenize: Tokenizer, d: int)
    requires terms != []
    requires forall t: int :: TermCount(nodes, field, tokenize, t, d) == 0
    ensures LeastTermCount(terms, nodes, field, tokenize, d) == 0
  {
    hide TermCount;
    assert TermCount(nodes, field, tokenize, terms[0], d) == 0;
    if |terms| > 1 { LeastOfNone(terms[1..], nodes, field, tokenize, d); }
  }

  lemma LeastOnFields(docs: seq<Int64>, terms: seq<int>, nodes: seq<Node>, field: string, tokenize: Tokenizer)
    requires terms != [] && DistinctIds(nodes)
    requires forall d: int :: Count(docs, d) == LeastTermCount(terms, nodes, field, tokenize, d)
    ensures DocsOnFields(docs, terms, nodes, field, tokenize)
  {
    hide LeastTermCount, LeastInText, TermCount;
    forall t: int, i | 0 <= i < |nodes|
      ensures field == "name" ==>
        TermCount(nodes, field, tokenize, t, nodes[i].id) == TextCount(nodes[i].name, tokenize, t)
      ensures field == "address" ==>
        TermCount(nodes, field, tokenize, t, nodes[i].id) == TextCount(nodes[i].address, tokenize, t)
    {
      TermCountOnFields(nodes, field, tokenize, t);
    }
    forall t: int, d: int | (field != "name" && field != "address") || !HasId(nodes, d)
      ensures TermCount(nodes, field, tokenize, t, d) == 0
    {
      AbsentTerm(nodes, field, tokenize, t, d);
    }
    forall i | 0 <= i < |nodes|
      ensures field == "name" ==> Count(docs, nodes[i].id) == LeastInText(terms, nodes[i].name, tokenize)
      ensures field == "address" ==> Count(docs, nodes[i].id) == LeastInText(terms, nodes[i].address, tokenize)
    {
      if field == "name" {
        LeastOfOne(terms, nodes, field, tokenize, nodes[i].name, nodes[i].id);
      } else if field == "address" {
        LeastOfOne(terms, nodes, field, tokenize, nodes[i].address, nodes[i].id);
      }
    }
    forall d: int | (field != "name" && field != "address") || !HasId(nodes, d)
      ensures Count(docs, d) == 0
    {
      LeastOfNone(terms, nodes, field, tokenize, d);
    }
  }

  /** An AND query on the index built from batches of documents: exactly the naive counts if no flush lost
      a list. */
  method SearchDocuments(idx: DynamicIndex, batches: seq<seq<Node>>, field: string, queryTerms: seq<int>)
    returns (docs: Option<seq<Int64>>)
    requires queryTerms != [] && forall k :: 0 <= k < |queryTerms| ==> 0 <= queryTerms[k]
    modifies idx`docWordCount
    ensures docs.Some? && Ascending(docs.value)
    ensures var chunks := ChunksOf(batches, field, idx.tokenize, FlushSize(idx.maxDynamicPostingListSize));
      (forall d: int ::
        Count(docs.value, d) == LeastFound(queryTerms, chunks, Flatten(batches), field, idx.tokenize, d)) &&
      (NothingLost(chunks) ==>
        forall d: int ::
          Count(docs.value, d) == LeastTermCount(queryTerms, Flatten(batches), field, idx.tokenize, d)) &&
      (NothingLost(chunks) && DistinctIds(Flatten(batches)) ==>
        DocsOnFields(docs.value, queryTerms, Flatten(batches), field, idx.tokenize))
  {
    hide LeastFound, LeastTermCount, ChunksOf, Flatten, DocsOnFields, FoundOnFields, NothingLost;
    var merged := IndexBatches(idx, batches, field);
    ghost var chunks := ChunksOf(batches, field, idx.tokenize, FlushSize(idx.maxDynamicPostingListSize));
    docs := AndQuery(merged, queryTerms);
    forall d: int
      ensures Count(docs.value, d) == LeastFound(queryTerms, chunks, Flatten(batches), field, idx.tokenize, d)
      ensures NothingLost(chunks) ==>
        Count(docs.value, d) == LeastTermCount(queryTerms, Flatten(batches), field, idx.tokenize, d)
    {
      LeastOfFound(queryTerms, merged.lists, chunks, Flatten(batches), field, idx.tokenize, d);
      if NothingLost(chunks) { LeastWhenNoneLost(queryTerms, chunks, Flatten(batches), field, idx.tokenize, d); }
    }
    if NothingLost(chunks) && DistinctIds(Flatten(batches)) {
      LeastOnFields(docs.value, queryTerms, Flatten(batches), field, idx.tokenize);
    }
  }
}
