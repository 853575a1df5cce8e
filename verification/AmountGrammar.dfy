/** What a list of number and operator tokens means: a term/factor grammar, shown
    unambiguous, and its evaluation with rounding after every operation. */
module AmountGrammar {
  import opened Numbers

  predicate IsOp(c: char) {
    c == '+' || c == '-' || c == '*' || c == '/'
  }

  predicate IsAdditive(c: char) {
    c == '+' || c == '-'
  }

  datatype Token = Num(v: real) | Op(op: char)

  /** number, operator, number, ..., number */
  predicate Alternating(ts: seq<Token>) {
    |ts| % 2 == 1
    && forall i :: 0 <= i < |ts| ==>
         if i % 2 == 0 then ts[i].Num? else ts[i].Op? && IsOp(ts[i].op)
  }

  // ---- the grammar ----

  /** `term := factor | term ('*' | '/') factor`, left associative by construction. */
  datatype Term = Factor(v: real) | Product(left: Term, op: char, v: real)

  /** `sum := term | sum ('+' | '-') term` */
  datatype Sum = Single(term: Term) | Chain(left: Sum, op: char, term: Term)

  /** Evaluation, rounding to the currency's decimals after every operation. */
  function EvalTerm(t: Term, scale: real): Num
    requires scale > 0.0
  {
    match t
    case Factor(v) => Fin(v)
    case Product(left, op, v) =>
      var l := EvalTerm(left, scale);
      Snap(if op == '*' then Mul(l, Fin(v)) else Div(l, Fin(v)), scale)
  }

  function Combine(op: char, l: Num, r: Num, scale: real): Num
    requires scale > 0.0
  {
    Snap(if op == '+' then Add(l, r) else Sub(l, r), scale)
  }

  function EvalSum(e: Sum, scale: real): Num
    requires scale > 0.0
  {
    match e
    case Single(t) => EvalTerm(t, scale)
    case Chain(left, op, t) => Combine(op, EvalSum(left, scale), EvalTerm(t, scale), scale)
  }

  /** The lexemes an expression tree is written with. */
  ghost predicate TermWrites(t: Term, ts: seq<Token>) {
    match t
    case Factor(v) => |ts| == 1 && ts[0].Num? && ts[0].v == v
    case Product(left, op, v) =>
      |ts| > 2 && TermWrites(left, ts[..|ts| - 2])
      && ts[|ts| - 2] == Op(op) && IsOp(op) && !IsAdditive(op)
      && ts[|ts| - 1].Num? && ts[|ts| - 1].v == v
  }

  ghost predicate SumWrites(e: Sum, ts: seq<Token>)
    decreases e, 1
  {
    match e
    case Single(t) => TermWrites(t, ts)
    case Chain(_, _, _) => exists k :: SplitsAt(e, ts, k)
  }

  /** The outermost operator of the chain is the lexeme at `k`. */
  ghost predicate SplitsAt(e: Sum, ts: seq<Token>, k: int)
    requires e.Chain?
    decreases e, 0
  {
    0 <= k < |ts| && ts[k] == Op(e.op) && IsAdditive(e.op)
    && SumWrites(e.left, ts[..k]) && TermWrites(e.term, ts[k + 1..])
  }

  /** One more operator and factor at the right end. */
  function Extend(e: Sum, op: char, v: real): Sum {
    if IsAdditive(op) then Chain(e, op, Factor(v))
    else
      match e
      case Single(t) => Single(Product(t, op, v))
      case Chain(left, o, t) => Chain(left, o, Product(t, op, v))
  }

  function Parse(ts: seq<Token>): Sum
    requires Alternating(ts)
  {
    if |ts| == 1 then Single(Factor(ts[0].v))
    else
      var front := ts[..|ts| - 2];
      assert Alternating(front) by {
        assert forall i :: 0 <= i < |front| ==> front[i] == ts[i];
      }
      Extend(Parse(front), ts[|ts| - 2].op, ts[|ts| - 1].v)
  }

  lemma FrontAlternates(ts: seq<Token>)
    requires Alternating(ts) && |ts| > 1
    ensures Alternating(ts[..|ts| - 2]) && ts[|ts| - 2].Op? && ts[|ts| - 1].Num?
  {
  }

  lemma ExtendWrites(e: Sum, front: seq<Token>, op: char, last: Token)
    requires SumWrites(e, front) && IsOp(op) && last.Num?
    ensures SumWrites(Extend(e, op, last.v), front + [Op(op), last])
  {
    var all, v := front + [Op(op), last], last.v;
    if IsAdditive(op) {
      assert all[..|front|] == front && all[|front| + 1..] == [last];
      assert TermWrites(Factor(v), [last]);
      assert SplitsAt(Chain(e, op, Factor(v)), all, |front|);
    } else if e.Single? {
      ProductWrites(e.term, front, op, last);
    } else {
      var k :| SplitsAt(e, front, k);
      ProductWrites(e.term, front[k + 1..], op, last);
      assert all[..k] == front[..k] && all[k + 1..] == front[k + 1..] + [Op(op), last];
      assert SplitsAt(Chain(e.left, e.op, Product(e.term, op, v)), all, k);
    }
  }

  /** Every alternating list is parsed to a tree that is written with it. */
  lemma {:induction false} ParseSound(ts: seq<Token>)
    requires Alternating(ts)
    ensures SumWrites(Parse(ts), ts)
  {
    if |ts| > 1 {
      FrontAlternates(ts);
      var front, op, last := ts[..|ts| - 2], ts[|ts| - 2].op, ts[|ts| - 1];
      assert forall i :: 0 <= i < |front| ==> front[i] == ts[i];
      ParseSound(front);
      ExtendWrites(Parse(front), front, op, last);
      assert ts == front + [Op(op), last];
    }
  }

  lemma ProductWrites(t: Term, ts: seq<Token>, op: char, last: Token)
    requires TermWrites(t, ts) && IsOp(op) && !IsAdditive(op) && last.Num?
    ensures TermWrites(Product(t, op, last.v), ts + [Op(op), last])
  {
  }

  lemma {:induction false} TermHasNoAdditive(t: Term, ts: seq<Token>)
    requires TermWrites(t, ts)
    ensures forall i :: 0 <= i < |ts| && ts[i].Op? ==> !IsAdditive(ts[i].op)
  {
    if t.Product? {
      var front := ts[..|ts| - 2];
      TermHasNoAdditive(t.left, front);
      assert forall i :: 0 <= i < |front| ==> front[i] == ts[i];
    }
  }

  lemma {:induction false} TermUnambiguous(t: Term, u: Term, ts: seq<Token>)
    requires TermWrites(t, ts) && TermWrites(u, ts)
    ensures t == u
  {
    if t.Product? && u.Product? { TermUnambiguous(t.left, u.left, ts[..|ts| - 2]); }
  }

  lemma TermNeverChain(t: Term, e: Sum, ts: seq<Token>)
    requires TermWrites(t, ts) && SumWrites(e, ts)
    ensures e.Single?
  {
    TermHasNoAdditive(t, ts);
  }

  /** The outermost operator is the last additive one. */
  lemma SplitIsLastAdditive(e: Sum, ts: seq<Token>, k: int, i: int)
    requires e.Chain? && SplitsAt(e, ts, k) && k < i < |ts| && ts[i].Op?
    ensures !IsAdditive(ts[i].op)
  {
    TermHasNoAdditive(e.term, ts[k + 1..]);
    assert ts[k + 1..][i - k - 1] == ts[i];
  }

  /** The grammar is unambiguous: a lexeme list has at most one tree, so the
      precedence and associativity of the tree are forced by the text. */
  lemma {:induction false} GrammarUnambiguous(d: Sum, e: Sum, ts: seq<Token>)
    requires SumWrites(d, ts) && SumWrites(e, ts)
    ensures d == e
  {
    if d.Single? {
      TermNeverChain(d.term, e, ts);
      TermUnambiguous(d.term, e.term, ts);
    } else if e.Single? {
      TermNeverChain(e.term, d, ts);
    } else {
      var k :| SplitsAt(d, ts, k);
      var m :| SplitsAt(e, ts, m);
      if k < m { SplitIsLastAdditive(d, ts, k, m); }
      if m < k { SplitIsLastAdditive(e, ts, m, k); }
      GrammarUnambiguous(d.left, e.left, ts[..k]);
      TermUnambiguous(d.term, e.term, ts[k + 1..]);
    }
  }
}
