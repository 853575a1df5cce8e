/** What the calculator computes, in real arithmetic on the values of the literals: every
    operation exact, then rounded to the currency's decimals. */
module AmountValues {
  import opened Wrappers
  import opened Numbers
  import opened AmountGrammar
  import opened AmountLexer
  import opened MathParser

  // ---- rounding ----

  /** The integer nearest to `x`, halves upwards. */
  predicate IsNearest(n: int, x: real) {
    n as real - 0.5 <= x < n as real + 0.5
  }

  /** `n` is the amount `x` in minor units, rounded. */
  predicate IsInMinor(n: int, x: real, scale: real) {
    IsNearest(n, x * scale)
  }

  /** `x` is `exact`, rounded to whole minor units. */
  ghost predicate IsRounded(exact: real, scale: real, x: real)
    requires scale > 0.0
  {
    exists n: int :: IsInMinor(n, exact, scale) && x == n as real / scale
  }

  function Times(op: char, v: real, w: real): real
    requires op != '*' ==> w != 0.0
  {
    if op == '*' then v * w else v / w
  }

  function Plus(op: char, v: real, w: real): real {
    if op == '+' then v + w else v - w
  }

  lemma NearestIsUnique(m: int, n: int, x: real)
    requires IsNearest(m, x) && IsNearest(n, x)
    ensures m == n
  {
  }

  lemma InMinorIsUnique(m: int, n: int, x: real, scale: real)
    requires IsInMinor(m, x, scale) && IsInMinor(n, x, scale)
    ensures m == n
  {
    NearestIsUnique(m, n, x * scale);
  }

  lemma RoundedIsUnique(exact: real, scale: real, x: real, y: real)
    requires scale > 0.0 && IsRounded(exact, scale, x) && IsRounded(exact, scale, y)
    ensures x == y
  {
    hide IsInMinor;
    var m: int :| IsInMinor(m, exact, scale) && x == m as real / scale;
    var n: int :| IsInMinor(n, exact, scale) && y == n as real / scale;
    InMinorIsUnique(m, n, exact, scale);
  }

  lemma RoundIsInMinor(x: real, scale: real)
    ensures IsInMinor(Round(ToMinor(x, scale)), x, scale)
  {
  }

  lemma SnapRounds(exact: real, scale: real)
    requires scale > 0.0
    ensures Snap(Fin(exact), scale).Fin? && IsRounded(exact, scale, Snap(Fin(exact), scale).v)
  {
    hide IsInMinor, ToMinor, Round;
    RoundIsInMinor(exact, scale);
  }

  lemma WholeIsInMinor(m: int, x: real, scale: real, n: int)
    requires scale > 0.0 && x == m as real / scale
    ensures IsInMinor(n, x, scale) <==> n == m
  {
    assert x * scale == m as real;
  }

  /** A rounded amount has the minor units of the exact one. */
  lemma RoundedIsInMinor(exact: real, scale: real, x: real, n: int)
    requires scale > 0.0 && IsRounded(exact, scale, x)
    ensures IsInMinor(n, x, scale) <==> IsInMinor(n, exact, scale)
  {
    hide IsInMinor;
    var m: int :| IsInMinor(m, exact, scale) && x == m as real / scale;
    WholeIsInMinor(m, x, scale, n);
    if IsInMinor(n, exact, scale) { InMinorIsUnique(m, n, exact, scale); }
  }

  // ---- the value of a tree ----

  /** Products and quotients from the left, each rounded. */
  ghost predicate TermIs(t: Term, scale: real, x: real)
    requires scale > 0.0
  {
    match t
    case Factor(v) => x == v
    case Product(left, op, v) =>
      && (op != '*' ==> v != 0.0)
      && exists y :: TermIs(left, scale, y) && IsRounded(Times(op, y, v), scale, x)
  }

  /** Sums and differences from the left, each rounded. */
  ghost predicate SumIs(e: Sum, scale: real, x: real)
    requires scale > 0.0
  {
    match e
    case Single(t) => TermIs(t, scale, x)
    case Chain(left, op, t) =>
      exists y, z :: SumIs(left, scale, y) && TermIs(t, scale, z)
                     && IsRounded(Plus(op, y, z), scale, x)
  }

  lemma {:induction false} TermIsUnique(t: Term, scale: real, x: real, y: real)
    requires scale > 0.0 && TermIs(t, scale, x) && TermIs(t, scale, y)
    ensures x == y
  {
    hide IsRounded, Times;
    if t.Product? {
      var a :| TermIs(t.left, scale, a) && IsRounded(Times(t.op, a, t.v), scale, x);
      var b :| TermIs(t.left, scale, b) && IsRounded(Times(t.op, b, t.v), scale, y);
      TermIsUnique(t.left, scale, a, b);
      RoundedIsUnique(Times(t.op, a, t.v), scale, x, y);
    }
  }

  lemma {:induction false} SumIsUnique(e: Sum, scale: real, x: real, y: real)
    requires scale > 0.0 && SumIs(e, scale, x) && SumIs(e, scale, y)
    ensures x == y
  {
    hide IsRounded, Plus, TermIs;
    match e
    case Single(t) => TermIsUnique(t, scale, x, y);
    case Chain(left, op, t) =>
      var a, c :| SumIs(left, scale, a) && TermIs(t, scale, c) && IsRounded(Plus(op, a, c), scale, x);
      var b, d :| SumIs(left, scale, b) && TermIs(t, scale, d) && IsRounded(Plus(op, b, d), scale, y);
      SumIsUnique(left, scale, a, b);
      TermIsUnique(t, scale, c, d);
      RoundedIsUnique(Plus(op, a, c), scale, x, y);
  }

  lemma ProductSnaps(op: char, v: real, w: real, scale: real)
    requires scale > 0.0 && (op != '*' ==> w != 0.0)
    ensures var r := Snap(if op == '*' then Mul(Fin(v), Fin(w)) else Div(Fin(v), Fin(w)), scale);
            r.Fin? && IsRounded(Times(op, v, w), scale, r.v)
  {
    hide Snap, IsRounded;
    assert (if op == '*' then Mul(Fin(v), Fin(w)) else Div(Fin(v), Fin(w))) == Fin(Times(op, v, w));
    SnapRounds(Times(op, v, w), scale);
  }

  lemma SumSnaps(op: char, v: real, w: real, scale: real)
    requires scale > 0.0
    ensures Combine(op, Fin(v), Fin(w), scale).Fin?
    ensures IsRounded(Plus(op, v, w), scale, Combine(op, Fin(v), Fin(w), scale).v)
  {
    hide Snap, IsRounded;
    SnapRounds(Plus(op, v, w), scale);
  }

  lemma {:induction false} TermEvaluates(t: Term, scale: real)
    requires scale > 0.0 && !TermDividesByZero(t)
    ensures EvalTerm(t, scale).Fin? && TermIs(t, scale, EvalTerm(t, scale).v)
  {
    hide Snap, IsRounded, Mul, Div, Times;
    if t.Product? {
      TermEvaluates(t.left, scale);
      ProductSnaps(t.op, EvalTerm(t.left, scale).v, t.v, scale);
    }
  }

  lemma {:induction false} SumEvaluates(e: Sum, scale: real)
    requires scale > 0.0 && !DividesByZero(e)
    ensures EvalSum(e, scale).Fin? && SumIs(e, scale, EvalSum(e, scale).v)
  {
    hide IsRounded, TermIs, EvalTerm, Combine, Plus;
    match e
    case Single(t) => TermEvaluates(t, scale);
    case Chain(left, op, t) =>
      SumEvaluates(left, scale);
      TermEvaluates(t, scale);
      SumSnaps(op, EvalSum(left, scale).v, EvalTerm(t, scale).v, scale);
  }

  // ---- the value of a text ----

  /** Text that is written with the tree `e` and divides by no zero evaluates to the
      value of `e` in minor units. */
  lemma TextHasValue(s: string, ls: seq<Lexeme>, e: Sum, scale: real, r: Option<int>, n: int)
    requires scale > 0.0 && IsWriting(ls, s) && Means(s, scale, r)
    requires SumWrites(e, Tokens(ls)) && !DividesByZero(e)
    ensures r == Some(n) <==> exists x :: SumIs(e, scale, x) && IsInMinor(n, x, scale)
  {
    hide Lex, EvalSum, SumIs, Parse, Render, SumWrites, DividesByZero, IsInMinor, ToMinor, Round;
    OnlyReading(s, ls);
    AlternatingTokens(ls);
    ParseSound(Tokens(ls));
    GrammarUnambiguous(e, Parse(Tokens(ls)), Tokens(ls));
    SumEvaluates(e, scale);
    var v := EvalSum(e, scale).v;
    RoundIsInMinor(v, scale);
    if x :| SumIs(e, scale, x) && IsInMinor(n, x, scale) {
      SumIsUnique(e, scale, x, v);
      InMinorIsUnique(n, Round(ToMinor(v, scale)), v, scale);
    }
  }

  lemma TwoNumbers(a: string, op: char, b: string)
    requires IsNumber(a) && IsNumber(b) && (op == '*' || op == '/')
    ensures var ls := [NumLex(a), OpLex(op), NumLex(b)];
            && IsWriting(ls, a + [op] + b)
            && SumWrites(Single(Product(Factor(Value(a)), op, Value(b))), Tokens(ls))
  {
    hide IsNumber, Value;
    var ls := [NumLex(a), OpLex(op), NumLex(b)];
    assert ls[1..] == [OpLex(op), NumLex(b)] && ls[1..][1..] == [NumLex(b)] && [NumLex(b)][1..] == [];
    assert Render([NumLex(b)]) == b;
    assert Render(ls[1..]) == [op] + b;
    assert a + [op] + b == a + ([op] + b);
    var front, t := [Num(Value(a))], Product(Factor(Value(a)), op, Value(b));
    assert Tokens(ls)[..1] == front && TermWrites(Factor(Value(a)), front);
    assert TermWrites(t, Tokens(ls));
  }

  lemma TermOfTwo(v: real, op: char, w: real, scale: real, x: real)
    requires scale > 0.0 && (op != '*' ==> w != 0.0)
    ensures SumIs(Single(Product(Factor(v), op, w)), scale, x) <==> IsRounded(Times(op, v, w), scale, x)
  {
    hide IsRounded, Times;
    var t := Product(Factor(v), op, w);
    assert forall y :: TermIs(Factor(v), scale, y) <==> y == v;
    assert TermIs(t, scale, x) <==> IsRounded(Times(op, v, w), scale, x);
  }

  lemma ResultOfTwo(a: string, op: char, b: string, scale: real, r: Option<int>, n: int)
    requires scale > 0.0 && IsNumber(a) && IsNumber(b) && (op == '*' || (op == '/' && Value(b) != 0.0))
    requires Means(a + [op] + b, scale, r)
    ensures r == Some(n) <==> IsInMinor(n, Times(op, Value(a), Value(b)), scale)
  {
    hide Means, SumIs, IsWriting, SumWrites, Value, IsRounded, IsInMinor, Times, IsNumber;
    var v, w, ls := Value(a), Value(b), [NumLex(a), OpLex(op), NumLex(b)];
    var e := Single(Product(Factor(v), op, w));
    TwoNumbers(a, op, b);
    assert !TermDividesByZero(Factor(v)) && !TermDividesByZero(e.term);
    TextHasValue(a + [op] + b, ls, e, scale, r, n);
    if x :| SumIs(e, scale, x) && IsInMinor(n, x, scale) {
      TermOfTwo(v, op, w, scale, x);
      RoundedIsInMinor(Times(op, v, w), scale, x, n);
    }
    if IsInMinor(n, Times(op, v, w), scale) {
      SnapRounds(Times(op, v, w), scale);
      var x := Snap(Fin(Times(op, v, w)), scale).v;
      TermOfTwo(v, op, w, scale, x);
      RoundedIsInMinor(Times(op, v, w), scale, x, n);
    }
  }

  /** `a*b` is the exact product of the two numbers, rounded to minor units. */
  lemma ProductOfTwo(a: string, b: string, scale: real, r: Option<int>, n: int)
    requires scale > 0.0 && IsNumber(a) && IsNumber(b) && Means(a + "*" + b, scale, r)
    ensures r == Some(n) <==> IsInMinor(n, Value(a) * Value(b), scale)
  {
    hide Means, Value, IsNumber, IsInMinor;
    assert a + "*" + b == a + ['*'] + b;
    ResultOfTwo(a, '*', b, scale, r, n);
    assert Times('*', Value(a), Value(b)) == Value(a) * Value(b);
  }

  /** `a/b` is the exact quotient, for any divisor but zero. */
  lemma QuotientOfTwo(a: string, b: string, scale: real, r: Option<int>, n: int)
    requires scale > 0.0 && IsNumber(a) && IsNumber(b) && Value(b) != 0.0 && Means(a + "/" + b, scale, r)
    ensures r == Some(n) <==> IsInMinor(n, Value(a) / Value(b), scale)
  {
    hide Means, Value, IsNumber, IsInMinor;
    assert a + "/" + b == a + ['/'] + b;
    ResultOfTwo(a, '/', b, scale, r, n);
    assert Times('/', Value(a), Value(b)) == Value(a) / Value(b);
  }

  // ---- the text as typed ----

  /** The signs of the key pad, and what they stand for. */
  predicate IsTyped(typed: char, sign: char) {
    || (typed == '\U{00D7}' && sign == '*')
    || (typed == '\U{00F7}' && sign == '/')
    || (typed == '\U{2212}' && sign == '-')
    || (typed == sign && typed !in ['\U{00D7}', '\U{00F7}', '\U{2212}'])
  }

  /** Spelled with the signs of the key pad or of the keyboard, a text is the same. */
  lemma SignsAreRead(typed: string, s: string)
    requires |typed| == |s| && forall i :: 0 <= i < |s| ==> IsTyped(typed[i], s[i])
    ensures Normalize(typed) == s
  {
    assert forall i :: 0 <= i < |s| ==> Normalize(typed)[i] == s[i];
  }

  lemma {:induction false} TrimEndIs(s: string, w: string)
    requires forall i :: 0 <= i < |w| ==> IsSpace(w[i])
    requires s == "" || !IsSpace(s[|s| - 1])
    ensures TrimEnd(s + w) == s
  {
    hide IsSpace;
    if w == "" {
      assert s + w == s;
    } else {
      var front := w[..|w| - 1];
      assert s + w == (s + front) + [w[|w| - 1]];
      assert (s + w)[..|s + w| - 1] == s + front;
      TrimEndIs(s, front);
    }
  }

  lemma OpsAreNoSpaces(c: char)
    requires IsOp(c)
    ensures !IsSpace(c)
  {
  }

  /** One operator at the end goes, with the white space behind it; a text without one
      stays as it is. */
  lemma TrailingOperatorGoes(s: string, op: char, w: string)
    requires IsOp(op) && forall i :: 0 <= i < |w| ==> IsSpace(w[i])
    ensures StripOperator(s + [op] + w) == s
  {
    OpsAreNoSpaces(op);
    hide IsSpace;
    TrimEndIs(s + [op], w);
    assert (s + [op])[..|s|] == s;
  }

  lemma NothingElseGoes(s: string, w: string)
    requires forall i :: 0 <= i < |w| ==> IsSpace(w[i])
    requires s == "" || (!IsSpace(s[|s| - 1]) && !IsOp(s[|s| - 1]))
    ensures StripOperator(s + w) == s + w
  {
    hide IsSpace;
    TrimEndIs(s, w);
  }

  /** A currency has 2 decimals unless a number from 0 on is given, which is cut to a
      whole one. */
  lemma ScaleIs(decimalPlaces: Option<real>, dp: nat)
    ensures decimalPlaces.None? || decimalPlaces.value < 0.0 ==> Scale(decimalPlaces) == 100.0
    ensures decimalPlaces.Some? && dp as real <= decimalPlaces.value < dp as real + 1.0 ==>
              Scale(decimalPlaces) == Pow10(dp) as real
    ensures Pow10(0) == 1 && Pow10(dp + 1) == 10 * Pow10(dp)
  {
    assert Pow10(2) == 10 * Pow10(1) == 100;
    if decimalPlaces.Some? && dp as real <= decimalPlaces.value < dp as real + 1.0 {
      assert decimalPlaces.value.Floor == dp;
    }
  }

  /** Digits count by their position: the first of them stands for a power of ten. */
  lemma {:induction false} DigitsArePositional(c: char, s: string)
    requires IsDigit(c) && AllDigits(s)
    ensures Whole([c] + s) == (c as int - '0' as int) * Pow10(|s|) + Whole(s)
  {
    if s == "" {
      assert [c] + s == [c] && [c][..0] == "";
    } else {
      var front, last := s[..|s| - 1], s[|s| - 1];
      DigitsArePositional(c, front);
      assert ([c] + s)[..|s|] == [c] + front && ([c] + s)[|s|] == last;
      hide Pow10;
      WholeSnoc([c] + s);
      WholeSnoc(s);
      PowersOfTen(|front|);
      TenTimes(c as int - '0' as int, Pow10(|front|), Whole(front));
    }
  }

  lemma WholeSnoc(s: string)
    requires s != "" && IsDigit(s[|s| - 1])
    ensures Whole(s) == 10 * Whole(s[..|s| - 1]) + (s[|s| - 1] as int - '0' as int)
  {
  }

  lemma PowersOfTen(n: nat)
    ensures Pow10(n + 1) == 10 * Pow10(n)
  {
  }

  lemma TenTimes(d: int, p: int, w: int)
    ensures 10 * (d * p + w) == d * (10 * p) + 10 * w
  {
  }
}
