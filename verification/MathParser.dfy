/** The amount field's calculator (src/services/math-parser.ts): tokenizer, a pass
    for `*` and `/`, a pass for `+` and `-`, proved to compute the grammar's value. */
module MathParser {
  import opened Wrappers
  import opened Numbers
  import opened AmountGrammar
  import opened AmountLexer

  const MAX_AMOUNT: int := 99_999_999_999

  /** The token arrays of the two passes hold computed numbers. */
  datatype Item = Val(value: Num) | Sign(op: char)

  function DecimalPlaces(decimalPlaces: Option<real>): nat {
    if decimalPlaces.Some? && decimalPlaces.value >= 0.0 then decimalPlaces.value.Floor else 2
  }

  function ItemOf(t: Token): Item {
    match t
    case Num(v) => Val(Fin(v))
    case Op(op) => Sign(op)
  }

  /** What the first pass leaves of an expression: its terms, evaluated. */
  function Reduced(e: Sum, scale: real): (r: seq<Item>)
    requires scale > 0.0
    ensures |r| % 2 == 1
    ensures forall i :: 0 <= i < |r| ==> if i % 2 == 0 then r[i].Val? else r[i].Sign?
  {
    match e
    case Single(t) => [Val(EvalTerm(t, scale))]
    case Chain(left, op, t) => Reduced(left, scale) + [Sign(op), Val(EvalTerm(t, scale))]
  }

  lemma ReducedAfterProduct(e: Sum, op: char, v: real, scale: real)
    requires scale > 0.0 && !IsAdditive(op)
    ensures var r, n := Reduced(e, scale), |Reduced(e, scale)|;
            Reduced(Extend(e, op, v), scale)
            == r[..n - 1] + [Val(Snap(if op == '*' then Mul(r[n - 1].value, Fin(v))
                                      else Div(r[n - 1].value, Fin(v)), scale))]
  {
    hide Snap, Add, Sub, Mul, Div;
    match e
    case Single(t) =>
    case Chain(left, o, t) =>
      var r := Reduced(e, scale);
      assert r[..|r| - 1] == Reduced(left, scale) + [Sign(o)];
  }

  /** First pass: multiplication and division. A missing operand is impossible on
      an alternating list, so the source's checks for one never fire. */
  method MulDivPass(tokens: seq<Token>, scale: real) returns (afterMulDiv: seq<Item>)
    requires Alternating(tokens) && scale > 0.0
    ensures afterMulDiv == Reduced(Parse(tokens), scale)
  {
    hide Snap, Mul, Div, IsReducedPrefix;
    afterMulDiv := [];
    var i := 0;
    while i < |tokens|
      invariant 0 <= i <= |tokens|
      invariant i == 0 ==> afterMulDiv == []
      invariant i % 2 == 1 ==> IsReducedPrefix(tokens, i, afterMulDiv, scale)
      invariant i > 0 && i % 2 == 0 ==>
                  && IsAdditive(tokens[i - 1].op)
                  && afterMulDiv != [] && afterMulDiv[|afterMulDiv| - 1] == ItemOf(tokens[i - 1])
                  && IsReducedPrefix(tokens, i - 1, afterMulDiv[..|afterMulDiv| - 1], scale)
    {
      var token := tokens[i];
      if token.Op? && (token.op == '*' || token.op == '/') {
        var right := tokens[i + 1];
        ExtendPrefix(tokens, i, afterMulDiv, scale);
        var left := afterMulDiv[|afterMulDiv| - 1].value;
        afterMulDiv := afterMulDiv[..|afterMulDiv| - 1];
        var result := if token.op == '*' then Mul(left, Fin(right.v)) else Div(left, Fin(right.v));
        afterMulDiv := afterMulDiv + [Val(Snap(result, scale))];
        i := i + 2;
      } else {
        if i == 0 {
          FirstPrefix(tokens, scale);
          assert afterMulDiv + [ItemOf(token)] == [ItemOf(token)];
        } else if i % 2 == 0 {
          ghost var before := afterMulDiv[..|afterMulDiv| - 1];
          ExtendPrefix(tokens, i - 1, before, scale);
          assert afterMulDiv + [ItemOf(token)] == before + [ItemOf(tokens[i - 1]), ItemOf(token)];
        }
        afterMulDiv := afterMulDiv + [ItemOf(token)];
        i := i + 1;
      }
    }
    FullPrefix(tokens, afterMulDiv, scale);
  }

  lemma FirstPrefix(tokens: seq<Token>, scale: real)
    requires Alternating(tokens) && scale > 0.0
    ensures IsReducedPrefix(tokens, 1, [ItemOf(tokens[0])], scale)
  {
  }

  lemma FullPrefix(tokens: seq<Token>, items: seq<Item>, scale: real)
    requires scale > 0.0 && IsReducedPrefix(tokens, |tokens|, items, scale)
    ensures Alternating(tokens) && items == Reduced(Parse(tokens), scale)
  {
    assert tokens[..|tokens|] == tokens;
  }

  ghost predicate IsReducedPrefix(tokens: seq<Token>, i: nat, items: seq<Item>, scale: real)
    requires scale > 0.0 && i <= |tokens|
  {
    Alternating(tokens[..i]) && items == Reduced(Parse(tokens[..i]), scale)
  }

  /** How the reduced prefix grows by one operator and one number. */
  lemma ExtendPrefix(tokens: seq<Token>, i: nat, items: seq<Item>, scale: real)
    requires Alternating(tokens) && i + 1 < |tokens| && i % 2 == 1 && scale > 0.0
    requires IsReducedPrefix(tokens, i, items, scale)
    ensures items != [] && items[|items| - 1].Val?
    ensures IsAdditive(tokens[i].op) ==>
              IsReducedPrefix(tokens, i + 2, items + [ItemOf(tokens[i]), ItemOf(tokens[i + 1])], scale)
    ensures !IsAdditive(tokens[i].op) ==>
              var left, v := items[|items| - 1].value, tokens[i + 1].v;
              var result := if tokens[i].op == '*' then Mul(left, Fin(v)) else Div(left, Fin(v));
              IsReducedPrefix(tokens, i + 2, items[..|items| - 1] + [Val(Snap(result, scale))], scale)
  {
    hide Snap, Add, Sub, Mul, Div;
    var e, op, v, next := Parse(tokens[..i]), tokens[i].op, tokens[i + 1].v, tokens[..i + 2];
    assert forall k :: 0 <= k < |next| ==> next[k] == tokens[k];
    assert next[..i] == tokens[..i];
    assert Parse(next) == Extend(e, op, v);
    if !IsAdditive(op) { ReducedAfterProduct(e, op, v, scale); }
  }

  /** Left-to-right evaluation of a reduced list. */
  ghost function Fold(items: seq<Item>, scale: real): Num
    requires scale > 0.0 && |items| % 2 == 1
    requires forall i :: 0 <= i < |items| ==> if i % 2 == 0 then items[i].Val? else items[i].Sign?
  {
    if |items| == 1 then items[0].value
    else
      var n := |items|;
      Combine(items[n - 2].op, Fold(items[..n - 2], scale), items[n - 1].value, scale)
  }

  lemma {:induction false} FoldIsEval(e: Sum, scale: real)
    requires scale > 0.0
    ensures Fold(Reduced(e, scale), scale) == EvalSum(e, scale)
  {
    hide Snap, Add, Sub, Mul, Div;
    if e.Chain? {
      var r := Reduced(e, scale);
      FoldIsEval(e.left, scale);
      assert r[..|r| - 2] == Reduced(e.left, scale);
    }
  }

  /** Second pass: addition and subtraction. */
  method AddSubPass(afterMulDiv: seq<Item>, ghost e: Sum, scale: real) returns (result: Num)
    requires scale > 0.0 && afterMulDiv == Reduced(e, scale)
    ensures result == EvalSum(e, scale)
  {
    hide Snap, Add, Sub, Mul, Div;
    result := afterMulDiv[0].value;
    var j := 1;
    while j < |afterMulDiv|
      invariant 1 <= j <= |afterMulDiv| && j % 2 == 1
      invariant result == Fold(afterMulDiv[..j], scale)
    {
      var op, right := afterMulDiv[j].op, afterMulDiv[j + 1].value;
      assert afterMulDiv[..j + 2][..j] == afterMulDiv[..j];
      if op == '+' {
        result := Snap(Add(result, right), scale);
      } else {
        result := Snap(Sub(result, right), scale);
      }
      j := j + 2;
    }
    assert afterMulDiv[..j] == afterMulDiv;
    FoldIsEval(e, scale);
  }

  /** The tokenizer loop: match at `lastIndex` or give up. */
  method Tokenize(normalized: string) returns (tokens: Option<seq<Lexeme>>)
    ensures tokens == Lex(normalized)
  {
    hide First, Value;
    var found, lastIndex := [], 0;
    assert normalized[0..] == normalized;
    assert forall r: seq<Lexeme> :: [] + r == r;
    while lastIndex < |normalized|
      invariant 0 <= lastIndex <= |normalized|
      invariant Lex(normalized) == Joined(found, Lex(normalized[lastIndex..]))
    {
      ghost var rest := normalized[lastIndex..];
      var match0 := First(normalized[lastIndex..]);
      if match0.None? { return None; }
      var n := |RenderLexeme(match0.value)|;
      assert rest[n..] == normalized[lastIndex + n..];
      JoinedSnoc(found, match0.value, Lex(rest[n..]));
      found := found + [match0.value];
      lastIndex := lastIndex + n;
    }
    assert found + [] == found;
    return Some(found);
  }

  function Joined(front: seq<Lexeme>, rest: Option<seq<Lexeme>>): Option<seq<Lexeme>> {
    match rest
    case None => None
    case Some(ls) => Some(front + ls)
  }

  lemma JoinedSnoc(front: seq<Lexeme>, l: Lexeme, rest: Option<seq<Lexeme>>)
    ensures Joined(front, Prepend(l, rest)) == Joined(front + [l], rest)
  {
    if rest.Some? { assert front + ([l] + rest.value) == front + [l] + rest.value; }
  }

  /** The value of an expression in minor units, by the grammar. */
  function Finish(n: Num, scale: real): Option<int>
    requires scale > 0.0
  {
    match n
    case Fin(v) => Some(Round(ToMinor(v, scale)))
    case _ => None
  }

  function Stripped(expr: string): string {
    StripOperator(Normalize(expr))
  }

  lemma AlternatingTokens(ls: seq<Lexeme>)
    requires AllValid(ls) && AlternatingLexemes(ls)
    ensures Alternating(Tokens(ls))
  {
  }

  /** `r` is what the text means: its unique reading by the grammar, or null. */
  ghost predicate Means(s: string, scale: real, r: Option<int>)
    requires scale > 0.0
  {
    match Lex(s)
    case None => r == None
    case Some(ls) =>
      if AlternatingLexemes(ls) then
        Alternating(Tokens(ls)) && r == Finish(EvalSum(Parse(Tokens(ls)), scale), scale)
      else r == None
  }

  function Scale(decimalPlaces: Option<real>): (scale: real)
    ensures scale > 0.0
  {
    Pow10(DecimalPlaces(decimalPlaces)) as real
  }

  /** "Must alternate", "must start with a number", "must end with a number". */
  method CheckAlternation(tokens: seq<Lexeme>) returns (ok: bool)
    ensures ok <==> AlternatingLexemes(tokens)
  {
    if |tokens| == 0 { return false; }
    if !tokens[0].NumLex? { return false; }
    var i := 0;
    while i < |tokens|
      invariant 0 <= i <= |tokens|
      invariant forall k :: 0 <= k < i ==> (tokens[k].NumLex? <==> k % 2 == 0)
    {
      if i % 2 == 0 && !tokens[i].NumLex? { return false; }
      if i % 2 == 1 && !tokens[i].OpLex? { return false; }
      i := i + 1;
    }
    return tokens[|tokens| - 1].NumLex?;
  }

  method EvaluateTokens(tokens: seq<Token>, scale: real) returns (r: Option<int>)
    requires Alternating(tokens) && scale > 0.0
    ensures r == Finish(EvalSum(Parse(tokens), scale), scale)
  {
    var afterMulDiv := MulDivPass(tokens, scale);
    var result := AddSubPass(afterMulDiv, Parse(tokens), scale);
    return Finish(result, scale);
  }

  /** `evaluateRaw` */
  method EvaluateRaw(expr: string, decimalPlaces: Option<real>) returns (r: Option<int>)
    ensures Means(Stripped(expr), Scale(decimalPlaces), r)
  {
    var scale := Scale(decimalPlaces);
    var normalized := Stripped(expr);
    var lexemes := Tokenize(normalized);
    if lexemes.None? { return None; }
    var alternates := CheckAlternation(lexemes.value);
    if !alternates { return None; }
    LexSound(normalized, lexemes.value);
    AlternatingTokens(lexemes.value);
    r := EvaluateTokens(Tokens(lexemes.value), scale);
  }

  // ---- when the result is null ----

  predicate TermDividesByZero(t: Term) {
    match t
    case Factor(_) => false
    case Product(left, op, v) => TermDividesByZero(left) || (op != '*' && v == 0.0)
  }

  predicate DividesByZero(e: Sum) {
    match e
    case Single(t) => TermDividesByZero(t)
    case Chain(left, _, t) => DividesByZero(left) || TermDividesByZero(t)
  }

  predicate TermNonNegative(t: Term) {
    match t
    case Factor(v) => v >= 0.0
    case Product(left, _, v) => TermNonNegative(left) && v >= 0.0
  }

  predicate NonNegative(e: Sum) {
    match e
    case Single(t) => TermNonNegative(t)
    case Chain(left, _, t) => NonNegative(left) && TermNonNegative(t)
  }

  lemma ProductSign(v: real, w: real)
    requires v >= 0.0 && w >= 0.0
    ensures v * w >= 0.0 && (w > 0.0 ==> v / w >= 0.0)
  {
  }

  lemma ProductFiniteIff(l: Num, op: char, v: real, scale: real)
    requires scale > 0.0 && v >= 0.0 && !l.NegInf? && (l.Fin? ==> l.v >= 0.0)
    ensures var r := Snap(if op == '*' then Mul(l, Fin(v)) else Div(l, Fin(v)), scale);
            && (r.Fin? <==> l.Fin? && (op == '*' || v != 0.0))
            && !r.NegInf? && (r.Fin? ==> r.v >= 0.0)
  {
    if l.Fin? {
      ProductSign(l.v, v);
      if op == '*' { SnapKeepsSign(l.v * v, scale); }
      else if v != 0.0 { SnapKeepsSign(l.v / v, scale); }
    }
  }

  /** A zero divisor makes a term non-finite for good; nothing else does. */
  lemma {:induction false} TermFiniteIff(t: Term, scale: real)
    requires scale > 0.0 && TermNonNegative(t)
    ensures EvalTerm(t, scale).Fin? <==> !TermDividesByZero(t)
    ensures !EvalTerm(t, scale).NegInf?
    ensures EvalTerm(t, scale).Fin? ==> EvalTerm(t, scale).v >= 0.0
  {
    hide Snap, Mul, Div;
    if t.Product? {
      TermFiniteIff(t.left, scale);
      ProductFiniteIff(EvalTerm(t.left, scale), t.op, t.v, scale);
    }
  }

  lemma {:induction false} SumFiniteIff(e: Sum, scale: real)
    requires scale > 0.0 && NonNegative(e)
    ensures EvalSum(e, scale).Fin? <==> !DividesByZero(e)
  {
    match e
    case Single(t) => TermFiniteIff(t, scale);
    case Chain(left, op, t) =>
      SumFiniteIff(left, scale);
      TermFiniteIff(t, scale);
  }

  predicate LiteralsNonNegative(ts: seq<Token>) {
    forall i :: 0 <= i < |ts| && ts[i].Num? ==> ts[i].v >= 0.0
  }

  lemma {:induction false} ParsedIsNonNegative(ts: seq<Token>)
    requires Alternating(ts) && LiteralsNonNegative(ts)
    ensures NonNegative(Parse(ts))
  {
    if |ts| > 1 {
      FrontAlternates(ts);
      var front := ts[..|ts| - 2];
      assert forall i :: 0 <= i < |front| ==> front[i] == ts[i];
      ParsedIsNonNegative(front);
      assert ts[|ts| - 1].v >= 0.0;
    }
  }

  ghost predicate HasZeroDivisor(ts: seq<Token>) {
    exists i :: 0 <= i < |ts| - 1 && ts[i] == Op('/') && ts[i + 1] == Num(0.0)
  }

  lemma {:induction false} ParsedDividesByZero(ts: seq<Token>)
    requires Alternating(ts)
    ensures DividesByZero(Parse(ts)) <==> HasZeroDivisor(ts)
  {
    if |ts| > 1 {
      FrontAlternates(ts);
      var front, n := ts[..|ts| - 2], |ts|;
      ParsedDividesByZero(front);
      assert forall i :: 0 <= i < |front| ==> front[i] == ts[i];
      assert ts[n - 3].Num?;
      assert IsOp(ts[n - 2].op);
      ZeroDivisorAtEnd(ts);
    }
  }

  lemma ZeroDivisorAtEnd(ts: seq<Token>)
    requires Alternating(ts) && |ts| > 1
    ensures HasZeroDivisor(ts) <==>
            HasZeroDivisor(ts[..|ts| - 2]) || (ts[|ts| - 2] == Op('/') && ts[|ts| - 1] == Num(0.0))
  {
  }

  /** The text has a literal zero as a divisor. */
  ghost predicate DividesByLiteralZero(s: string) {
    exists ls :: IsWriting(ls, s) && HasZeroDivisor(Tokens(ls))
  }

  /** The result is null exactly when the text is not an expression, or divides by
      a literal zero anywhere, whatever is computed around that division. */
  lemma NullIff(s: string, scale: real, r: Option<int>)
    requires scale > 0.0 && Means(s, scale, r)
    ensures r == None <==> !WellFormed(s) || DividesByLiteralZero(s)
  {
    WellFormedIffLexes(s);
    if WellFormed(s) {
      var ls := Lex(s).value;
      LexSound(s, ls);
      ParsedIsNonNegative(Tokens(ls));
      SumFiniteIff(Parse(Tokens(ls)), scale);
      ParsedDividesByZero(Tokens(ls));
      assert IsWriting(ls, s);
      forall other | IsWriting(other, s) ensures other == ls {
        OnlyReading(s, other);
      }
    }
  }

  // ---- exactness of sums ----

  /** A sum of plain literals, none with more decimals than the scale covers. */
  ghost predicate IsPlainSum(e: Sum, scale: real) {
    match e
    case Single(t) => t.Factor? && IsWhole(ToMinor(t.v, scale))
    case Chain(left, _, t) => IsPlainSum(left, scale) && t.Factor? && IsWhole(ToMinor(t.v, scale))
  }

  /** The sum without any rounding. */
  ghost function ExactSum(e: Sum): real {
    match e
    case Single(t) => t.v
    case Chain(left, op, t) => if op == '+' then ExactSum(left) + t.v else ExactSum(left) - t.v
  }

  /** No rounding happens in sums and differences of representable literals: the
      result is the exact sum, expressed in minor units. */
  lemma {:induction false} SumsAreExact(e: Sum, scale: real)
    requires scale > 0.0 && IsPlainSum(e, scale)
    ensures IsWhole(ToMinor(ExactSum(e), scale))
    ensures EvalSum(e, scale) == Fin(ExactSum(e))
    ensures Finish(EvalSum(e, scale), scale) == Some(ToMinor(ExactSum(e), scale).Floor)
  {
    hide Snap, ToMinor;
    if e.Chain? {
      SumsAreExact(e.left, scale);
      MinorSum(ExactSum(e.left), e.term.v, scale);
      SnapIsIdentity(ExactSum(e), scale);
    }
    WholeIff(ToMinor(ExactSum(e), scale), ToMinor(ExactSum(e), scale).Floor);
  }

  /** Numbers of at most `dp` decimals with plus and minus signs between them. */
  predicate IsAdditiveText(ls: seq<Lexeme>, dp: nat) {
    && AllValid(ls) && AlternatingLexemes(ls)
    && forall i :: 0 <= i < |ls| ==>
         match ls[i]
         case NumLex(text) => |Fraction(text)| <= dp
         case OpLex(op) => IsAdditive(op)
  }

  lemma FrontIsAdditive(ls: seq<Lexeme>, dp: nat)
    requires IsAdditiveText(ls, dp) && |ls| > 1
    ensures |ls| >= 3 && IsAdditiveText(ls[..|ls| - 2], dp)
  {
  }

  /** The total in minor units, from the digits alone. */
  function TotalInMinor(ls: seq<Lexeme>, dp: nat): int
    requires IsAdditiveText(ls, dp)
  {
    var n := |ls| - 1;
    if n == 0 then MinorUnits(ls[0].text, dp)
    else
      assert ls[n - 1].OpLex?;
      FrontIsAdditive(ls, dp);
      var front, last := TotalInMinor(ls[..n - 1], dp), MinorUnits(ls[n].text, dp);
      if ls[n - 1].op == '+' then front + last else front - last
  }

  lemma TokensOfFront(ls: seq<Lexeme>, k: nat)
    requires k <= |ls|
    ensures Tokens(ls[..k]) == Tokens(ls)[..k]
  {
  }

  lemma {:induction false} AdditiveTextIsPlainSum(ls: seq<Lexeme>, dp: nat)
    requires IsAdditiveText(ls, dp) && Alternating(Tokens(ls))
    ensures var e, scale := Parse(Tokens(ls)), Pow10(dp) as real;
            IsPlainSum(e, scale) && ToMinor(ExactSum(e), scale) == TotalInMinor(ls, dp) as real
  {
    hide ToMinor, MinorUnits, Value, Fraction;
    var n, scale := |ls| - 1, Pow10(dp) as real;
    LiteralIsWholeInMinor(ls[n].text, dp);
    if n > 0 {
      assert ls[n - 1].OpLex? && IsAdditive(ls[n - 1].op);
      TokensOfFront(ls, n - 1);
      FrontIsAdditive(ls, dp);
      FrontAlternates(Tokens(ls));
      AdditiveTextIsPlainSum(ls[..n - 1], dp);
      var front := Parse(Tokens(ls[..n - 1]));
      SumsAreExact(front, scale);
      MinorSum(ExactSum(front), Value(ls[n].text), scale);
    }
  }

  lemma OnlyReading(s: string, ls: seq<Lexeme>)
    requires IsWriting(ls, s)
    ensures Lex(s) == Some(ls)
  {
    AlternatingIsSeparated(ls);
    LexComplete(ls);
  }

  /** What a user types as sums and differences of amounts within the currency's
      decimals is computed exactly: the signed total of the digits, in minor units. */
  lemma TypedSumsAreExact(s: string, ls: seq<Lexeme>, dp: nat, r: Option<int>)
    requires IsWriting(ls, s) && IsAdditiveText(ls, dp) && Means(s, Pow10(dp) as real, r)
    ensures r == Some(TotalInMinor(ls, dp))
  {
    hide Lex, ToMinor, TotalInMinor, IsPlainSum, EvalSum, Parse, Render;
    OnlyReading(s, ls);
    AlternatingTokens(ls);
    AdditiveTextIsPlainSum(ls, dp);
    SumsAreExact(Parse(Tokens(ls)), Pow10(dp) as real);
  }

  // ---- the two public wrappers ----

  method EvaluateExpression(expr: string, decimalPlaces: Option<real>) returns (r: Option<int>)
    ensures exists raw :: Means(Stripped(expr), Scale(decimalPlaces), raw)
              && r == if raw.Some? && 0 <= raw.value <= 99_999_999_999 then raw else None
  {
    var raw := EvaluateRaw(expr, decimalPlaces);
    if raw == None || raw.value < 0 || raw.value > MAX_AMOUNT { return None; }
    return raw;
  }

  method IsAmountOverLimit(expr: string, decimalPlaces: Option<real>) returns (over: bool)
    ensures exists raw :: Means(Stripped(expr), Scale(decimalPlaces), raw)
              && (over <==> raw.Some? && raw.value > 99_999_999_999)
  {
    var raw := EvaluateRaw(expr, decimalPlaces);
    return raw != None && raw.value > MAX_AMOUNT;
  }
}
