/** The text of an amount expression: characters, number and operator lexemes, and
    the value of a literal. Lexing and rendering undo each other. */
module AmountLexer {
  import opened Wrappers
  import opened Numbers
  import opened AmountGrammar

  // ---- characters ----

  predicate IsDigit(c: char) {
    '0' <= c <= '9'
  }

  /** `\s` and `trim()` */
  predicate IsSpace(c: char) {
    || '\U{0009}' <= c <= '\U{000D}' || c == ' ' || c == '\U{00A0}' || c == '\U{1680}'
    || '\U{2000}' <= c <= '\U{200A}' || c == '\U{2028}' || c == '\U{2029}' || c == '\U{202F}'
    || c == '\U{205F}' || c == '\U{3000}' || c == '\U{FEFF}'
  }

  function NormalizeChar(c: char): char {
    if c == '\U{00D7}' then '*' else if c == '\U{00F7}' then '/' else if c == '\U{2212}' then '-' else c
  }

  function Normalize(s: string): (r: string)
    ensures |r| == |s| && forall i :: 0 <= i < |s| ==> r[i] == NormalizeChar(s[i])
  {
    if s == "" then "" else [NormalizeChar(s[0])] + Normalize(s[1..])
  }

  function TrimEnd(s: string): string {
    if s != "" && IsSpace(s[|s| - 1]) then TrimEnd(s[..|s| - 1]) else s
  }

  /** Removes one trailing operator, with white space behind it; white space with
      no operator in front of it stays (and makes the text malformed). */
  function StripOperator(s: string): string {
    var t := TrimEnd(s);
    if t != "" && IsOp(t[|t| - 1]) then t[..|t| - 1] else s
  }

  // ---- lexemes ----

  datatype Lexeme = NumLex(text: string) | OpLex(op: char)

  predicate AllDigits(s: string) {
    forall i :: 0 <= i < |s| ==> IsDigit(s[i])
  }

  /** `\d+\.?\d*|\.\d+` as a whole-string test. */
  predicate IsNumber(s: string) {
    var d := DigitRun(s);
    if d == |s| then d > 0
    else s[d] == '.' && AllDigits(s[d + 1..]) && |s| > 1
  }

  predicate ValidLexeme(l: Lexeme) {
    match l
    case NumLex(text) => IsNumber(text)
    case OpLex(op) => IsOp(op)
  }

  function DigitRun(s: string): (n: nat)
    ensures n <= |s|
  {
    if s == "" || !IsDigit(s[0]) then 0 else 1 + DigitRun(s[1..])
  }

  lemma {:induction false} DigitRunIsMaximal(s: string)
    ensures AllDigits(s[..DigitRun(s)])
    ensures DigitRun(s) < |s| ==> !IsDigit(s[DigitRun(s)])
  {
    if s != "" && IsDigit(s[0]) {
      DigitRunIsMaximal(s[1..]);
      var n := DigitRun(s);
      assert forall i :: 0 < i < n ==> s[..n][i] == s[1..][..n - 1][i - 1];
    }
  }

  /** The length the number regex matches at the start of `s`, 0 for no match. */
  function NumberLength(s: string): (n: nat)
    ensures n <= |s|
  {
    var d := DigitRun(s);
    if d < |s| && s[d] == '.' then
      var f := DigitRun(s[d + 1..]);
      if d == 0 && f == 0 then 0 else d + 1 + f
    else d
  }

  function RenderLexeme(l: Lexeme): string {
    match l
    case NumLex(text) => text
    case OpLex(op) => [op]
  }

  /** The lexeme the token regex matches at the start of `s`. */
  function First(s: string): (r: Option<Lexeme>)
    requires s != ""
    ensures r.Some? ==> 0 < |RenderLexeme(r.value)| <= |s|
  {
    var n := NumberLength(s);
    if n > 0 then Some(NumLex(s[..n]))
    else if IsOp(s[0]) then Some(OpLex(s[0]))
    else None
  }

  function Lex(s: string): Option<seq<Lexeme>>
    decreases |s|
  {
    if s == "" then Some([])
    else
      match First(s)
      case None => None
      case Some(l) => Prepend(l, Lex(s[|RenderLexeme(l)|..]))
  }

  function Prepend(l: Lexeme, rest: Option<seq<Lexeme>>): Option<seq<Lexeme>> {
    match rest
    case None => None
    case Some(ls) => Some([l] + ls)
  }

  function Render(ls: seq<Lexeme>): string {
    if ls == [] then "" else RenderLexeme(ls[0]) + Render(ls[1..])
  }

  /** number, operator, number, ..., number */
  predicate AlternatingLexemes(ls: seq<Lexeme>) {
    |ls| % 2 == 1 && forall i :: 0 <= i < |ls| ==> (ls[i].NumLex? <==> i % 2 == 0)
  }

  predicate AllValid(ls: seq<Lexeme>) {
    forall i :: 0 <= i < |ls| ==> ValidLexeme(ls[i])
  }

  lemma {:induction false} DigitRunStops(s: string, t: string)
    requires AllDigits(s) && (t == "" || !IsDigit(t[0]))
    ensures DigitRun(s + t) == |s|
  {
    if s == "" {
      assert s + t == t;
    } else {
      assert (s + t)[1..] == s[1..] + t;
      DigitRunStops(s[1..], t);
    }
  }

  lemma PointIsMunched(w: string, f: string, t: string)
    requires AllDigits(w) && AllDigits(f) && |w| + |f| > 0
    requires t == "" || IsOp(t[0])
    ensures NumberLength(w + (['.'] + (f + t))) == |w| + 1 + |f|
  {
    var rest := ['.'] + (f + t);
    DigitRunStops(w, rest);
    assert (w + rest)[|w| + 1..] == f + t;
    DigitRunStops(f, t);
  }

  /** The regex takes the whole of a number that is followed by an operator or the end. */
  lemma NumberIsMunched(s: string, t: string)
    requires IsNumber(s) && (t == "" || IsOp(t[0]))
    ensures NumberLength(s + t) == |s| > 0
  {
    var d := DigitRun(s);
    DigitRunIsMaximal(s);
    if d == |s| {
      assert s[..d] == s;
      DigitRunStops(s, t);
    } else {
      var w, f := s[..d], s[d + 1..];
      PointIsMunched(w, f, t);
      assert s + t == w + (['.'] + (f + t));
    }
  }

  lemma NumberLengthIsNumber(s: string)
    requires NumberLength(s) > 0
    ensures IsNumber(s[..NumberLength(s)])
  {
    var d, n := DigitRun(s), NumberLength(s);
    DigitRunIsMaximal(s);
    DigitRunStops(s[..d], s[d..n]);
    assert s[..d] + s[d..n] == s[..n];
    if d < |s| && s[d] == '.' {
      var f := DigitRun(s[d + 1..]);
      DigitRunIsMaximal(s[d + 1..]);
      assert s[..n][d + 1..] == s[d + 1..][..f];
    }
  }

  lemma FirstSound(s: string)
    requires s != "" && First(s).Some?
    ensures ValidLexeme(First(s).value)
    ensures s[..|RenderLexeme(First(s).value)|] == RenderLexeme(First(s).value)
  {
    if NumberLength(s) > 0 { NumberLengthIsNumber(s); }
  }

  lemma FirstComplete(l: Lexeme, t: string)
    requires ValidLexeme(l) && (l.NumLex? ==> t == "" || IsOp(t[0]))
    ensures RenderLexeme(l) != "" && First(RenderLexeme(l) + t) == Some(l)
  {
    var s := RenderLexeme(l) + t;
    if l.NumLex? {
      NumberIsMunched(l.text, t);
      assert s[..|l.text|] == l.text;
    } else {
      assert DigitRun(s) == 0;
    }
  }

  lemma ValidFromHead(ls: seq<Lexeme>)
    requires ls != [] && ValidLexeme(ls[0]) && AllValid(ls[1..])
    ensures AllValid(ls)
  {
  }

  lemma LexUnfold(s: string, ls: seq<Lexeme>)
    requires s != "" && Lex(s) == Some(ls)
    ensures ls != [] && ValidLexeme(ls[0])
    ensures var n := |RenderLexeme(ls[0])|;
            0 < n <= |s| && s[..n] == RenderLexeme(ls[0]) && Lex(s[n..]) == Some(ls[1..])
  {
    FirstSound(s);
  }

  /** Rendering undoes lexing, and lexing only produces valid lexemes. */
  lemma {:induction false} LexSound(s: string, ls: seq<Lexeme>)
    requires Lex(s) == Some(ls)
    ensures Render(ls) == s && AllValid(ls)
    decreases |s|
  {
    if s != "" {
      LexUnfold(s, ls);
      var n := |RenderLexeme(ls[0])|;
      LexSound(s[n..], ls[1..]);
      ValidFromHead(ls);
      assert s == s[..n] + s[n..];
    }
  }

  /** No two numbers stand side by side. */
  predicate Separated(ls: seq<Lexeme>) {
    forall i :: 0 <= i < |ls| - 1 ==> ls[i].NumLex? ==> ls[i + 1].OpLex?
  }

  lemma TailIsValid(ls: seq<Lexeme>)
    requires ls != [] && AllValid(ls) && Separated(ls)
    ensures ValidLexeme(ls[0]) && AllValid(ls[1..]) && Separated(ls[1..])
    ensures |ls| > 1 ==> ValidLexeme(ls[1..][0]) && (ls[0].NumLex? ==> ls[1..][0].OpLex?)
  {
  }

  /** Lexing undoes rendering, whenever no two numbers are adjacent. */
  lemma {:induction false} LexComplete(ls: seq<Lexeme>)
    requires AllValid(ls) && Separated(ls)
    ensures Lex(Render(ls)) == Some(ls)
  {
    if ls != [] {
      var l, rest := ls[0], Render(ls[1..]);
      TailIsValid(ls);
      LexComplete(ls[1..]);
      if l.NumLex? && |ls| > 1 { RenderStartsWithOp(ls[1..]); }
      FirstComplete(l, rest);
      assert (RenderLexeme(l) + rest)[|RenderLexeme(l)|..] == rest;
      assert ls == [l] + ls[1..];
    }
  }

  lemma RenderStartsWithOp(ls: seq<Lexeme>)
    requires ls != [] && ls[0].OpLex? && ValidLexeme(ls[0])
    ensures Render(ls) != "" && IsOp(Render(ls)[0])
  {
  }

  /** `s` is written with exactly the lexemes of an expression. */
  ghost predicate IsWriting(ls: seq<Lexeme>, s: string) {
    AllValid(ls) && AlternatingLexemes(ls) && Render(ls) == s
  }

  ghost predicate WellFormed(s: string) {
    exists ls :: IsWriting(ls, s)
  }

  lemma AlternatingIsSeparated(ls: seq<Lexeme>)
    requires AlternatingLexemes(ls)
    ensures Separated(ls)
  {
  }

  /** The lexer decides well-formedness, and finds the only way to write the text. */
  lemma WellFormedIffLexes(s: string)
    ensures WellFormed(s) <==> Lex(s).Some? && AlternatingLexemes(Lex(s).value)
  {
    if Lex(s).Some? && AlternatingLexemes(Lex(s).value) {
      LexSound(s, Lex(s).value);
      assert IsWriting(Lex(s).value, s);
    }
    if ls :| IsWriting(ls, s) {
      AlternatingIsSeparated(ls);
      LexComplete(ls);
    }
  }

  // ---- literals ----

  function Whole(s: string): (n: nat) {
    if s == "" || !IsDigit(s[|s| - 1]) then 0
    else 10 * Whole(s[..|s| - 1]) + (s[|s| - 1] - '0') as nat
  }

  function Pow10(n: nat): (p: nat)
    ensures p >= 1
  {
    if n == 0 then 1 else 10 * Pow10(n - 1)
  }

  /** The digits behind the decimal point. */
  function Fraction(s: string): string {
    var d := DigitRun(s);
    if d < |s| then s[d + 1..] else ""
  }

  /** `parseFloat`, exactly. */
  function Value(s: string): (v: real)
    ensures v >= 0.0
  {
    Whole(s[..DigitRun(s)]) as real + Whole(Fraction(s)) as real / Pow10(|Fraction(s)|) as real
  }

  /** The minor units a literal is written for: its digits, filled up with zeros. */
  function MinorUnits(s: string, dp: nat): nat
    requires |Fraction(s)| <= dp
  {
    Whole(s[..DigitRun(s)]) * Pow10(dp) + Whole(Fraction(s)) * Pow10(dp - |Fraction(s)|)
  }

  /** Scaled by a power of ten that covers its decimals, a literal is whole, and the
      number its digits spell. */
  lemma LiteralIsWholeInMinor(s: string, dp: nat)
    requires |Fraction(s)| <= dp
    ensures IsWhole(ToMinor(Value(s), Pow10(dp) as real))
    ensures ToMinor(Value(s), Pow10(dp) as real) == MinorUnits(s, dp) as real
  {
    hide ToMinor;
    var w, f, k := Whole(s[..DigitRun(s)]), Whole(Fraction(s)), |Fraction(s)|;
    PowersMultiply(k, dp - k);
    ScaleFraction(w, f, Pow10(k), Pow10(dp - k), Value(s), Pow10(dp));
  }

  lemma ScaleFraction(w: nat, f: nat, a: nat, b: nat, v: real, p: nat)
    requires a > 0 && p == a * b && v == w as real + f as real / a as real
    ensures IsWhole(ToMinor(v, p as real))
    ensures ToMinor(v, p as real) == (w * p + f * b) as real
  {
    ProductAsReal(w, p);
    ProductAsReal(f, b);
    ProductAsReal(a, b);
    DistributeFraction(w as real, f as real, a as real, b as real);
    WholeIff(ToMinor(v, p as real), w * p + f * b);
  }

  lemma ProductAsReal(x: int, y: int)
    ensures (x * y) as real == x as real * y as real
  {
  }

  lemma DistributeFraction(w: real, f: real, a: real, b: real)
    requires a > 0.0
    ensures (w + f / a) * (a * b) == w * (a * b) + f * b
  {
  }

  lemma {:induction false} PowersMultiply(m: nat, n: nat)
    ensures Pow10(m + n) == Pow10(m) * Pow10(n)
  {
    if m > 0 { PowersMultiply(m - 1, n); }
  }

  /** The tokens of a lexeme list: numbers by value. */
  function Tokens(ls: seq<Lexeme>): (ts: seq<Token>)
    ensures |ts| == |ls|
    ensures forall i :: 0 <= i < |ls| ==> ts[i] == TokenOf(ls[i])
  {
    seq(|ls|, i requires 0 <= i < |ls| => TokenOf(ls[i]))
  }

  function TokenOf(l: Lexeme): Token {
    match l
    case NumLex(text) => Num(Value(text))
    case OpLex(op) => Op(op)
  }
}
