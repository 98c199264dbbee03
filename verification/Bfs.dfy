/** The find-style filter language: sizes, primaries, the parser and the evaluator. */
module Bfs {
  import opened Prelude
  import opened Bytes
  import opened Records
  import opened Decimals
  import opened Grammar
  import opened Text
  import BoolParse
  import Glob

  type Word = seq<byte>

  datatype Cmp = Eq | Gt | Lt

  datatype Prim = Name(pat: Word) | Path(pat: Word) | Size(cmp: Cmp, n: i64) | Newer(file: Word)

  type Expr = Node<Prim>

  const MINUS: byte := 45
  const PLUS: byte := 43
  const SINGLE: byte := 39
  const DOUBLE: byte := 34

  // ---------------------------------------------------------------- arguments

  /** Without one layer of matching quotes around it. */
  function StripQuotes(s: Word): Word {
    if |s| >= 2 && (s[0] == SINGLE || s[0] == DOUBLE) && s[0] == s[|s| - 1] then s[1..|s| - 1] else s
  }

  predicate AllDigits(s: Word) { forall c :: c in s ==> IsDigit(c) }

  /** The library's integer parser: an optional sign, digits, and no overflow. */
  function ParseI64(s: Word): Option<i64> {
    var signed := s != [] && (s[0] == PLUS || s[0] == MINUS);
    var digits := if signed then s[1..] else s;
    if digits == [] || !AllDigits(digits) then None
    else
      var v := if signed && s[0] == MINUS then -FromDecimal(digits) else FromDecimal(digits);
      if I64_MIN <= v <= I64_MAX then Some(v) else None
  }

  const KILO: int := 1024

  /** How many bytes a unit letter stands for; no letter, no unit. */
  function Unit(c: byte): Option<int> {
    if c == 'c' as int then Some(1)
    else if c == 'k' as int then Some(KILO)
    else if c == 'M' as int then Some(KILO * KILO)
    else if c == 'G' as int then Some(KILO * KILO * KILO)
    else None
  }

  /** `N[c|k|M|G]`; a product beyond 64 bits becomes the largest number. */
  function ParseBytes(s: Word): Option<i64> {
    var unit := if s == [] then None else Unit(s[|s| - 1]);
    match ParseI64(if unit.Some? then s[..|s| - 1] else s)
    case None => None
    case Some(n) =>
      var v := n * (if unit.Some? then unit.value else 1);
      Some(if I64_MIN <= v <= I64_MAX then v else I64_MAX)
  }

  /** A size with the sign of its comparison, if any. */
  function ParseSize(s: Word): Option<(Cmp, i64)> {
    var cmp := if s != [] && s[0] == PLUS then Gt else if s != [] && s[0] == MINUS then Lt else Eq;
    match ParseBytes(if cmp == Eq then s else s[1..]) case None => None case Some(n) => Some((cmp, n))
  }

  // ---------------------------------------------------------------- grammar

  const DASH_NAME := Ascii("-name")
  const DASH_PATH := Ascii("-path")
  const DASH_SIZE := Ascii("-size")
  const DASH_NEWER := Ascii("-newer")

  predicate IsOrWord(t: Word) { t == Ascii("-o") || t == Ascii("-or") }

  predicate IsAndWord(t: Word) { t == Ascii("-a") || t == Ascii("-and") }

  predicate IsNotWord(t: Word) { t == Ascii("!") || t == Ascii("-not") }

  predicate IsOpen(t: Word) { t == Ascii("(") }

  predicate IsClose(t: Word) { t == Ascii(")") }

  /** A word that can start a factor. */
  predicate StartsFactor(t: Word) {
    IsOpen(t) || IsNotWord(t) || (t != [] && t[0] == MINUS && !IsAndWord(t) && !IsOrWord(t))
  }

  function PrimOf(head: Word, raw: Word): Option<Prim> {
    var arg := StripQuotes(raw);
    if head == DASH_NAME then Some(Name(arg))
    else if head == DASH_PATH then Some(Path(arg))
    else if head == DASH_SIZE then
      match ParseSize(arg) case None => None case Some((cmp, n)) => Some(Size(cmp, n))
    else if head == DASH_NEWER then Some(Newer(arg))
    else None
  }

  /** A primary is a predicate word and the word behind it, whatever that is. */
  function PrimWords(toks: seq<Word>, p: nat): Option<(Prim, nat)> {
    if p + 1 >= |toks| then None
    else match PrimOf(toks[p], toks[p + 1]) case None => None case Some(a) => Some((a, p + 2))
  }

  const LANG: Lang<Word, Prim> := Lang(IsOrWord, IsAndWord, IsNotWord, IsOpen, IsClose, StartsFactor, PrimWords)

  /** The words of a text (`split_whitespace`). */
  function Split(s: seq<byte>, cur: Word): seq<Word> {
    if s == [] then (if cur == [] then [] else [cur])
    else if BoolParse.IsSpace(s[0]) then (if cur == [] then [] else [cur]) + Split(s[1..], [])
    else Split(s[1..], cur + [s[0]])
  }

  function Parse(s: seq<byte>): Option<Expr> { ParseTokens(LANG, Split(s, [])) }

  method ParseExpr(s: seq<byte>) returns (r: Option<Expr>)
    ensures r == Parse(s)
  {
    r := ParseAll(LANG, Split(s, []));
  }

  lemma {:induction false} WordsDiffer()
    ensures forall t :: IsOrWord(t) ==> !IsAndWord(t) && !StartsFactor(t)
    ensures forall t :: IsClose(t) ==> !IsAndWord(t) && !StartsFactor(t) && !IsOrWord(t)
    ensures forall t :: IsOpen(t) ==> !IsNotWord(t)
    ensures forall t :: StartsFactor(t) ==> !IsAndWord(t)
  {
    assert Ascii("-o")[1] == 111 && Ascii("-or")[1] == 111 && Ascii("-a")[1] == 97 && Ascii("-and")[1] == 97;
    assert Ascii("-not")[1] == 110 && Ascii("!")[0] == 33 && Ascii("(")[0] == 40 && Ascii(")")[0] == 41;
    assert Ascii("-a")[0] == MINUS && Ascii("-and")[0] == MINUS && Ascii("-o")[0] == MINUS && Ascii("-or")[0] == MINUS;
  }

  lemma {:induction false} HeadWords(t: Word)
    requires t == DASH_NAME || t == DASH_PATH || t == DASH_SIZE || t == DASH_NEWER
    ensures Head(LANG, t)
  {
    assert t[0] == MINUS && |t| >= 5 && Ascii("!")[0] == 33 && Ascii("(")[0] == 40;
  }

  lemma {:induction false} PairSpells(head: Word, raw: Word, a: Prim)
    requires PrimOf(head, raw) == Some(a)
    ensures Spells(LANG, [head, raw], a)
  {
    HeadWords(head);
    forall toks: seq<Word>, p: nat, e: nat | Stands(toks, p, e, [head, raw])
      ensures PrimWords(toks, p) == Some((a, e))
    {
      assert toks[p] == toks[p..e][0] && toks[p + 1] == toks[p..e][1];
    }
  }

  lemma {:induction false} SpelledByPair(part: seq<Word>, a: Prim)
    requires Spells(LANG, part, a)
    ensures |part| == 2 && PrimOf(part[0], part[1]) == Some(a)
  {
    assert Stands(part, 0, |part|, part);
    assert LANG.prim(part, 0) == Some((a, |part|));
  }

  lemma {:induction false} LangProper()
    ensures Proper(LANG)
  {
    WordsDiffer();
    forall toks: seq<Word>, p: nat ensures PrimIn(LANG, toks, p) {
      if PrimWords(toks, p).Some? {
        PairSpells(toks[p], toks[p + 1], PrimWords(toks, p).value.0);
        HeadWords(toks[p]);
        assert toks[p..p + 2] == [toks[p], toks[p + 1]];
      }
    }
  }

  /** The parser accepts exactly what the grammar can write, with its one reading. */
  lemma {:induction false} ExprExact(s: seq<byte>, e: Expr)
    ensures Parse(s) == Some(e) <==> Means(LANG, Split(s, []), e)
  {
    LangProper();
    ParseExact(LANG, Split(s, []), e);
  }

  // ---------------------------------------------------------------- printing

  predicate Unbroken(w: Word) { forall c :: c in w ==> !BoolParse.IsSpace(c) }

  predicate Solid(w: Word) { w != [] && Unbroken(w) }

  predicate PlainWord(w: Word) { Solid(w) && StripQuotes(w) == w }

  /** Primaries that can be written: arguments without blanks, which would end the word,
      and any size but equality with a negative number, whose minus would be read as a
      comparison. */
  predicate Writable(a: Prim) {
    match a
    case Name(w) => Unbroken(w)
    case Path(w) => Unbroken(w)
    case Newer(w) => Unbroken(w)
    case Size(cmp, n) => cmp != Eq || n >= 0
  }

  /** An argument in quotes where it needs them: when it is empty or has a pair itself. */
  function Quote(w: Word): (q: Word)
    ensures StripQuotes(q) == w && (Unbroken(w) ==> Solid(q))
  {
    if w != [] && StripQuotes(w) == w then w
    else
      var q := [SINGLE] + w + [SINGLE];
      assert q[1..|q| - 1] == w;
      assert forall c :: c in q ==> c in w || c == SINGLE;
      q
  }

  function Digits(n: nat): Word { if n == 0 then [ZERO] else Decimal(n, 1) }

  function Abs(n: int): nat { if n < 0 then -n else n }

  function SayI64(n: i64): Word { if n < 0 then [MINUS] + Digits(Abs(n)) else Digits(Abs(n)) }

  function SaySize(cmp: Cmp, n: i64): Word {
    (match cmp case Eq => [] case Gt => [PLUS] case Lt => [MINUS]) + SayI64(n)
  }

  function Say(a: Prim): (ws: seq<Word>)
    ensures |ws| == 2
  {
    match a
    case Name(w) => [DASH_NAME, Quote(w)]
    case Path(w) => [DASH_PATH, Quote(w)]
    case Newer(w) => [DASH_NEWER, Quote(w)]
    case Size(cmp, n) => [DASH_SIZE, SaySize(cmp, n)]
  }

  const STYLE: Style<Word, Prim> := Style(Say, Ascii("!"), Ascii("("), Ascii(")"), Ascii("-o"))

  lemma {:induction false} DigitsExact(n: nat)
    ensures Digits(n) != [] && AllDigits(Digits(n)) && FromDecimal(Digits(n)) == n
  {
    DecimalRoundTrip(n, 1);
    if n == 0 { assert [ZERO][..0] == []; }
  }

  /** A number as it is written: it reads back, and ends with a digit. */
  ghost predicate Written(num: Word, n: i64) {
    && num != [] && ParseI64(num) == Some(n) && IsDigit(num[|num| - 1]) && (n >= 0 ==> IsDigit(num[0]))
    && Unbroken(num)
  }

  lemma {:induction false} I64Written(n: i64, digits: Word)
    requires digits == Digits(Abs(n))
    ensures Written(if n < 0 then [MINUS] + digits else digits, n)
  {
    DigitsExact(Abs(n));
    var num := if n < 0 then [MINUS] + digits else digits;
    assert digits[0] in digits && digits[|digits| - 1] in digits;
    forall c | c in num ensures !BoolParse.IsSpace(c) { assert c in digits || c == MINUS; }
    if n < 0 { NegativeRead(num, digits); } else { DigitsRead(digits, n); }
  }

  lemma {:induction false} DigitsRead(digits: Word, n: i64)
    requires n >= 0 && digits != [] && AllDigits(digits) && FromDecimal(digits) == n
    ensures ParseI64(digits) == Some(n)
  {
    assert digits[0] in digits && IsDigit(digits[0]);
  }

  lemma {:induction false} NegativeRead(num: Word, digits: Word)
    requires num == [MINUS] + digits && digits != [] && AllDigits(digits) && 0 < FromDecimal(digits) <= -I64_MIN
    ensures ParseI64(num) == Some(-FromDecimal(digits)) && num[|num| - 1] == digits[|digits| - 1]
  {
    assert num[1..] == digits;
  }

  lemma {:induction false} SizeReads(cmp: Cmp, n: i64, num: Word, s: Word)
    requires Written(num, n) && (cmp == Eq ==> n >= 0)
    requires s == (match cmp case Eq => [] case Gt => [PLUS] case Lt => [MINUS]) + num
    ensures ParseSize(s) == Some((cmp, n))
  {
    assert s[|s| - 1] == num[|num| - 1];
    if cmp == Eq { assert s == num; } else { assert s[1..] == num; }
  }

  lemma {:induction false} SizePlain(cmp: Cmp, n: i64, num: Word, s: Word)
    requires Written(num, n)
    requires s == (match cmp case Eq => [] case Gt => [PLUS] case Lt => [MINUS]) + num
    ensures PlainWord(s)
  {
    assert s[|s| - 1] == num[|num| - 1];
    forall c | c in s ensures !BoolParse.IsSpace(c) { assert c in num || c == PLUS || c == MINUS; }
  }

  /** A size reads back with its comparison. */
  lemma {:induction false} SizeRoundTrip(cmp: Cmp, n: i64)
    requires cmp != Eq || n >= 0
    ensures ParseSize(SaySize(cmp, n)) == Some((cmp, n)) && PlainWord(SaySize(cmp, n))
  {
    I64Written(n, Digits(Abs(n)));
    SizeReads(cmp, n, SayI64(n), SaySize(cmp, n));
    SizePlain(cmp, n, SayI64(n), SaySize(cmp, n));
  }

  lemma {:induction false} DigitsNotNegative(s: Word)
    requires AllDigits(s)
    ensures FromDecimal(s) >= 0
  {
    if s != [] {
      assert s[|s| - 1] in s && forall c :: c in s[..|s| - 1] ==> c in s;
      DigitsNotNegative(s[..|s| - 1]);
    }
  }

  /** ... and the excluded sizes cannot be written at all. */
  lemma {:induction false} NegativeEqualityUnwritable(part: seq<Word>, n: i64)
    requires Spells(LANG, part, Size(Eq, n))
    ensures n >= 0
  {
    SpelledByPair(part, Size(Eq, n));
    EqualityNotNegative(StripQuotes(part[1]), n);
  }

  lemma {:induction false} EqualityNotNegative(s: Word, n: i64)
    requires ParseSize(s) == Some((Eq, n))
    ensures n >= 0
  {
    var num := if s != [] && Unit(s[|s| - 1]).Some? then s[..|s| - 1] else s;
    assert num != [] ==> num[0] == s[0];
    if AllDigits(num) { DigitsNotNegative(num); }
  }

  lemma {:induction false} StyleSays()
    ensures Says(LANG, STYLE, Writable) && Writes(LANG, STYLE)
  {
    forall a: Prim | Writable(a) ensures Spells(LANG, STYLE.say(a), a) {
      SayRead(a);
      PairSpells(Say(a)[0], Say(a)[1], a);
      assert Say(a) == [Say(a)[0], Say(a)[1]];
    }
  }

  lemma {:induction false} SayRead(a: Prim)
    requires Writable(a)
    ensures PrimOf(Say(a)[0], Say(a)[1]) == Some(a) && Solid(Say(a)[1])
  {
    HeadsDiffer();
    if a.Size? { SizeRoundTrip(a.cmp, a.n); }
  }

  function Join(toks: seq<Word>): seq<byte> {
    if toks == [] then [] else if |toks| == 1 then toks[0] else toks[0] + [32] + Join(toks[1..])
  }

  lemma {:induction false} SplitWord(w: Word, rest: seq<byte>, cur: Word)
    requires Unbroken(w)
    ensures Split(w + rest, cur) == Split(rest, cur + w)
  {
    if w == [] {
      assert w + rest == rest && cur + w == cur;
    } else {
      assert w[0] in w && (w + rest)[1..] == w[1..] + rest;
      SplitWord(w[1..], rest, cur + [w[0]]);
      assert cur + [w[0]] + w[1..] == cur + w;
    }
  }

  /** Joining words with spaces and splitting again changes nothing. */
  lemma {:induction false} SplitJoin(toks: seq<Word>)
    requires forall t :: t in toks ==> Solid(t)
    ensures Split(Join(toks), []) == toks
  {
    if toks != [] {
      var w := toks[0];
      assert w in toks && [] + w == w;
      if |toks| == 1 {
        assert w + [] == w;
        SplitWord(w, [], []);
      } else {
        var rest := [32] + Join(toks[1..]);
        assert w + [32] + Join(toks[1..]) == w + rest && rest[1..] == Join(toks[1..]);
        SplitWord(w, rest, []);
        SplitJoin(toks[1..]);
      }
    }
  }

  lemma {:induction false} AsciiSolid(s: string)
    requires s != "" && forall i :: 0 <= i < |s| ==> 33 <= s[i] as int < 127
    ensures Solid(Ascii(s))
  {
    var w := Ascii(s);
    forall c | c in w ensures !BoolParse.IsSpace(c) {
      var i :| 0 <= i < |w| && w[i] == c;
      assert 33 <= s[i] as int < 127;
    }
  }

  lemma {:induction false} HeadsSolid()
    ensures Solid(DASH_NAME) && Solid(DASH_PATH) && Solid(DASH_SIZE) && Solid(DASH_NEWER)
  {
    AsciiSolid("-name");
    AsciiSolid("-path");
    AsciiSolid("-size");
    AsciiSolid("-newer");
  }

  lemma {:induction false} OperatorsSolid()
    ensures Solid(STYLE.not) && Solid(STYLE.open) && Solid(STYLE.close) && Solid(STYLE.or)
  {
    AsciiSolid("!");
    AsciiSolid("(");
    AsciiSolid(")");
    AsciiSolid("-o");
  }

  lemma {:induction false} PrintSolid(e: Expr)
    requires AllPrims(e, Writable)
    ensures Every(Solid, Print(STYLE, e))
  {
    HeadsSolid();
    OperatorsSolid();
    forall a: Prim | Writable(a) ensures Every(Solid, STYLE.say(a)) { SayRead(a); }
    PrintOk(STYLE, e, Writable, Solid);
  }

  /** Parsing the text of an expression, with no parentheses but those it needs, gives
      the expression back. */
  lemma {:induction false} ExprRoundTrip(e: Expr)
    requires AllPrims(e, Writable)
    ensures Parse(Join(Print(STYLE, e))) == Some(e)
  {
    StyleSays();
    LangProper();
    PrintSolid(e);
    SplitJoin(Print(STYLE, e));
    RoundTrip(LANG, STYLE, Writable, e);
  }

  // ---------------------------------------------------------------- what a user types

  /** Before a blank the words so far are complete. */
  lemma {:induction false} SplitAppend(s: seq<byte>, rest: seq<byte>, cur: Word)
    requires rest != [] && BoolParse.IsSpace(rest[0])
    ensures Split(s + rest, cur) == Split(s, cur) + Split(rest[1..], [])
  {
    if s == [] {
      assert s + rest == rest;
    } else {
      assert (s + rest)[1..] == s[1..] + rest;
      SplitAppend(s[1..], rest, if BoolParse.IsSpace(s[0]) then [] else cur + [s[0]]);
    }
  }

  lemma {:induction false} SplitBlank(s: seq<byte>, rest: seq<byte>)
    ensures Split(s + [32] + rest, []) == Split(s, []) + Split(rest, [])
  {
    assert s + [32] + rest == s + ([32] + rest) && ([32] + rest)[1..] == rest;
    SplitAppend(s, [32] + rest, []);
  }

  lemma {:induction false} SplitOne(w: Word)
    requires Solid(w)
    ensures Split(w, []) == [w]
  {
    assert w + [] == w && [] + w == w;
    SplitWord(w, [], []);
  }

  /** A word and what follows it. */
  lemma {:induction false} SplitFirst(w: Word, rest: seq<byte>)
    requires Solid(w)
    ensures Split(w + [32] + rest, []) == [w] + Split(rest, [])
  {
    SplitBlank(w, rest);
    SplitOne(w);
  }

  /** A word with texts on both sides. */
  lemma {:induction false} SplitMiddle(s: seq<byte>, w: Word, rest: seq<byte>)
    requires Solid(w)
    ensures Split(s + ([32] + w + [32]) + rest, []) == Split(s, []) + [w] + Split(rest, [])
  {
    assert s + ([32] + w + [32]) + rest == s + [32] + (w + [32] + rest);
    SplitBlank(s, w + [32] + rest);
    SplitFirst(w, rest);
  }

  /** What can stand beside an operator: a primary, any expression in parentheses, or one of
      these with a negation before it. */
  ghost predicate Typed(s: seq<byte>, e: Expr)
    decreases e
  {
    || (e.Term? && Parse(s) == Some(e))
    || (exists t :: s == Ascii("( ") + t + Ascii(" )") && Parse(t) == Some(e))
    || (e.Not? && exists t :: Denies(s, t) && Typed(t, e.inner))
  }

  predicate Denies(s: seq<byte>, t: seq<byte>) { s == Ascii("! ") + t || s == Ascii("-not ") + t }

  lemma {:induction false} OperandOf(s: seq<byte>, e: Expr)
    requires Typed(s, e)
    ensures Operand(LANG, Split(s, []), e)
    decreases e
  {
    if e.Term? && Parse(s) == Some(e) {
      ExprExact(s, e);
      TermOperand(LANG, Split(s, []), e);
    } else if e.Not? && exists t :: Denies(s, t) && Typed(t, e.inner) {
      var t :| Denies(s, t) && Typed(t, e.inner);
      OperandOf(t, e.inner);
      Denied(s, t, e.inner);
    } else {
      var t :| s == Ascii("( ") + t + Ascii(" )") && Parse(t) == Some(e);
      Grouped(t, e);
    }
  }

  lemma {:induction false} Grouped(t: seq<byte>, e: Expr)
    requires Parse(t) == Some(e)
    ensures Operand(LANG, Split(Ascii("( ") + t + Ascii(" )"), []), e)
  {
    var open, close := Ascii("("), Ascii(")");
    OperatorsSolid();
    assert Ascii("( ") + t + Ascii(" )") == open + [32] + (t + [32] + close);
    SplitFirst(open, t + [32] + close);
    SplitBlank(t, close);
    SplitOne(close);
    ExprExact(t, e);
    GroupOperand(LANG, open, Split(t, []), close, e);
  }

  lemma {:induction false} Denied(s: seq<byte>, t: seq<byte>, m: Expr)
    requires Denies(s, t) && Operand(LANG, Split(t, []), m)
    ensures Operand(LANG, Split(s, []), Not(m))
  {
    if s == Ascii("! ") + t { Negated(t, m, "!", "! "); } else { Negated(t, m, "-not", "-not "); }
  }

  lemma {:induction false} Negated(a: seq<byte>, m: Expr, op: string, text: string)
    requires Operand(LANG, Split(a, []), m) && (op == "!" || op == "-not") && text == op + " "
    ensures Operand(LANG, Split(Ascii(text) + a, []), Not(m))
  {
    assert Ascii(text) == Ascii(op) + [32];
    AsciiSolid(op);
    SplitFirst(Ascii(op), a);
    NotOperand(LANG, Ascii(op), Split(a, []), m);
  }

  /** A primary or a group by itself, and under a negation. */
  lemma {:induction false} AloneOrNot(a: seq<byte>, m: Expr)
    requires Typed(a, m)
    ensures Parse(a) == Some(m)
    ensures Parse(Ascii("! ") + a) == Some(Not(m)) == Parse(Ascii("-not ") + a)
  {
    OperandOf(a, m);
    OperandMeans(LANG, Split(a, []), m);
    ExprExact(a, m);
    Negated(a, m, "!", "! ");
    OperandMeans(LANG, Split(Ascii("! ") + a, []), Not(m));
    ExprExact(Ascii("! ") + a, Not(m));
    Negated(a, m, "-not", "-not ");
    OperandMeans(LANG, Split(Ascii("-not ") + a, []), Not(m));
    ExprExact(Ascii("-not ") + a, Not(m));
  }

  /** How the operators combine what stands beside them. */
  lemma {:induction false} Operators(a: seq<byte>, m: Expr, b: seq<byte>, n: Expr)
    requires Typed(a, m) && Typed(b, n)
    ensures Parse(a + Ascii(" -a ") + b) == Some(And(m, n)) == Parse(a + Ascii(" -and ") + b)
    ensures Parse(a + Ascii(" ") + b) == Some(And(m, n))
    ensures Parse(a + Ascii(" -o ") + b) == Some(Or(m, n)) == Parse(a + Ascii(" -or ") + b)
  {
    OperandOf(a, m);
    OperandOf(b, n);
    Between(a, m, b, n, "-a", " -a ");
    Between(a, m, b, n, "-and", " -and ");
    Between(a, m, b, n, "-o", " -o ");
    Between(a, m, b, n, "-or", " -or ");
    Neighbours(a, m, b, n);
  }

  /** Without parentheses, conjunction binds tighter than disjunction. */
  lemma {:induction false} TighterAnd(a: seq<byte>, m: Expr, b: seq<byte>, n: Expr, c: seq<byte>, o: Expr)
    requires Typed(a, m) && Typed(b, n) && Typed(c, o)
    ensures Parse(a + Ascii(" -a ") + b + Ascii(" -o ") + c) == Some(Or(And(m, n), o))
    ensures Parse(c + Ascii(" -o ") + (a + Ascii(" -a ") + b)) == Some(Or(o, And(m, n)))
  {
    OperandOf(a, m);
    OperandOf(b, n);
    OperandOf(c, o);
    var both := a + Ascii(" -a ") + b;
    SplitBetween(a, "-a", " -a ", b);
    SplitBetween(both, "-o", " -o ", c);
    SplitBetween(c, "-o", " -o ", both);
    Precedence(LANG, Split(a, []), m, [Ascii("-a")], Split(b, []), n, Ascii("-o"), Split(c, []), o);
    ExprExact(both + Ascii(" -o ") + c, Or(And(m, n), o));
    ExprExact(c + Ascii(" -o ") + both, Or(o, And(m, n)));
  }

  lemma {:induction false} SplitBetween(a: seq<byte>, op: string, text: string, b: seq<byte>)
    requires text == " " + op + " " && (op == "-a" || op == "-and" || op == "-o" || op == "-or")
    ensures Split(a + Ascii(text) + b, []) == Split(a, []) + [Ascii(op)] + Split(b, [])
  {
    assert Ascii(text) == [32] + Ascii(op) + [32];
    AsciiSolid(op);
    SplitMiddle(a, Ascii(op), b);
  }

  lemma {:induction false} Between(a: seq<byte>, m: Expr, b: seq<byte>, n: Expr, op: string, text: string)
    requires Operand(LANG, Split(a, []), m) && Operand(LANG, Split(b, []), n)
    requires (op == "-a" || op == "-and" || op == "-o" || op == "-or") && text == " " + op + " "
    ensures Parse(a + Ascii(text) + b) == Some(if op == "-a" || op == "-and" then And(m, n) else Or(m, n))
  {
    SplitBetween(a, op, text, b);
    PairMeans(LANG, Split(a, []), m, [Ascii(op)], Split(b, []), n);
    ExprExact(a + Ascii(text) + b, if op == "-a" || op == "-and" then And(m, n) else Or(m, n));
  }

  lemma {:induction false} Neighbours(a: seq<byte>, m: Expr, b: seq<byte>, n: Expr)
    requires Operand(LANG, Split(a, []), m) && Operand(LANG, Split(b, []), n)
    ensures Parse(a + Ascii(" ") + b) == Some(And(m, n))
  {
    assert Ascii(" ") == [32];
    SplitBlank(a, b);
    PairMeans(LANG, Split(a, []), m, [], Split(b, []), n);
    assert Split(a, []) + [] + Split(b, []) == Split(a, []) + Split(b, []);
    ExprExact(a + [32] + b, And(m, n));
  }

  lemma {:induction false} PairRead(head: Word, raw: Word, a: Prim)
    requires Solid(head) && Solid(raw) && PrimOf(head, raw) == Some(a)
    ensures Parse(head + [32] + raw) == Some(Term(a))
  {
    SplitFirst(head, raw);
    SplitOne(raw);
    assert [head] + [raw] == [head, raw];
    PairSpells(head, raw, a);
    LoneOperand(LANG, [head, raw], a);
    OperandMeans(LANG, [head, raw], Term(a));
    ExprExact(head + [32] + raw, Term(a));
  }

  /** An argument as it may be typed: bare, or in quotes of either kind. */
  ghost predicate Argument(raw: Word, w: Word) {
    || (raw == w && w != [] && w[0] != '\'' as int && w[0] != '"' as int)
    || raw == Ascii("'") + w + Ascii("'")
    || raw == Ascii("\"") + w + Ascii("\"")
  }

  lemma {:induction false} ArgumentRead(raw: Word, w: Word)
    requires Argument(raw, w) && Unbroken(w)
    ensures StripQuotes(raw) == w && Solid(raw)
  {
    assert Ascii("'") == [SINGLE] && Ascii("\"") == [DOUBLE];
    if raw != w {
      assert raw[1..|raw| - 1] == w;
      forall c | c in raw ensures !BoolParse.IsSpace(c) { assert c in w || c == SINGLE || c == DOUBLE; }
    }
  }

  /** The predicates about names and times, and their arguments. */
  lemma {:induction false} NamesTyped(raw: Word, w: Word)
    requires Argument(raw, w) && Unbroken(w)
    ensures Parse(Ascii("-name ") + raw) == Some(Term(Name(w)))
    ensures Parse(Ascii("-path ") + raw) == Some(Term(Path(w)))
    ensures Parse(Ascii("-newer ") + raw) == Some(Term(Newer(w)))
  {
    ArgumentRead(raw, w);
    HeadsSolid();
    HeadsDiffer();
    PairRead(DASH_NAME, raw, Name(w));
    PairRead(DASH_PATH, raw, Path(w));
    PairRead(DASH_NEWER, raw, Newer(w));
    assert Ascii("-name ") == Ascii("-name") + [32] && Ascii("-path ") == Ascii("-path") + [32];
    assert Ascii("-newer ") == Ascii("-newer") + [32];
  }

  lemma {:induction false} HeadsDiffer()
    ensures DASH_NAME != DASH_PATH && DASH_NAME != DASH_SIZE && DASH_NAME != DASH_NEWER
    ensures DASH_PATH != DASH_SIZE && DASH_PATH != DASH_NEWER && DASH_SIZE != DASH_NEWER
  {
    assert DASH_NAME[2] == 97 && DASH_NAME[1] == 110 && DASH_PATH[2] == 97 && DASH_PATH[1] == 112;
    assert DASH_SIZE[1] == 115 && DASH_NEWER[2] == 101;
  }

  /** The comparison that a sign stands for. */
  ghost predicate Sign(sign: seq<byte>, cmp: Cmp) {
    (sign == [] && cmp == Eq) || (sign == Ascii("+") && cmp == Gt) || (sign == Ascii("-") && cmp == Lt)
  }

  /** The bytes that a unit stands for. */
  ghost predicate Scale(unit: seq<byte>, bytes: int) {
    || (unit == [] && bytes == 1) || (unit == Ascii("c") && bytes == 1) || (unit == Ascii("k") && bytes == 1024)
    || (unit == Ascii("M") && bytes == 1048576) || (unit == Ascii("G") && bytes == 1073741824)
  }

  function Saturated(v: nat): i64 { if v <= I64_MAX then v else I64_MAX }

  lemma {:induction false} BytesRead(digits: Word, unit: seq<byte>, bytes: int, v: nat)
    requires Scale(unit, bytes) && digits != [] && AllDigits(digits) && v == FromDecimal(digits) <= I64_MAX
    ensures ParseBytes(digits + unit) == Some(Saturated(v * bytes))
  {
    var s := digits + unit;
    assert digits[|digits| - 1] in digits;
    DigitsRead(digits, v);
    if unit == [] {
      assert s == digits;
    } else {
      assert unit == [unit[0]] && s[|s| - 1] == unit[0] && s[..|s| - 1] == digits;
      assert Unit(unit[0]) == Some(bytes);
    }
  }

  lemma {:induction false} SignRead(sign: seq<byte>, cmp: Cmp, rest: Word, n: i64)
    requires Sign(sign, cmp) && rest != [] && IsDigit(rest[0]) && ParseBytes(rest) == Some(n)
    ensures ParseSize(sign + rest) == Some((cmp, n))
  {
    var s := sign + rest;
    assert sign == [] || sign == [PLUS] || sign == [MINUS];
    if cmp == Eq { assert s == rest; } else { assert s[1..] == rest; }
  }

  lemma {:induction false} SizeSolid(sign: seq<byte>, cmp: Cmp, digits: Word, unit: seq<byte>, bytes: int)
    requires Sign(sign, cmp) && Scale(unit, bytes) && digits != [] && AllDigits(digits)
    ensures PlainWord(sign + (digits + unit))
  {
    var arg := sign + (digits + unit);
    assert digits[0] in digits;
    assert (sign == [] || sign == [PLUS] || sign == [MINUS]) && (unit == [] || unit == [unit[0]]);
    forall c | c in arg ensures !BoolParse.IsSpace(c) { assert c in sign || c in digits || c in unit; }
  }

  /** A size with its sign and unit. */
  lemma {:induction false} SizeTyped(sign: seq<byte>, cmp: Cmp, digits: Word, unit: seq<byte>, bytes: int, v: nat)
    requires Sign(sign, cmp) && Scale(unit, bytes)
    requires digits != [] && AllDigits(digits) && v == FromDecimal(digits) <= I64_MAX
    ensures Parse(Ascii("-size ") + (sign + (digits + unit))) == Some(Term(Size(cmp, Saturated(v * bytes))))
  {
    var arg, n := sign + (digits + unit), Saturated(v * bytes);
    BytesRead(digits, unit, bytes, v);
    assert digits[0] in digits;
    SignRead(sign, cmp, digits + unit, n);
    SizeSolid(sign, cmp, digits, unit, bytes);
    SizeHead(arg, cmp, n);
  }

  /** Nothing else is a size: a sign of comparison or none, a sign of the number or none, digits,
      and a unit or none. */
  lemma {:induction false} SizeForm(s: Word) returns (sign: seq<byte>, minus: seq<byte>, digits: Word, unit: seq<byte>)
    requires ParseSize(s).Some?
    ensures s == sign + (minus + digits + unit) && Sign(sign, ParseSize(s).value.0)
    ensures minus == [] || minus == Ascii("+") || minus == Ascii("-")
    ensures unit == [] || unit == Ascii("c") || unit == Ascii("k") || unit == Ascii("M") || unit == Ascii("G")
    ensures digits != [] && forall i :: 0 <= i < |digits| ==> '0' as int <= digits[i] <= '9' as int
  {
    assert Ascii("+") == [PLUS] && Ascii("-") == [MINUS];
    var cmp := ParseSize(s).value.0;
    sign := if cmp == Eq then [] else s[..1];
    var rest := if cmp == Eq then s else s[1..];
    assert s == sign + rest && ParseBytes(rest).Some?;
    minus, digits, unit := BytesForm(rest);
  }

  lemma {:induction false} BytesForm(s: Word) returns (minus: seq<byte>, digits: Word, unit: seq<byte>)
    requires ParseBytes(s).Some?
    ensures s == minus + digits + unit
    ensures minus == [] || minus == Ascii("+") || minus == Ascii("-")
    ensures unit == [] || unit == Ascii("c") || unit == Ascii("k") || unit == Ascii("M") || unit == Ascii("G")
    ensures digits != [] && forall i :: 0 <= i < |digits| ==> '0' as int <= digits[i] <= '9' as int
  {
    var num := s;
    unit := [];
    if s != [] && Unit(s[|s| - 1]).Some? {
      num, unit := s[..|s| - 1], [s[|s| - 1]];
      UnitLetter(s[|s| - 1]);
    }
    assert s == num + unit;
    minus, digits := NumberForm(num);
  }

  lemma {:induction false} UnitLetter(c: byte)
    requires Unit(c).Some?
    ensures [c] == Ascii("c") || [c] == Ascii("k") || [c] == Ascii("M") || [c] == Ascii("G")
  {
  }

  lemma {:induction false} NumberForm(num: Word) returns (minus: seq<byte>, digits: Word)
    requires ParseI64(num).Some?
    ensures num == minus + digits && (minus == [] || minus == Ascii("+") || minus == Ascii("-"))
    ensures digits != [] && forall i :: 0 <= i < |digits| ==> '0' as int <= digits[i] <= '9' as int
  {
    assert Ascii("+") == [PLUS] && Ascii("-") == [MINUS];
    minus, digits := [], num;
    if num[0] == PLUS || num[0] == MINUS { minus, digits := [num[0]], num[1..]; }
    forall i | 0 <= i < |digits| ensures IsDigit(digits[i]) { assert digits[i] in digits; }
  }

  /** And nothing else is a predicate. */
  lemma {:induction false} OnlyPredicates(head: Word, raw: Word)
    requires PrimOf(head, raw).Some?
    ensures head == Ascii("-name") || head == Ascii("-path") || head == Ascii("-size") || head == Ascii("-newer")
  {
  }

  lemma {:induction false} SizeHead(arg: Word, cmp: Cmp, n: i64)
    requires PlainWord(arg) && ParseSize(arg) == Some((cmp, n))
    ensures Parse(Ascii("-size ") + arg) == Some(Term(Size(cmp, n)))
  {
    HeadsSolid();
    HeadsDiffer();
    PairRead(DASH_SIZE, arg, Size(cmp, n));
    assert Ascii("-size ") == Ascii("-size") + [32];
  }

  lemma {:induction false} SplitSolid(s: seq<byte>, cur: Word)
    requires Unbroken(cur)
    ensures forall t :: t in Split(s, cur) ==> Solid(t)
  {
    if s != [] { SplitSolid(s[1..], if BoolParse.IsSpace(s[0]) then [] else cur + [s[0]]); }
  }

  lemma {:induction false} SpelledWritable(part: seq<Word>, a: Prim)
    requires Spells(LANG, part, a) && Every(Solid, part)
    ensures Writable(a)
  {
    SpelledByPair(part, a);
    var raw := part[1];
    var arg := StripQuotes(raw);
    forall c | c in arg ensures !BoolParse.IsSpace(c) { assert c in raw; }
    if a.Size? && a.cmp == Eq { NegativeEqualityUnwritable(part, a.n); }
  }

  /** An expression can be written as a text at all if and only if its primaries can. */
  lemma {:induction false} WritableIff(e: Expr)
    ensures (exists s :: Parse(s) == Some(e)) <==> AllPrims(e, Writable)
  {
    if AllPrims(e, Writable) { ExprRoundTrip(e); }
    if exists s :: Parse(s) == Some(e) {
      var s :| Parse(s) == Some(e);
      ExprExact(s, e);
      var toks := Split(s, []);
      var syn: Syn<Word, Prim> :| IsOr(LANG, syn) && Render(syn) == toks && Tree(syn) == e;
      SplitSolid(s, []);
      forall i | 0 <= i < |toks| ensures Solid(toks[i]) { assert toks[i] in toks; }
      forall part: seq<Word>, a: Prim | Spells(LANG, part, a) && Every(Solid, part) ensures Writable(a) {
        SpelledWritable(part, a);
      }
      TreeGood(LANG, syn, Writable, Solid);
    }
  }

  // ---------------------------------------------------------------- evaluation

  /** What a caller knows of a file. */
  datatype Subject = Subject(path: Word, meta: LiteMeta) {
    /** What `-name` looks at: the file name, or the whole path where there is none. */
    function Base(): Word { match FileName(path) case Some(name) => name case None => path }
  }

  const DOT: byte := 46

  /** What ends the path does not count: a slash, or a single dot behind one. */
  predicate Drops(path: Word) { path != [] && (Basename(path) == [] || (Basename(path) == [DOT] && |path| > 1)) }

  /** The library's `file_name`: slashes and single dots at the end do not count, and neither
      the root nor a parent is a name. */
  function FileName(path: Word): Option<Word>
    decreases |path|
  {
    var base := Basename(path);
    if path == [] then None
    else if Drops(path) then FileName(path[..|path| - 1])
    else if base == [DOT] || base == [DOT, DOT] then None
    else Some(base)
  }

  predicate Normal(name: Word) {
    name != [] && SLASH !in name && name != Ascii(".") && name != Ascii("..")
  }

  /** Slashes, and dots behind slashes. */
  predicate Trailing(tail: Word) {
    tail == []
    || (tail[|tail| - 1] == SLASH && Trailing(tail[..|tail| - 1]))
    || (tail[|tail| - 1] == DOT && |tail| > 1 && tail[|tail| - 2] == SLASH && Trailing(tail[..|tail| - 1]))
  }

  /** `name` stands in `path` behind a directory part and before nothing that counts. */
  ghost predicate NamedBy(path: Word, dir: Word, name: Word, tail: Word) {
    path == dir + name + tail && (dir == [] || dir[|dir| - 1] == SLASH) && Trailing(tail)
  }

  /** The file name is the last component that is neither empty nor a single dot, unless that
      is the parent. */
  lemma {:induction false} FileNameIff(path: Word, name: Word)
    ensures FileName(path) == Some(name) <==> Normal(name) && exists dir, tail :: NamedBy(path, dir, name, tail)
  {
    if FileName(path) == Some(name) { var dir, tail := NameFound(path, name); }
    if Normal(name) && exists dir, tail :: NamedBy(path, dir, name, tail) {
      var dir, tail :| NamedBy(path, dir, name, tail);
      NameIs(path, dir, name, tail);
    }
  }

  lemma {:induction false} DropsEnd(path: Word)
    requires Drops(path)
    ensures var n := |path| - 1; path[n] == SLASH || (path[n] == DOT && n > 0 && path[n - 1] == SLASH)
  {
    var front := BasenameExact(path);
  }

  lemma {:induction false} NameFound(path: Word, name: Word) returns (dir: Word, tail: Word)
    requires FileName(path) == Some(name)
    ensures Normal(name) && NamedBy(path, dir, name, tail)
    decreases |path|
  {
    if Drops(path) {
      var front, c := path[..|path| - 1], path[|path| - 1];
      DropsEnd(path);
      dir, tail := NameFound(front, name);
      TailGrows(front, dir, name, tail, c);
      assert path == front + [c];
      tail := tail + [c];
    } else {
      dir := NameAlone(path, name);
      tail := [];
      assert path == dir + name + [];
    }
  }

  lemma {:induction false} NameAlone(path: Word, name: Word) returns (dir: Word)
    requires FileName(path) == Some(name) && !Drops(path)
    ensures Normal(name) && path == dir + name && (dir == [] || dir[|dir| - 1] == SLASH)
  {
    dir := BasenameExact(path);
    assert Ascii(".") == [DOT] && Ascii("..") == [DOT, DOT];
  }

  lemma {:induction false} TailGrows(path: Word, dir: Word, name: Word, tail: Word, c: byte)
    requires Normal(name) && NamedBy(path, dir, name, tail)
    requires c == SLASH || (c == DOT && path[|path| - 1] == SLASH)
    ensures NamedBy(path + [c], dir, name, tail + [c])
  {
    var more := tail + [c];
    assert more[..|more| - 1] == tail && path + [c] == dir + name + more;
    assert name[|name| - 1] in name;
  }

  lemma {:induction false} NameIs(path: Word, dir: Word, name: Word, tail: Word)
    requires Normal(name) && NamedBy(path, dir, name, tail)
    ensures FileName(path) == Some(name)
    decreases |tail|
  {
    if tail == [] {
      assert path == dir + name;
      NameLast(path, dir, name);
    } else {
      var front, t := tail[..|tail| - 1], tail[|tail| - 1];
      var before := path[..|path| - 1];
      assert before == dir + name + front && path == before + [t];
      NameIs(before, dir, name, front);
      assert t == SLASH || (t == DOT && before[|before| - 1] == SLASH);
      EndDropped(before, t);
    }
  }

  lemma {:induction false} NameLast(path: Word, dir: Word, name: Word)
    requires Normal(name) && path == dir + name && (dir == [] || dir[|dir| - 1] == SLASH)
    ensures FileName(path) == Some(name)
  {
    assert Ascii(".") == [DOT] && Ascii("..") == [DOT, DOT];
    BasenameIs(dir, name);
  }

  lemma {:induction false} EndDropped(before: Word, t: byte)
    requires before != [] && (t == SLASH || (t == DOT && before[|before| - 1] == SLASH))
    ensures FileName(before + [t]) == FileName(before)
  {
    var path := before + [t];
    assert path[..|path| - 1] == before && Ascii(".") == [DOT];
    if t == SLASH {
      assert [] == Basename(path);
    } else {
      BasenameIs(before, [DOT]);
    }
  }

  predicate EvalPrim(a: Prim, f: Subject, newer: Word -> Option<i64>) {
    match a
    case Name(pat) => Glob.Accepts(pat, f.Base(), 0, 0)
    case Path(pat) => Glob.Accepts(pat, f.path, 0, 0)
    case Size(Eq, n) => f.meta.size == n
    case Size(Gt, n) => f.meta.size > n
    case Size(Lt, n) => f.meta.size < n
    case Newer(file) => newer(file).Some? && f.meta.mtime > newer(file).value
  }

  predicate Eval(e: Expr, f: Subject, newer: Word -> Option<i64>) {
    match e
    case Term(a) => EvalPrim(a, f, newer)
    case Not(i) => !Eval(i, f, newer)
    case And(l, r) => Eval(l, f, newer) && Eval(r, f, newer)
    case Or(l, r) => Eval(l, f, newer) || Eval(r, f, newer)
  }

  function NewerFiles(e: Expr): seq<Word> {
    match e
    case Term(Newer(file)) => [file]
    case Term(_) => []
    case And(l, r) => NewerFiles(l) + NewerFiles(r)
    case Or(l, r) => NewerFiles(l) + NewerFiles(r)
    case Not(i) => NewerFiles(i)
  }

  /** Knowing the times of the listed files is enough to evaluate. */
  lemma {:induction false} NewerFilesSuffice(e: Expr, f: Subject, now: Word -> Option<i64>, cached: Word -> Option<i64>)
    requires forall file :: file in NewerFiles(e) ==> now(file) == cached(file)
    ensures Eval(e, f, now) == Eval(e, f, cached)
  {
    match e
    case Term(a) => if a.Newer? { assert a.file in NewerFiles(e); }
    case Not(i) => NewerFilesSuffice(i, f, now, cached);
    case And(l, r) => NewerFilesSuffice(l, f, now, cached); NewerFilesSuffice(r, f, now, cached);
    case Or(l, r) => NewerFilesSuffice(l, f, now, cached); NewerFilesSuffice(r, f, now, cached);
  }

  /** The meaning of an expression: glob patterns by their declarative meaning, sizes by the
      difference, and nothing newer than a file whose time is not known. */
  ghost predicate Holds(e: Expr, f: Subject, newer: Word -> Option<i64>) {
    match e
    case Term(Name(pat)) => Glob.Match(pat, f.Base())
    case Term(Path(pat)) => Glob.Match(pat, f.path)
    case Term(Size(cmp, n)) =>
      var excess := f.meta.size - n;
      (cmp == Eq ==> excess == 0) && (cmp == Gt ==> excess > 0) && (cmp == Lt ==> excess < 0)
    case Term(Newer(file)) => exists t :: newer(file) == Some(t) && t < f.meta.mtime
    case Not(i) => !Holds(i, f, newer)
    case And(l, r) => Holds(l, f, newer) && Holds(r, f, newer)
    case Or(l, r) => Holds(l, f, newer) || Holds(r, f, newer)
  }

  /** No pattern of a primary has a `*` where the name it is matched with has one. */
  predicate Decided(a: Prim, f: Subject) {
    match a
    case Name(pat) => Glob.Apart(pat, f.Base())
    case Path(pat) => Glob.Apart(pat, f.path)
    case _ => true
  }

  /** Evaluation then decides the meaning of the expression. */
  lemma {:induction false} EvalExact(e: Expr, f: Subject, newer: Word -> Option<i64>)
    requires AllPrims(e, (a: Prim) => Decided(a, f))
    ensures Eval(e, f, newer) <==> Holds(e, f, newer)
  {
    match e
    case Term(Name(pat)) => Glob.GlobExact(pat, f.Base());
    case Term(Path(pat)) => Glob.GlobExact(pat, f.path);
    case Term(Size(_, _)) =>
    case Term(Newer(file)) =>
      if Eval(e, f, newer) { assert newer(file) == Some(newer(file).value); }
    case Not(i) => EvalExact(i, f, newer);
    case And(l, r) => EvalExact(l, f, newer); EvalExact(r, f, newer);
    case Or(l, r) => EvalExact(l, f, newer); EvalExact(r, f, newer);
  }
}
