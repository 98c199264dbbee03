/** The boolean query language: tokens, the recursive-descent parser, and its grammar. */
module BoolParse {
  import opened Prelude
  import opened Bytes
  import opened Grammar

  type Name = seq<byte>

  type Ast = Node<Name>

  datatype Tok = Word(word: Name) | AndOp | OrOp | NotOp | LParen | RParen

  // ---------------------------------------------------------------- tokens

  const OPEN: byte := 40
  const CLOSE: byte := 41
  const AND: Name := [65, 78, 68]
  const OR: Name := [79, 82]
  const NOT: Name := [78, 79, 84]

  predicate IsSpace(c: byte) { 9 <= c <= 13 || c == 32 }

  /** The word read so far as a token; three spellings are operators. */
  function Flush(cur: Name): seq<Tok> {
    if cur == [] then []
    else if cur == AND then [AndOp]
    else if cur == OR then [OrOp]
    else if cur == NOT then [NotOp]
    else [Word(cur)]
  }

  /** The tokens of `s` when `cur` was read just before it. */
  function Scan(s: seq<byte>, cur: Name): seq<Tok> {
    if s == [] then Flush(cur)
    else if s[0] == OPEN then Flush(cur) + [LParen] + Scan(s[1..], [])
    else if s[0] == CLOSE then Flush(cur) + [RParen] + Scan(s[1..], [])
    else if IsSpace(s[0]) then Flush(cur) + Scan(s[1..], [])
    else Scan(s[1..], cur + [s[0]])
  }

  method Tokenize(s: seq<byte>) returns (toks: seq<Tok>)
    ensures toks == Scan(s, [])
  {
    toks := [];
    var cur: Name := [];
    assert s[0..] == s;
    for i := 0 to |s|
      invariant Scan(s, []) == toks + Scan(s[i..], cur)
    {
      assert s[i..][1..] == s[i + 1..];
      var c := s[i];
      ghost var rest := Scan(s[i + 1..], []);
      ghost var was, word := toks, Flush(cur);
      if c == OPEN {
        toks := toks + Flush(cur);
        cur := [];
        toks := toks + [LParen];
        assert was + (word + [LParen] + rest) == toks + rest;
      } else if c == CLOSE {
        toks := toks + Flush(cur);
        cur := [];
        toks := toks + [RParen];
        assert was + (word + [RParen] + rest) == toks + rest;
      } else if IsSpace(c) {
        toks := toks + Flush(cur);
        cur := [];
        assert was + (word + rest) == toks + rest;
      } else {
        cur := cur + [c];
      }
    }
    toks := toks + Flush(cur);
  }

  predicate InWord(c: byte) { c != OPEN && c != CLOSE && !IsSpace(c) }

  /** Spellings that stand for themselves: not empty, one word, no operator. */
  predicate LegalWord(w: Name) {
    w != [] && w != AND && w != OR && w != NOT && forall c :: c in w ==> InWord(c)
  }

  predicate Legal(t: Tok) { t.Word? ==> LegalWord(t.word) }

  function Spell(t: Tok): (s: seq<byte>)
    ensures s != [] || (t.Word? && t.word == [])
  {
    match t
    case Word(w) => w
    case AndOp => AND
    case OrOp => OR
    case NotOp => NOT
    case LParen => [OPEN]
    case RParen => [CLOSE]
  }

  predicate Paren(t: Tok) { t.LParen? || t.RParen? }

  predicate Blank(s: seq<byte>) { forall c :: c in s ==> IsSpace(c) }

  /** A text that spells `toks` in order: blanks may stand anywhere between them and
      must stand between two neighbours that are not parentheses. */
  ghost predicate Spelt(s: seq<byte>, toks: seq<Tok>)
    decreases |toks|
  {
    if toks == [] then Blank(s) else exists gap, rest :: SpeltFirst(s, toks, gap, rest) && Spelt(rest, toks[1..])
  }

  ghost predicate SpeltFirst(s: seq<byte>, toks: seq<Tok>, gap: seq<byte>, rest: seq<byte>)
    requires toks != []
  {
    && s == gap + Spell(toks[0]) + rest && Blank(gap)
    && (|toks| > 1 && !Paren(toks[0]) && !Paren(toks[1]) ==> rest != [] && IsSpace(rest[0]))
  }

  lemma {:induction false} SkipBlanks(gap: seq<byte>, rest: seq<byte>)
    requires Blank(gap)
    ensures Scan(gap + rest, []) == Scan(rest, [])
  {
    if gap == [] {
      assert gap + rest == rest;
    } else {
      assert IsSpace(gap[0]) && (gap + rest)[1..] == gap[1..] + rest;
      SkipBlanks(gap[1..], rest);
    }
  }

  lemma {:induction false} CollectWord(w: Name, rest: seq<byte>, cur: Name)
    requires forall c :: c in w ==> InWord(c)
    ensures Scan(w + rest, cur) == Scan(rest, cur + w)
  {
    if w == [] {
      assert w + rest == rest && cur + w == cur;
    } else {
      assert InWord(w[0]) && (w + rest)[1..] == w[1..] + rest;
      CollectWord(w[1..], rest, cur + [w[0]]);
      assert cur + [w[0]] + w[1..] == cur + w;
    }
  }

  /** Where a spelled text goes on, it is empty, blank, or at the next token. */
  lemma {:induction false} Continues(rest: seq<byte>, toks: seq<Tok>)
    requires Spelt(rest, toks) && forall t :: t in toks ==> Legal(t)
    requires toks != [] && !Paren(toks[0]) ==> rest != [] && IsSpace(rest[0])
    ensures rest == [] || !InWord(rest[0])
  {
    if toks != [] && Paren(toks[0]) {
      var gap, more :| SpeltFirst(rest, toks, gap, more) && Spelt(more, toks[1..]);
      if gap != [] { assert rest[0] == gap[0] && gap[0] in gap; } else { assert rest[0] == Spell(toks[0])[0]; }
    }
  }

  lemma {:induction false} FlushAt(rest: seq<byte>, cur: Name)
    requires rest == [] || !InWord(rest[0])
    ensures Scan(rest, cur) == Flush(cur) + Scan(rest, [])
  {
    if rest != [] && !IsSpace(rest[0]) {
      var p := if rest[0] == OPEN then LParen else RParen;
      assert Flush([]) + [p] == [p];
      assert Flush(cur) + [p] + Scan(rest[1..], []) == Flush(cur) + ([p] + Scan(rest[1..], []));
    }
  }

  lemma {:induction false} ScanFirst(s: seq<byte>, toks: seq<Tok>, gap: seq<byte>, rest: seq<byte>)
    requires toks != [] && SpeltFirst(s, toks, gap, rest) && Spelt(rest, toks[1..])
    requires forall t :: t in toks ==> Legal(t)
    ensures Scan(s, []) == [toks[0]] + Scan(rest, [])
  {
    var t := toks[0];
    assert s == gap + (Spell(t) + rest) && t in toks;
    SkipBlanks(gap, Spell(t) + rest);
    if Paren(t) {
      assert (Spell(t) + rest)[1..] == rest && Flush([]) + [t] == [t];
    } else {
      CollectWord(Spell(t), rest, []);
      assert [] + Spell(t) == Spell(t);
      Continues(rest, toks[1..]);
      FlushAt(rest, Spell(t));
    }
  }

  /** Tokenizing a text returns the tokens it spells, whatever the blanks. */
  lemma {:induction false} TokenizeExact(s: seq<byte>, toks: seq<Tok>)
    requires Spelt(s, toks) && forall t :: t in toks ==> Legal(t)
    ensures Scan(s, []) == toks
    decreases |toks|
  {
    if toks == [] {
      assert s + [] == s;
      SkipBlanks(s, []);
    } else {
      var gap, rest :| SpeltFirst(s, toks, gap, rest) && Spelt(rest, toks[1..]);
      ScanFirst(s, toks, gap, rest);
      TokenizeExact(rest, toks[1..]);
    }
  }

  /** Every token of every text is legal, so no word is an operator in disguise. */
  lemma {:induction false} TokensLegal(s: seq<byte>, cur: Name)
    requires forall c :: c in cur ==> InWord(c)
    ensures forall t :: t in Scan(s, cur) ==> Legal(t)
  {
    if s != [] {
      TokensLegal(s[1..], if InWord(s[0]) then cur + [s[0]] else []);
    }
  }

  // ---------------------------------------------------------------- grammar

  function WordAt(toks: seq<Tok>, p: nat): Option<(Name, nat)> {
    if p < |toks| && toks[p].Word? then Some((toks[p].word, p + 1)) else None
  }

  /** A word, `NOT` and `(` start a factor, with `AND` before it or none. */
  const LANG: Lang<Tok, Name> :=
    Lang((t: Tok) => t == OrOp, (t: Tok) => t == AndOp, (t: Tok) => t == NotOp, (t: Tok) => t == LParen,
         (t: Tok) => t == RParen,
         (t: Tok) => t.Word? || t == NotOp || t == LParen, WordAt)

  const STYLE: Style<Tok, Name> := Style((w: Name) => [Word(w)], NotOp, LParen, RParen, OrOp)

  /** The node that a text denotes, or nothing for a malformed text. */
  function Parse(s: seq<byte>): Option<Ast> { ParseTokens(LANG, Scan(s, [])) }

  method ParseQuery(s: seq<byte>) returns (r: Option<Ast>)
    ensures r == Parse(s)
  {
    var toks := Tokenize(s);
    r := ParseAll(LANG, toks);
  }

  /** A primary is exactly one word. */
  lemma {:induction false} WordSpells(w: Name)
    ensures Spells(LANG, [Word(w)], w)
  {
    forall toks: seq<Tok>, p: nat, e: nat | Stands(toks, p, e, [Word(w)]) ensures WordAt(toks, p) == Some((w, e)) {
      assert toks[p] == toks[p..e][0];
    }
  }

  lemma {:induction false} SpelledByWord(part: seq<Tok>, w: Name)
    requires Spells(LANG, part, w)
    ensures part == [Word(w)]
  {
    assert Stands(part, 0, |part|, part);
    assert LANG.prim(part, 0) == Some((w, |part|));
  }

  lemma {:induction false} LangProper()
    ensures Proper(LANG)
  {
    forall toks: seq<Tok>, p: nat ensures PrimIn(LANG, toks, p) {
      if WordAt(toks, p).Some? {
        WordSpells(toks[p].word);
        assert toks[p..p + 1] == [Word(toks[p].word)];
      }
    }
  }

  /** The parser accepts exactly what the grammar can write, with its one reading. */
  lemma {:induction false} QueryExact(s: seq<byte>, n: Ast)
    ensures Parse(s) == Some(n) <==> Means(LANG, Scan(s, []), n)
  {
    LangProper();
    ParseExact(LANG, Scan(s, []), n);
  }

  /** The words of a parsed query are legal words. */
  lemma {:induction false} ParsedLegal(s: seq<byte>, n: Ast)
    requires Parse(s) == Some(n)
    ensures AllPrims(n, LegalWord)
  {
    var toks := Scan(s, []);
    QueryExact(s, n);
    var syn: Syn<Tok, Name> :| IsOr(LANG, syn) && Render(syn) == toks && Tree(syn) == n;
    TokensLegal(s, []);
    forall part: seq<Tok>, w: Name | Spells(LANG, part, w) && Every(Legal, part) ensures LegalWord(w) {
      SpelledByWord(part, w);
      assert Legal(part[0]);
    }
    forall i | 0 <= i < |toks| ensures Legal(toks[i]) { assert toks[i] in toks; }
    TreeGood(LANG, syn, LegalWord, Legal);
  }

  /** A text without blanks and parentheses is at most one word. */
  lemma {:induction false} UnbrokenIsWord(s: seq<byte>)
    requires forall c :: c in s ==> InWord(c)
    ensures Parse(s).None? || Parse(s).value.Term?
  {
    assert s + [] == s && [] + s == s;
    CollectWord(s, [], []);
    var toks := Flush(s);
    assert Scan(s, []) == toks && |toks| <= 1;
    if Parse(s).Some? { OneToken(LANG, toks); }
  }

  // ---------------------------------------------------------------- what a user types

  /** Before a blank or a parenthesis the tokens so far are complete. */
  lemma {:induction false} ScanAppend(s: seq<byte>, rest: seq<byte>, cur: Name)
    requires rest == [] || !InWord(rest[0])
    ensures Scan(s + rest, cur) == Scan(s, cur) + Scan(rest, [])
  {
    if s == [] {
      assert s + rest == rest;
      FlushAt(rest, cur);
    } else {
      assert (s + rest)[1..] == s[1..] + rest;
      ScanAppend(s[1..], rest, if InWord(s[0]) then cur + [s[0]] else []);
    }
  }

  lemma {:induction false} ScanBlank(s: seq<byte>, c: byte, rest: seq<byte>)
    requires IsSpace(c)
    ensures Scan(s + [c] + rest, []) == Scan(s, []) + Scan(rest, [])
  {
    assert s + [c] + rest == s + ([c] + rest);
    ScanAppend(s, [c] + rest, []);
    SkipBlanks([c], rest);
  }

  lemma {:induction false} ScanWord(w: Name)
    requires forall c :: c in w ==> InWord(c)
    ensures Scan(w, []) == Flush(w)
  {
    assert w + [] == w && [] + w == w;
    CollectWord(w, [], []);
  }

  /** A word between blanks. */
  lemma {:induction false} ScanBetween(s: seq<byte>, w: Name, rest: seq<byte>)
    requires forall c :: c in w ==> InWord(c)
    ensures Scan(s + [32] + w + [32] + rest, []) == Scan(s, []) + Flush(w) + Scan(rest, [])
  {
    ScanBlank(s + [32] + w, 32, rest);
    ScanBlank(s, 32, w);
    ScanWord(w);
  }

  lemma {:induction false} ScanGroup(s: seq<byte>)
    ensures Scan([OPEN] + s + [CLOSE], []) == [LParen] + Scan(s, []) + [RParen]
  {
    assert ([OPEN] + s + [CLOSE])[1..] == s + [CLOSE] && [CLOSE][1..] == [];
    ScanAppend(s, [CLOSE], []);
    assert Flush([]) + [LParen] == [LParen] && Flush([]) + [RParen] + [] == [RParen];
    assert [LParen] + (Scan(s, []) + [RParen]) == [LParen] + Scan(s, []) + [RParen];
  }

  /** What can stand beside an operator: a word of its own, any query in parentheses, or one
      of these with `NOT` before it. */
  ghost predicate Typed(s: seq<byte>, n: Ast)
    decreases n
  {
    || (n == Term(s) && PlainWord(s))
    || (exists t :: s == Ascii("(") + t + Ascii(")") && Parse(t) == Some(n))
    || (n.Not? && exists t :: s == Ascii("NOT ") + t && Typed(t, n.inner))
  }

  predicate PlainWord(w: Name) {
    && w != [] && w != Ascii("AND") && w != Ascii("OR") && w != Ascii("NOT")
    && forall c :: c in w ==> !(9 <= c <= 13) && c != ' ' as int && c != '(' as int && c != ')' as int
  }

  lemma {:induction false} OperatorTexts()
    ensures Ascii("AND") == AND && Ascii("OR") == OR && Ascii("NOT") == NOT
    ensures Ascii("(") == [OPEN] && Ascii(")") == [CLOSE]
    ensures Ascii(" AND ") == [32] + AND + [32] && Ascii(" OR ") == [32] + OR + [32] && Ascii("NOT ") == NOT + [32]
  {
  }

  lemma {:induction false} OperandOf(s: seq<byte>, n: Ast)
    requires Typed(s, n)
    ensures Operand(LANG, Scan(s, []), n)
    decreases n
  {
    OperatorTexts();
    if n == Term(s) && PlainWord(s) {
      ScanWord(s);
      WordSpells(s);
      LoneOperand(LANG, [Word(s)], s);
    } else if n.Not? && exists t :: s == Ascii("NOT ") + t && Typed(t, n.inner) {
      var t :| s == Ascii("NOT ") + t && Typed(t, n.inner);
      OperandOf(t, n.inner);
      ScanNot(t);
      NotOperand(LANG, NotOp, Scan(t, []), n.inner);
    } else {
      var t :| s == Ascii("(") + t + Ascii(")") && Parse(t) == Some(n);
      ScanGroup(t);
      QueryExact(t, n);
      GroupOperand(LANG, LParen, Scan(t, []), RParen, n);
    }
  }

  lemma {:induction false} ScanNot(a: seq<byte>)
    ensures Scan(Ascii("NOT ") + a, []) == [NotOp] + Scan(a, [])
  {
    OperatorTexts();
    ScanBlank(NOT, 32, a);
    ScanWord(NOT);
  }

  /** How the words and signs that a user types combine what stands beside them. */
  lemma {:induction false} Operators(a: seq<byte>, m: Ast, b: seq<byte>, n: Ast)
    requires Typed(a, m) && Typed(b, n)
    ensures Parse(a) == Some(m)
    ensures Parse(Ascii("NOT ") + a) == Some(Not(m))
    ensures Parse(a + Ascii(" AND ") + b) == Some(And(m, n))
    ensures Parse(a + Ascii(" OR ") + b) == Some(Or(m, n))
    ensures forall c: byte :: 9 <= c <= 13 || c == ' ' as int ==> Parse(a + [c] + b) == Some(And(m, n))
  {
    OperandOf(a, m);
    OperandOf(b, n);
    OperandMeans(LANG, Scan(a, []), m);
    QueryExact(a, m);
    Negation(a, m);
    Conjunction(a, m, b, n);
    Disjunction(a, m, b, n);
    forall c: byte | 9 <= c <= 13 || c == ' ' as int ensures Parse(a + [c] + b) == Some(And(m, n)) {
      Juxtaposition(a, m, c, b, n);
    }
  }

  lemma {:induction false} Juxtaposition(a: seq<byte>, m: Ast, c: byte, b: seq<byte>, n: Ast)
    requires Operand(LANG, Scan(a, []), m) && Operand(LANG, Scan(b, []), n) && IsSpace(c)
    ensures Parse(a + [c] + b) == Some(And(m, n))
  {
    var ta, tb := Scan(a, []), Scan(b, []);
    ScanBlank(a, c, b);
    PairMeans(LANG, ta, m, [], tb, n);
    assert ta + [] + tb == ta + tb;
    QueryExact(a + [c] + b, And(m, n));
  }

  lemma {:induction false} Negation(a: seq<byte>, m: Ast)
    requires Operand(LANG, Scan(a, []), m)
    ensures Parse(Ascii("NOT ") + a) == Some(Not(m))
  {
    ScanNot(a);
    NotOperand(LANG, NotOp, Scan(a, []), m);
    OperandMeans(LANG, [NotOp] + Scan(a, []), Not(m));
    QueryExact(Ascii("NOT ") + a, Not(m));
  }

  lemma {:induction false} ScanAnd(a: seq<byte>, b: seq<byte>)
    ensures Scan(a + Ascii(" AND ") + b, []) == Scan(a, []) + [AndOp] + Scan(b, [])
  {
    OperatorTexts();
    assert a + Ascii(" AND ") + b == a + [32] + AND + [32] + b;
    ScanBetween(a, AND, b);
  }

  lemma {:induction false} ScanOr(a: seq<byte>, b: seq<byte>)
    ensures Scan(a + Ascii(" OR ") + b, []) == Scan(a, []) + [OrOp] + Scan(b, [])
  {
    OperatorTexts();
    assert a + Ascii(" OR ") + b == a + [32] + OR + [32] + b;
    ScanBetween(a, OR, b);
  }

  lemma {:induction false} Conjunction(a: seq<byte>, m: Ast, b: seq<byte>, n: Ast)
    requires Operand(LANG, Scan(a, []), m) && Operand(LANG, Scan(b, []), n)
    ensures Parse(a + Ascii(" AND ") + b) == Some(And(m, n))
  {
    ScanAnd(a, b);
    PairMeans(LANG, Scan(a, []), m, [AndOp], Scan(b, []), n);
    QueryExact(a + Ascii(" AND ") + b, And(m, n));
  }

  lemma {:induction false} Disjunction(a: seq<byte>, m: Ast, b: seq<byte>, n: Ast)
    requires Operand(LANG, Scan(a, []), m) && Operand(LANG, Scan(b, []), n)
    ensures Parse(a + Ascii(" OR ") + b) == Some(Or(m, n))
  {
    ScanOr(a, b);
    PairMeans(LANG, Scan(a, []), m, [OrOp], Scan(b, []), n);
    QueryExact(a + Ascii(" OR ") + b, Or(m, n));
  }

  /** Without parentheses, conjunction binds tighter than disjunction. */
  lemma {:induction false} TighterAnd(a: seq<byte>, m: Ast, b: seq<byte>, n: Ast, c: seq<byte>, o: Ast)
    requires Typed(a, m) && Typed(b, n) && Typed(c, o)
    ensures Parse(a + Ascii(" AND ") + b + Ascii(" OR ") + c) == Some(Or(And(m, n), o))
    ensures Parse(c + Ascii(" OR ") + (a + Ascii(" AND ") + b)) == Some(Or(o, And(m, n)))
  {
    OperandOf(a, m);
    OperandOf(b, n);
    OperandOf(c, o);
    var both := a + Ascii(" AND ") + b;
    ScanAnd(a, b);
    ScanOr(both, c);
    ScanOr(c, both);
    Precedence(LANG, Scan(a, []), m, [AndOp], Scan(b, []), n, OrOp, Scan(c, []), o);
    QueryExact(both + Ascii(" OR ") + c, Or(And(m, n), o));
    QueryExact(c + Ascii(" OR ") + both, Or(o, And(m, n)));
  }

  // ---------------------------------------------------------------- printing

  predicate LegalAst(n: Ast) { AllPrims(n, LegalWord) }

  lemma {:induction false} RenderLegal(s: Syn<Tok, Name>)
    requires IsOr(LANG, s) && LegalAst(Tree(s))
    ensures forall t :: t in Render(s) ==> Legal(t)
  {
    forall part: seq<Tok>, w: Name | Spells(LANG, part, w) && LegalWord(w) ensures Every(Legal, part) {
      SpelledByWord(part, w);
    }
    assert SpellsOk(LANG, LegalWord, Legal);
    RenderOk(LANG, s, LegalWord, Legal);
  }

  lemma {:induction false} StyleSays()
    ensures Says(LANG, STYLE, LegalWord) && Writes(LANG, STYLE)
  {
    forall w: Name ensures Spells(LANG, STYLE.say(w), w) { WordSpells(w); }
  }

  /** A node as text: its tokens with one space before each but the first. */
  function Join(toks: seq<Tok>): seq<byte> {
    if toks == [] then []
    else if |toks| == 1 then Spell(toks[0])
    else Spell(toks[0]) + [32] + Join(toks[1..])
  }

  lemma {:induction false} JoinSpells(toks: seq<Tok>, gap: seq<byte>)
    requires Blank(gap)
    ensures Spelt(gap + Join(toks), toks)
    decreases |toks|
  {
    if toks == [] {
      assert gap + [] == gap;
    } else {
      var t := Spell(toks[0]);
      var rest := if |toks| == 1 then [] else [32] + Join(toks[1..]);
      if |toks| > 1 { JoinSpells(toks[1..], [32]); } else { assert Blank(rest); }
      assert gap + Join(toks) == gap + t + rest;
      assert SpeltFirst(gap + Join(toks), toks, gap, rest);
    }
  }

  /** Any text that spells a well-formed rendering denotes its tree. */
  lemma {:induction false} TextRoundTrip(s: Syn<Tok, Name>, text: seq<byte>)
    requires IsOr(LANG, s) && LegalAst(Tree(s)) && Spelt(text, Render(s))
    ensures Parse(text) == Some(Tree(s))
  {
    RenderLegal(s);
    TokenizeExact(text, Render(s));
    LangProper();
    ParseComplete(LANG, s);
  }

  /** Parsing the text of a node, with no parentheses but those it needs, gives the
      node back. */
  lemma {:induction false} QueryRoundTrip(n: Ast)
    requires LegalAst(n)
    ensures Parse(Join(Print(STYLE, n))) == Some(n)
  {
    StyleSays();
    PrintedFits(LANG, STYLE, LegalWord, n);
    JoinSpells(Print(STYLE, n), []);
    assert [] + Join(Print(STYLE, n)) == Join(Print(STYLE, n));
    TextRoundTrip(AsOr(STYLE, n), Join(Print(STYLE, n)));
  }

  /** The printed form is the shortest way to write the node. */
  lemma {:induction false} PrintedIsShortest(s: Syn<Tok, Name>)
    requires IsOr(LANG, s)
    ensures |Print(STYLE, Tree(s))| <= |Render(s)|
  {
    forall part: seq<Tok>, w: Name | Spells(LANG, part, w) ensures |STYLE.say(w)| <= |part| { SpelledByWord(part, w); }
    PrintShortest(LANG, STYLE, s);
  }
}
