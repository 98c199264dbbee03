/** The expression grammar that both query languages share, and its recursive-descent
    parser: negation binds tighter than conjunction, conjunction tighter than
    disjunction, and neighbouring factors are conjoined. */
module Grammar {
  import opened Prelude

  datatype Node<A> =
    | Term(prim: A)
    | And(left: Node<A>, right: Node<A>)
    | Or(left: Node<A>, right: Node<A>)
    | Not(inner: Node<A>)

  /** How a language spells the grammar: which tokens are operators and parentheses,
      which may start a factor, and how a primary is read from a position on. */
  datatype Lang<!T, !A> = Lang(
    isOr: T -> bool, isAnd: T -> bool, isNot: T -> bool, isOpen: T -> bool, isClose: T -> bool,
    starts: T -> bool, prim: (seq<T>, nat) -> Option<(A, nat)>)

  type Parsed<A> = Option<(Node<A>, nat)>

  /** No token plays two parts, and a primary ends behind its start and does not depend
      on what stands around it. */
  ghost predicate Proper<T(!new), A(!new)>(g: Lang<T, A>) {
    && (forall t :: g.isOr(t) ==> !g.isAnd(t) && !g.starts(t))
    && (forall t :: g.isClose(t) ==> !g.isAnd(t) && !g.starts(t) && !g.isOr(t))
    && (forall t :: g.isNot(t) ==> g.starts(t))
    && (forall t :: g.isOpen(t) ==> g.starts(t) && !g.isNot(t))
    && (forall t :: g.starts(t) ==> !g.isAnd(t))
    && (forall toks: seq<T>, p: nat :: PrimIn(g, toks, p))
  }

  ghost predicate PrimIn<T(!new), A(!new)>(g: Lang<T, A>, toks: seq<T>, p: nat) {
    g.prim(toks, p).Some? ==>
      var (a, q) := g.prim(toks, p).value;
      p < q <= |toks| && Head(g, toks[p]) && Spells(g, toks[p..q], a)
  }

  /** A token that a primary starts with. */
  predicate Head<T, A>(g: Lang<T, A>, t: T) { g.starts(t) && !g.isNot(t) && !g.isOpen(t) }

  /** Wherever `part` stands, it reads as the primary `a`. */
  ghost predicate Spells<T(!new), A(!new)>(g: Lang<T, A>, part: seq<T>, a: A) {
    && part != [] && Head(g, part[0])
    && forall toks: seq<T>, p: nat, e: nat :: Stands(toks, p, e, part) ==> g.prim(toks, p) == Some((a, e))
  }

  /** `part` stands from `p` to `e` in `toks`. */
  ghost predicate Stands<T>(toks: seq<T>, p: nat, e: nat, part: seq<T>) {
    p <= e <= |toks| && toks[p..e] == part
  }

  // ---------------------------------------------------------------- parser

  predicate At<T>(test: T -> bool, toks: seq<T>, p: nat) { p < |toks| && test(toks[p]) }

  /** The primary at `p`, if it ends within the tokens. */
  function PrimAt<T, A>(g: Lang<T, A>, toks: seq<T>, p: nat): (r: Option<(A, nat)>)
    ensures r.Some? ==> p < r.value.1 <= |toks|
  {
    var r := g.prim(toks, p);
    if r.Some? && p < r.value.1 <= |toks| then r else None
  }

  function ParseFactor<T, A>(g: Lang<T, A>, toks: seq<T>, p: nat): (r: Parsed<A>)
    ensures r.Some? ==> p < r.value.1 <= |toks|
    decreases |toks| - p, 0
  {
    if p >= |toks| then None
    else if g.isNot(toks[p]) then
      match ParseFactor(g, toks, p + 1)
      case None => None
      case Some((f, q)) => Some((Not(f), q))
    else if g.isOpen(toks[p]) then
      match ParseOr(g, toks, p + 1)
      case None => None
      case Some((e, q)) => if At(g.isClose, toks, q) then Some((e, q + 1)) else None
    else
      match PrimAt(g, toks, p)
      case None => None
      case Some((a, q)) => Some((Term(a), q))
  }

  function ParseAnd<T, A>(g: Lang<T, A>, toks: seq<T>, p: nat): (r: Parsed<A>)
    ensures r.Some? ==> p < r.value.1 <= |toks|
    decreases |toks| - p, 2
  {
    match ParseFactor(g, toks, p)
    case None => None
    case Some((left, q)) => AndTail(g, toks, q, left)
  }

  /** The operands behind `left`, each with an operator before it or none. */
  function AndTail<T, A>(g: Lang<T, A>, toks: seq<T>, p: nat, left: Node<A>): (r: Parsed<A>)
    requires p <= |toks|
    ensures r.Some? ==> p <= r.value.1 <= |toks|
    decreases |toks| - p, 1
  {
    if !At(g.isAnd, toks, p) && !At(g.starts, toks, p) then Some((left, p))
    else
      match ParseFactor(g, toks, if At(g.isAnd, toks, p) then p + 1 else p)
      case None => None
      case Some((right, q)) => AndTail(g, toks, q, And(left, right))
  }

  function ParseOr<T, A>(g: Lang<T, A>, toks: seq<T>, p: nat): (r: Parsed<A>)
    ensures r.Some? ==> p < r.value.1 <= |toks|
    decreases |toks| - p, 3
  {
    match ParseAnd(g, toks, p)
    case None => None
    case Some((left, q)) => OrTail(g, toks, q, left)
  }

  function OrTail<T, A>(g: Lang<T, A>, toks: seq<T>, p: nat, left: Node<A>): (r: Parsed<A>)
    requires p <= |toks|
    ensures r.Some? ==> p <= r.value.1 <= |toks|
    decreases |toks| - p, 1
  {
    if !At(g.isOr, toks, p) then Some((left, p))
    else
      match ParseAnd(g, toks, p + 1)
      case None => None
      case Some((right, q)) => OrTail(g, toks, q, Or(left, right))
  }

  function ParseTokens<T, A>(g: Lang<T, A>, toks: seq<T>): Option<Node<A>> {
    match ParseOr(g, toks, 0)
    case None => None
    case Some((n, p)) => if p == |toks| then Some(n) else None
  }

  /** What a parser method returned, and where it stopped if it succeeded. */
  ghost predicate Agrees<A>(r: Option<Node<A>>, pos: nat, spec: Parsed<A>) {
    match spec
    case None => r.None?
    case Some((n, q)) => r == Some(n) && pos == q
  }

  class Parser<T, A> {
    const g: Lang<T, A>
    const toks: seq<T>
    var pos: nat

    constructor (g: Lang<T, A>, toks: seq<T>)
      ensures this.g == g && this.toks == toks && pos == 0
    {
      this.g, this.toks, pos := g, toks, 0;
    }

    function Peek(): Option<T>
      reads this
    {
      if pos < |toks| then Some(toks[pos]) else None
    }

    method Bump() returns (t: Option<T>)
      modifies this
      ensures t == old(Peek()) && pos == if t.Some? then old(pos) + 1 else old(pos)
    {
      t := Peek();
      if t.Some? { pos := pos + 1; }
    }

    method Or() returns (r: Option<Node<A>>)
      requires pos <= |toks|
      modifies this
      ensures pos <= |toks| && Agrees(r, pos, ParseOr(g, toks, old(pos)))
      decreases |toks| - pos, 3
    {
      r := And();
      if r.None? { return; }
      var left := r.value;
      while Peek().Some? && g.isOr(Peek().value)
        invariant old(pos) < pos <= |toks|
        invariant ParseOr(g, toks, old(pos)) == OrTail(g, toks, pos, left)
        decreases |toks| - pos
      {
        var op := Bump();
        r := And();
        if r.None? { return; }
        left := Node.Or(left, r.value);
      }
      return Some(left);
    }

    method And() returns (r: Option<Node<A>>)
      requires pos <= |toks|
      modifies this
      ensures pos <= |toks| && Agrees(r, pos, ParseAnd(g, toks, old(pos)))
      decreases |toks| - pos, 2
    {
      r := Factor();
      if r.None? { return; }
      var left := r.value;
      while true
        invariant old(pos) < pos <= |toks|
        invariant ParseAnd(g, toks, old(pos)) == AndTail(g, toks, pos, left)
        decreases |toks| - pos
      {
        var next := Peek();
        if next.Some? && g.isAnd(next.value) {
          var op := Bump();
        } else if !(next.Some? && g.starts(next.value)) {
          break;
        }
        r := Factor();
        if r.None? { return; }
        left := Node.And(left, r.value);
      }
      return Some(left);
    }

    method Factor() returns (r: Option<Node<A>>)
      requires pos <= |toks|
      modifies this
      ensures pos <= |toks| && Agrees(r, pos, ParseFactor(g, toks, old(pos)))
      decreases |toks| - pos, 1
    {
      var head := Bump();
      if head.None? { return None; }
      if g.isNot(head.value) {
        r := Factor();
        if r.Some? { r := Some(Node.Not(r.value)); }
      } else if g.isOpen(head.value) {
        r := Or();
        if r.None? { return; }
        var close := Bump();
        if !(close.Some? && g.isClose(close.value)) { r := None; }
      } else {
        var p := PrimAt(g, toks, pos - 1);
        if p.None? { return None; }
        pos := p.value.1;
        r := Some(Term(p.value.0));
      }
    }
  }

  method ParseAll<T, A>(g: Lang<T, A>, toks: seq<T>) returns (r: Option<Node<A>>)
    ensures r == ParseTokens(g, toks)
  {
    var p := new Parser(g, toks);
    r := p.Or();
    if r.Some? && p.pos != |p.toks| { r := None; }
  }

  // ---------------------------------------------------------------- grammar

  /** Concrete syntax: an expression as it can be written, token by token. */
  datatype Syn<T, A> =
    | Lone(part: seq<T>, prim: A)
    | Negated(op: T, inner: Syn<T, A>)
    | Grouped(open: T, inner: Syn<T, A>, close: T)
    | Both(left: Syn<T, A>, ops: seq<T>, right: Syn<T, A>)
    | Either(left: Syn<T, A>, op: T, right: Syn<T, A>)

  ghost predicate IsFactor<T(!new), A(!new)>(g: Lang<T, A>, s: Syn<T, A>)
    decreases s, 0
  {
    match s
    case Lone(part, a) => Spells(g, part, a)
    case Negated(op, i) => g.isNot(op) && IsFactor(g, i)
    case Grouped(open, i, close) => g.isOpen(open) && g.isClose(close) && IsOr(g, i)
    case _ => false
  }

  ghost predicate IsAnd<T(!new), A(!new)>(g: Lang<T, A>, s: Syn<T, A>)
    decreases s, 1
  {
    IsFactor(g, s) || (s.Both? && IsAnd(g, s.left) && AndOps(g, s.ops) && IsFactor(g, s.right))
  }

  ghost predicate AndOps<T, A>(g: Lang<T, A>, ops: seq<T>) { ops == [] || (|ops| == 1 && g.isAnd(ops[0])) }

  ghost predicate IsOr<T(!new), A(!new)>(g: Lang<T, A>, s: Syn<T, A>)
    decreases s, 2
  {
    IsAnd(g, s) || (s.Either? && IsOr(g, s.left) && g.isOr(s.op) && IsAnd(g, s.right))
  }

  function Render<T, A>(s: Syn<T, A>): seq<T> {
    match s
    case Lone(part, _) => part
    case Negated(op, i) => [op] + Render(i)
    case Grouped(open, i, close) => [open] + Render(i) + [close]
    case Both(l, ops, r) => Render(l) + ops + Render(r)
    case Either(l, op, r) => Render(l) + [op] + Render(r)
  }

  function Tree<T, A>(s: Syn<T, A>): Node<A> {
    match s
    case Lone(_, a) => Term(a)
    case Negated(_, i) => Not(Tree(i))
    case Grouped(_, i, _) => Tree(i)
    case Both(l, _, r) => And(Tree(l), Tree(r))
    case Either(l, _, r) => Or(Tree(l), Tree(r))
  }

  lemma {:induction false} StandParts<T>(toks: seq<T>, p: nat, e: nat, a: seq<T>, b: seq<T>) returns (q: nat)
    requires Stands(toks, p, e, a + b)
    ensures q == p + |a| && Stands(toks, p, q, a) && Stands(toks, q, e, b)
  {
    q := p + |a|;
    Halves(toks, p, a, b);
  }

  lemma {:induction false} StandsAt<T>(toks: seq<T>, p: nat, e: nat, part: seq<T>)
    requires Stands(toks, p, e, part) && part != []
    ensures p < |toks| && toks[p] == part[0]
  {
    assert toks[p] == toks[p..e][0];
  }

  lemma {:induction false} LoneComplete<T(!new), A(!new)>(g: Lang<T, A>, toks: seq<T>, p: nat, e: nat, part: seq<T>,
      a: A)
    requires Stands(toks, p, e, part) && Spells(g, part, a)
    ensures ParseFactor(g, toks, p) == Some((Term(a), e)) && At(g.starts, toks, p)
  {
    StandsAt(toks, p, e, part);
    assert g.prim(toks, p) == Some((a, e));
    assert |part| == e - p;
  }

  lemma {:induction false} FactorComplete<T(!new), A(!new)>(g: Lang<T, A>, toks: seq<T>, p: nat, e: nat, s: Syn<T, A>)
    requires Proper(g) && IsFactor(g, s) && Stands(toks, p, e, Render(s))
    ensures ParseFactor(g, toks, p) == Some((Tree(s), e)) && At(g.starts, toks, p)
    decreases s, 0
  {
    match s
    case Lone(part, a) =>
      LoneComplete(g, toks, p, e, part, a);
    case Negated(op, i) =>
      var q := StandParts(toks, p, e, [op], Render(i));
      StandsAt(toks, p, q, [op]);
      FactorComplete(g, toks, q, e, i);
    case Grouped(open, i, close) =>
      var end := StandParts(toks, p, e, [open] + Render(i), [close]);
      var q := StandParts(toks, p, end, [open], Render(i));
      StandsAt(toks, p, q, [open]);
      StandsAt(toks, end, e, [close]);
      OrComplete(g, toks, q, end, i);
  }

  lemma {:induction false} AndStep<T(!new), A(!new)>(g: Lang<T, A>, toks: seq<T>, q: nat, start: nat, e: nat,
      left: Node<A>, ops: seq<T>, right: Node<A>)
    requires Proper(g) && AndOps(g, ops) && Stands(toks, q, start, ops) && start <= e <= |toks|
    requires At(g.starts, toks, start) && ParseFactor(g, toks, start) == Some((right, e))
    ensures AndTail(g, toks, q, left) == AndTail(g, toks, e, And(left, right))
  {
    if ops != [] { StandsAt(toks, q, start, ops); }
  }

  /** The loop of the conjunction level passes over `s` and stands behind it. */
  lemma {:induction false} AndComplete<T(!new), A(!new)>(g: Lang<T, A>, toks: seq<T>, p: nat, e: nat, s: Syn<T, A>)
    requires Proper(g) && IsAnd(g, s) && Stands(toks, p, e, Render(s))
    ensures ParseAnd(g, toks, p) == AndTail(g, toks, e, Tree(s))
    decreases s, 1
  {
    if IsFactor(g, s) {
      FactorComplete(g, toks, p, e, s);
    } else {
      var start := StandParts(toks, p, e, Render(s.left) + s.ops, Render(s.right));
      var q := StandParts(toks, p, start, Render(s.left), s.ops);
      AndComplete(g, toks, p, q, s.left);
      FactorComplete(g, toks, start, e, s.right);
      AndStep(g, toks, q, start, e, Tree(s.left), s.ops, Tree(s.right));
    }
  }

  /** No factor and no conjunction at `p`: the inner loop ends there. */
  predicate AndEnds<T, A>(g: Lang<T, A>, toks: seq<T>, p: nat) { !At(g.isAnd, toks, p) && !At(g.starts, toks, p) }

  lemma {:induction false} OrStep<T(!new), A(!new)>(g: Lang<T, A>, toks: seq<T>, q: nat, e: nat, left: Node<A>,
      right: Node<A>)
    requires Proper(g) && At(g.isOr, toks, q) && q < e <= |toks| && AndEnds(g, toks, e)
    requires ParseAnd(g, toks, q + 1) == AndTail(g, toks, e, right)
    ensures OrTail(g, toks, q, left) == OrTail(g, toks, e, Or(left, right)) && AndEnds(g, toks, q)
  {
  }

  /** Likewise the outer loop, when no further operand of a conjunction follows. */
  lemma {:induction false} OrComplete<T(!new), A(!new)>(g: Lang<T, A>, toks: seq<T>, p: nat, e: nat, s: Syn<T, A>)
    requires Proper(g) && IsOr(g, s) && Stands(toks, p, e, Render(s)) && AndEnds(g, toks, e)
    ensures ParseOr(g, toks, p) == OrTail(g, toks, e, Tree(s))
    decreases s, 2
  {
    if IsAnd(g, s) {
      AndComplete(g, toks, p, e, s);
    } else {
      var start := StandParts(toks, p, e, Render(s.left) + [s.op], Render(s.right));
      var q := StandParts(toks, p, start, Render(s.left), [s.op]);
      StandsAt(toks, q, start, [s.op]);
      AndComplete(g, toks, start, e, s.right);
      assert Render(s.right) != [] by { AndNotEmpty(g, s.right); }
      OrStep(g, toks, q, e, Tree(s.left), Tree(s.right));
      OrComplete(g, toks, p, q, s.left);
    }
  }

  lemma {:induction false} AndNotEmpty<T(!new), A(!new)>(g: Lang<T, A>, s: Syn<T, A>)
    requires IsAnd(g, s)
    ensures Render(s) != []
  {
    if !IsFactor(g, s) { AndNotEmpty(g, s.left); }
  }

  /** Everything the grammar can write is read back as the tree it stands for. */
  lemma {:induction false} ParseComplete<T(!new), A(!new)>(g: Lang<T, A>, s: Syn<T, A>)
    requires Proper(g) && IsOr(g, s)
    ensures ParseTokens(g, Render(s)) == Some(Tree(s))
  {
    assert Render(s)[0..|Render(s)|] == Render(s);
    OrComplete(g, Render(s), 0, |Render(s)|, s);
  }

  lemma {:induction false} FactorSound<T(!new), A(!new)>(g: Lang<T, A>, toks: seq<T>, p: nat) returns (s: Syn<T, A>)
    requires Proper(g) && ParseFactor(g, toks, p).Some?
    ensures var (n, q) := ParseFactor(g, toks, p).value; IsFactor(g, s) && Tree(s) == n && toks[p..q] == Render(s)
    decreases |toks| - p, 0
  {
    var (n, q) := ParseFactor(g, toks, p).value;
    var t := toks[p];
    if g.isNot(t) {
      var i := FactorSound(g, toks, p + 1);
      s := Negated(t, i);
      assert toks[p..q] == [t] + toks[p + 1..q];
    } else if g.isOpen(t) {
      var i := OrSound(g, toks, p + 1);
      s := Grouped(t, i, toks[q - 1]);
      assert toks[p..q] == [t] + toks[p + 1..q - 1] + [toks[q - 1]];
    } else {
      assert PrimIn(g, toks, p);
      s := Lone(toks[p..q], g.prim(toks, p).value.0);
    }
  }

  lemma {:induction false} AndSound<T(!new), A(!new)>(g: Lang<T, A>, toks: seq<T>, p: nat) returns (s: Syn<T, A>)
    requires Proper(g) && ParseAnd(g, toks, p).Some?
    ensures var (n, q) := ParseAnd(g, toks, p).value; IsAnd(g, s) && Tree(s) == n && toks[p..q] == Render(s)
    decreases |toks| - p, 2
  {
    var f := FactorSound(g, toks, p);
    s := AndTailSound(g, toks, p, ParseFactor(g, toks, p).value.1, f);
  }

  lemma {:induction false} AndTailSound<T(!new), A(!new)>(g: Lang<T, A>, toks: seq<T>, from: nat, p: nat,
      l: Syn<T, A>) returns (s: Syn<T, A>)
    requires Proper(g) && from < p <= |toks| && IsAnd(g, l) && toks[from..p] == Render(l)
    requires AndTail(g, toks, p, Tree(l)).Some?
    ensures var (n, q) := AndTail(g, toks, p, Tree(l)).value; IsAnd(g, s) && Tree(s) == n && toks[from..q] == Render(s)
    decreases |toks| - p, 1
  {
    if AndEnds(g, toks, p) {
      s := l;
    } else {
      var start := if At(g.isAnd, toks, p) then p + 1 else p;
      var ops := toks[p..start];
      var r := FactorSound(g, toks, start);
      var q := ParseFactor(g, toks, start).value.1;
      assert toks[from..start] == toks[from..p] + ops;
      assert toks[from..q] == toks[from..start] + toks[start..q];
      s := AndTailSound(g, toks, from, q, Both(l, ops, r));
    }
  }

  lemma {:induction false} OrSound<T(!new), A(!new)>(g: Lang<T, A>, toks: seq<T>, p: nat) returns (s: Syn<T, A>)
    requires Proper(g) && ParseOr(g, toks, p).Some?
    ensures var (n, q) := ParseOr(g, toks, p).value; IsOr(g, s) && Tree(s) == n && toks[p..q] == Render(s)
    decreases |toks| - p, 3
  {
    var a := AndSound(g, toks, p);
    s := OrTailSound(g, toks, p, ParseAnd(g, toks, p).value.1, a);
  }

  lemma {:induction false} OrTailSound<T(!new), A(!new)>(g: Lang<T, A>, toks: seq<T>, from: nat, p: nat,
      l: Syn<T, A>) returns (s: Syn<T, A>)
    requires Proper(g) && from < p <= |toks| && IsOr(g, l) && toks[from..p] == Render(l)
    requires OrTail(g, toks, p, Tree(l)).Some?
    ensures var (n, q) := OrTail(g, toks, p, Tree(l)).value; IsOr(g, s) && Tree(s) == n && toks[from..q] == Render(s)
    decreases |toks| - p, 1
  {
    if !At(g.isOr, toks, p) {
      s := l;
    } else {
      var r := AndSound(g, toks, p + 1);
      var q := ParseAnd(g, toks, p + 1).value.1;
      assert toks[from..q] == toks[from..p] + [toks[p]] + toks[p + 1..q];
      s := OrTailSound(g, toks, from, q, Either(l, toks[p], r));
    }
  }

  /** `n` is what `toks` means in the grammar. */
  ghost predicate Means<T(!new), A(!new)>(g: Lang<T, A>, toks: seq<T>, n: Node<A>) {
    exists s: Syn<T, A> :: IsOr(g, s) && Render(s) == toks && Tree(s) == n
  }

  /** The parser accepts exactly the language of the grammar, with its one reading. */
  lemma {:induction false} ParseExact<T(!new), A(!new)>(g: Lang<T, A>, toks: seq<T>, n: Node<A>)
    requires Proper(g)
    ensures ParseTokens(g, toks) == Some(n) <==> Means(g, toks, n)
  {
    if ParseTokens(g, toks) == Some(n) {
      var s := OrSound(g, toks, 0);
      assert toks[0..|toks|] == toks;
    }
    if Means(g, toks, n) {
      var s: Syn<T, A> :| IsOr(g, s) && Render(s) == toks && Tree(s) == n;
      ParseComplete(g, s);
    }
  }

  /** No token list has two readings. */
  lemma {:induction false} Unambiguous<T(!new), A(!new)>(g: Lang<T, A>, a: Syn<T, A>, b: Syn<T, A>)
    requires Proper(g) && IsOr(g, a) && IsOr(g, b) && Render(a) == Render(b)
    ensures Tree(a) == Tree(b)
  {
    ParseComplete(g, a);
    ParseComplete(g, b);
  }

  // ---------------------------------------------------------------- composing meanings

  /** `n` is what `toks` means as an operand of any operator. */
  ghost predicate Operand<T(!new), A(!new)>(g: Lang<T, A>, toks: seq<T>, n: Node<A>) {
    exists s: Syn<T, A> :: IsFactor(g, s) && Render(s) == toks && Tree(s) == n
  }

  lemma {:induction false} LoneOperand<T(!new), A(!new)>(g: Lang<T, A>, part: seq<T>, a: A)
    requires Spells(g, part, a)
    ensures Operand(g, part, Term(a))
  {
    var s: Syn<T, A> := Lone(part, a);
    assert IsFactor(g, s) && Render(s) == part && Tree(s) == Term(a);
  }

  lemma {:induction false} GroupOperand<T(!new), A(!new)>(g: Lang<T, A>, open: T, toks: seq<T>, close: T, n: Node<A>)
    requires Means(g, toks, n) && g.isOpen(open) && g.isClose(close)
    ensures Operand(g, [open] + toks + [close], n)
  {
    var i: Syn<T, A> :| IsOr(g, i) && Render(i) == toks && Tree(i) == n;
    var s: Syn<T, A> := Grouped(open, i, close);
    assert IsFactor(g, s) && Render(s) == [open] + toks + [close] && Tree(s) == n;
  }

  lemma {:induction false} NotOperand<T(!new), A(!new)>(g: Lang<T, A>, op: T, toks: seq<T>, n: Node<A>)
    requires Operand(g, toks, n) && g.isNot(op)
    ensures Operand(g, [op] + toks, Not(n))
  {
    var i: Syn<T, A> :| IsFactor(g, i) && Render(i) == toks && Tree(i) == n;
    var s: Syn<T, A> := Negated(op, i);
    assert IsFactor(g, s) && Render(s) == [op] + toks && Tree(s) == Not(n);
  }

  lemma {:induction false} OperandMeans<T(!new), A(!new)>(g: Lang<T, A>, toks: seq<T>, n: Node<A>)
    requires Operand(g, toks, n)
    ensures Means(g, toks, n)
  {
    var s: Syn<T, A> :| IsFactor(g, s) && Render(s) == toks && Tree(s) == n;
    assert IsOr(g, s);
  }

  lemma {:induction false} BothIs<T(!new), A(!new)>(g: Lang<T, A>, l: Syn<T, A>, ops: seq<T>, r: Syn<T, A>)
    requires IsAnd(g, l) && AndOps(g, ops) && IsFactor(g, r)
    ensures var s := Both(l, ops, r);
            IsAnd(g, s) && Render(s) == Render(l) + ops + Render(r) && Tree(s) == And(Tree(l), Tree(r))
  {
  }

  lemma {:induction false} EitherIs<T(!new), A(!new)>(g: Lang<T, A>, l: Syn<T, A>, or: T, r: Syn<T, A>)
    requires IsOr(g, l) && g.isOr(or) && IsAnd(g, r)
    ensures var s := Either(l, or, r);
            IsOr(g, s) && Render(s) == Render(l) + [or] + Render(r) && Tree(s) == Or(Tree(l), Tree(r))
  {
  }

  /** Only operands mean a primary. */
  lemma {:induction false} TermOperand<T(!new), A(!new)>(g: Lang<T, A>, toks: seq<T>, n: Node<A>)
    requires Means(g, toks, n) && n.Term?
    ensures Operand(g, toks, n)
  {
    var s: Syn<T, A> :| IsOr(g, s) && Render(s) == toks && Tree(s) == n;
    assert !s.Both? && !s.Either? && IsAnd(g, s);
    assert IsFactor(g, s);
  }

  /** Two operands with an operator between them, or none. */
  lemma {:induction false} PairMeans<T(!new), A(!new)>(g: Lang<T, A>, a: seq<T>, m: Node<A>, ops: seq<T>, b: seq<T>,
      n: Node<A>)
    requires Operand(g, a, m) && Operand(g, b, n)
    ensures AndOps(g, ops) ==> Means(g, a + ops + b, And(m, n))
    ensures |ops| == 1 && g.isOr(ops[0]) ==> Means(g, a + ops + b, Or(m, n))
  {
    var l: Syn<T, A> :| IsFactor(g, l) && Render(l) == a && Tree(l) == m;
    var r: Syn<T, A> :| IsFactor(g, r) && Render(r) == b && Tree(r) == n;
    if AndOps(g, ops) { BothIs(g, l, ops, r); }
    if |ops| == 1 && g.isOr(ops[0]) {
      assert ops == [ops[0]];
      EitherIs(g, l, ops[0], r);
    }
  }

  /** Conjunction binds tighter than disjunction, on either side of it. */
  lemma {:induction false} Precedence<T(!new), A(!new)>(g: Lang<T, A>, a: seq<T>, m: Node<A>, ops: seq<T>, b: seq<T>,
      n: Node<A>, or: T, c: seq<T>, o: Node<A>)
    requires Operand(g, a, m) && Operand(g, b, n) && Operand(g, c, o) && AndOps(g, ops) && g.isOr(or)
    ensures Means(g, a + ops + b + [or] + c, Or(And(m, n), o))
    ensures Means(g, c + [or] + (a + ops + b), Or(o, And(m, n)))
  {
    var l: Syn<T, A> :| IsFactor(g, l) && Render(l) == a && Tree(l) == m;
    var r: Syn<T, A> :| IsFactor(g, r) && Render(r) == b && Tree(r) == n;
    var e: Syn<T, A> :| IsFactor(g, e) && Render(e) == c && Tree(e) == o;
    BothIs(g, l, ops, r);
    EitherIs(g, Both(l, ops, r), or, e);
    EitherIs(g, e, or, Both(l, ops, r));
  }

  /** A single token can only be a primary. */
  lemma {:induction false} OneToken<T, A>(g: Lang<T, A>, toks: seq<T>)
    requires |toks| <= 1 && ParseTokens(g, toks).Some?
    ensures ParseTokens(g, toks).value.Term?
  {
    assert ParseFactor(g, toks, |toks|).None?;
    assert ParseAnd(g, toks, |toks|).None?;
    assert ParseOr(g, toks, |toks|).None?;
    assert ParseOr(g, toks, 0).Some? && ParseAnd(g, toks, 0).Some?;
    assert ParseFactor(g, toks, 0).Some? && toks != [];
    var f := ParseFactor(g, toks, 0).value;
    assert f.0.Term? && f.1 == 1;
    assert AndTail(g, toks, 1, f.0) == Some((f.0, 1)) && ParseAnd(g, toks, 0) == Some((f.0, 1));
    assert OrTail(g, toks, 1, f.0) == Some((f.0, 1)) && ParseOr(g, toks, 0) == Some((f.0, 1));
  }

  predicate AllPrims<A>(n: Node<A>, good: A -> bool) {
    match n
    case Term(a) => good(a)
    case Not(i) => AllPrims(i, good)
    case And(l, r) => AllPrims(l, good) && AllPrims(r, good)
    case Or(l, r) => AllPrims(l, good) && AllPrims(r, good)
  }

  ghost predicate Every<T>(ok: T -> bool, toks: seq<T>) { forall i :: 0 <= i < |toks| ==> ok(toks[i]) }

  lemma {:induction false} EveryConcat<T>(ok: T -> bool, a: seq<T>, b: seq<T>)
    requires Every(ok, a) && Every(ok, b)
    ensures Every(ok, a + b)
  {
  }

  /** `good` primaries are spelled with `ok` tokens only, and so are the operators. */
  ghost predicate SpellsOk<T(!new), A(!new)>(g: Lang<T, A>, good: A -> bool, ok: T -> bool) {
    && (forall t :: g.isOr(t) || g.isAnd(t) || g.isNot(t) || g.isOpen(t) || g.isClose(t) ==> ok(t))
    && forall part: seq<T>, a: A :: Spells(g, part, a) && good(a) ==> Every(ok, part)
  }

  lemma {:induction false} RenderOk<T(!new), A(!new)>(g: Lang<T, A>, s: Syn<T, A>, good: A -> bool, ok: T -> bool)
    requires SpellsOk(g, good, ok) && AllPrims(Tree(s), good)
    ensures IsFactor(g, s) || IsAnd(g, s) || IsOr(g, s) ==> Every(ok, Render(s))
  {
    if IsFactor(g, s) || IsAnd(g, s) || IsOr(g, s) {
      match s
      case Lone(_, _) =>
      case Negated(op, i) =>
        RenderOk(g, i, good, ok);
        EveryConcat(ok, [op], Render(i));
      case Grouped(open, i, close) =>
        RenderOk(g, i, good, ok);
        EveryConcat(ok, [open], Render(i));
        EveryConcat(ok, [open] + Render(i), [close]);
      case Both(l, ops, r) =>
        RenderOk(g, l, good, ok);
        RenderOk(g, r, good, ok);
        EveryConcat(ok, Render(l), ops);
        EveryConcat(ok, Render(l) + ops, Render(r));
      case Either(l, op, r) =>
        RenderOk(g, l, good, ok);
        RenderOk(g, r, good, ok);
        EveryConcat(ok, Render(l), [op]);
        EveryConcat(ok, Render(l) + [op], Render(r));
    }
  }

  /** Primaries read from `ok` tokens are `good`, so those of a parsed tree are. */
  lemma {:induction false} TreeGood<T(!new), A(!new)>(g: Lang<T, A>, s: Syn<T, A>, good: A -> bool, ok: T -> bool)
    requires forall part: seq<T>, a: A :: Spells(g, part, a) && Every(ok, part) ==> good(a)
    requires Every(ok, Render(s))
    ensures IsFactor(g, s) || IsAnd(g, s) || IsOr(g, s) ==> AllPrims(Tree(s), good)
  {
    if IsFactor(g, s) || IsAnd(g, s) || IsOr(g, s) {
      match s
      case Lone(_, _) =>
      case Negated(op, i) =>
        EveryPart(ok, [op], Render(i));
        TreeGood(g, i, good, ok);
      case Grouped(open, i, close) =>
        EveryPart(ok, [open] + Render(i), [close]);
        EveryPart(ok, [open], Render(i));
        TreeGood(g, i, good, ok);
      case Both(l, ops, r) =>
        EveryPart(ok, Render(l) + ops, Render(r));
        EveryPart(ok, Render(l), ops);
        TreeGood(g, l, good, ok);
        TreeGood(g, r, good, ok);
      case Either(l, op, r) =>
        EveryPart(ok, Render(l) + [op], Render(r));
        EveryPart(ok, Render(l), [op]);
        TreeGood(g, l, good, ok);
        TreeGood(g, r, good, ok);
    }
  }

  lemma {:induction false} EveryPart<T>(ok: T -> bool, a: seq<T>, b: seq<T>)
    requires Every(ok, a + b)
    ensures Every(ok, a) && Every(ok, b)
  {
    forall i | 0 <= i < |a| ensures ok(a[i]) { assert (a + b)[i] == a[i]; }
    forall i | 0 <= i < |b| ensures ok(b[i]) { assert (a + b)[|a| + i] == b[i]; }
  }

  // ---------------------------------------------------------------- printing

  /** The tokens to print with. */
  datatype Style<!T, !A> = Style(say: A -> seq<T>, not: T, open: T, close: T, or: T)

  ghost predicate Writes<T, A>(g: Lang<T, A>, w: Style<T, A>) {
    g.isNot(w.not) && g.isOpen(w.open) && g.isClose(w.close) && g.isOr(w.or)
  }

  /** The style spells the primaries that are `good`. */
  ghost predicate Says<T(!new), A(!new)>(g: Lang<T, A>, w: Style<T, A>, good: A -> bool) {
    forall a :: good(a) ==> Spells(g, w.say(a), a)
  }

  /** A node written with only the parentheses its place needs. */
  function AsOr<T, A>(w: Style<T, A>, n: Node<A>): (s: Syn<T, A>)
    ensures Tree(s) == n
    decreases n, 2
  {
    if n.Or? then Either(AsOr(w, n.left), w.or, AsAnd(w, n.right)) else AsAnd(w, n)
  }

  function AsAnd<T, A>(w: Style<T, A>, n: Node<A>): (s: Syn<T, A>)
    ensures Tree(s) == n
    decreases n, 1
  {
    if n.And? then Both(AsAnd(w, n.left), [], AsFactor(w, n.right)) else AsFactor(w, n)
  }

  function AsFactor<T, A>(w: Style<T, A>, n: Node<A>): (s: Syn<T, A>)
    ensures Tree(s) == n
    decreases n, 0
  {
    match n
    case Term(a) => Lone(w.say(a), a)
    case Not(i) => Negated(w.not, AsFactor(w, i))
    case And(l, r) => Grouped(w.open, Both(AsAnd(w, l), [], AsFactor(w, r)), w.close)
    case Or(l, r) => Grouped(w.open, Either(AsOr(w, l), w.or, AsAnd(w, r)), w.close)
  }

  lemma {:induction false} PrintedFits<T(!new), A(!new)>(g: Lang<T, A>, w: Style<T, A>, good: A -> bool, n: Node<A>)
    requires Writes(g, w) && Says(g, w, good) && AllPrims(n, good)
    ensures IsFactor(g, AsFactor(w, n)) && IsAnd(g, AsAnd(w, n)) && IsOr(g, AsOr(w, n))
  {
    match n
    case Term(a) =>
    case Not(i) => PrintedFits(g, w, good, i);
    case And(l, r) => PrintedFits(g, w, good, l); PrintedFits(g, w, good, r);
    case Or(l, r) => PrintedFits(g, w, good, l); PrintedFits(g, w, good, r);
  }

  function Print<T, A>(w: Style<T, A>, n: Node<A>): seq<T> { Render(AsOr(w, n)) }

  /** Parsing the printed form of a node gives the node back. */
  lemma {:induction false} RoundTrip<T(!new), A(!new)>(g: Lang<T, A>, w: Style<T, A>, good: A -> bool, n: Node<A>)
    requires Proper(g) && Writes(g, w) && Says(g, w, good) && AllPrims(n, good)
    ensures ParseTokens(g, Print(w, n)) == Some(n)
  {
    PrintedFits(g, w, good, n);
    ParseComplete(g, AsOr(w, n));
  }

  /** A printed node consists of `ok` tokens when the style does. */
  lemma {:induction false} PrintOk<T(!new), A(!new)>(w: Style<T, A>, n: Node<A>, good: A -> bool, ok: T -> bool)
    requires AllPrims(n, good) && forall a :: good(a) ==> Every(ok, w.say(a))
    requires ok(w.not) && ok(w.open) && ok(w.close) && ok(w.or)
    ensures Every(ok, Render(AsFactor(w, n))) && Every(ok, Render(AsAnd(w, n))) && Every(ok, Render(AsOr(w, n)))
  {
    match n
    case Term(a) =>
    case Not(i) =>
      PrintOk(w, i, good, ok);
      EveryConcat(ok, [w.not], Render(AsFactor(w, i)));
    case And(l, r) =>
      PrintOk(w, l, good, ok);
      PrintOk(w, r, good, ok);
      EveryConcat(ok, Render(AsAnd(w, l)), []);
      EveryConcat(ok, Render(AsAnd(w, l)) + [], Render(AsFactor(w, r)));
      GroupOk(w, Both(AsAnd(w, l), [], AsFactor(w, r)), ok);
    case Or(l, r) =>
      PrintOk(w, l, good, ok);
      PrintOk(w, r, good, ok);
      EveryConcat(ok, Render(AsOr(w, l)), [w.or]);
      EveryConcat(ok, Render(AsOr(w, l)) + [w.or], Render(AsAnd(w, r)));
      GroupOk(w, Either(AsOr(w, l), w.or, AsAnd(w, r)), ok);
  }

  lemma {:induction false} GroupOk<T(!new), A(!new)>(w: Style<T, A>, s: Syn<T, A>, ok: T -> bool)
    requires Every(ok, Render(s)) && ok(w.open) && ok(w.close)
    ensures Every(ok, Render(Grouped(w.open, s, w.close)))
  {
    EveryConcat(ok, [w.open], Render(s));
    EveryConcat(ok, [w.open] + Render(s), [w.close]);
  }

  /** Whatever spells a primary is no shorter than the style. */
  ghost predicate Brief<T(!new), A(!new)>(g: Lang<T, A>, w: Style<T, A>) {
    forall part: seq<T>, a: A :: Spells(g, part, a) ==> |w.say(a)| <= |part|
  }

  lemma {:induction false} LevelsGrow<T, A>(w: Style<T, A>, n: Node<A>)
    ensures |Render(AsOr(w, n))| <= |Render(AsAnd(w, n))| <= |Render(AsFactor(w, n))| <= |Render(AsOr(w, n))| + 2
  {
  }

  /** No way of writing a node at a level is shorter than the printed one. */
  lemma {:induction false} PrintShortest<T(!new), A(!new)>(g: Lang<T, A>, w: Style<T, A>, s: Syn<T, A>)
    requires Brief(g, w)
    ensures IsFactor(g, s) ==> |Render(AsFactor(w, Tree(s)))| <= |Render(s)|
    ensures IsAnd(g, s) ==> |Render(AsAnd(w, Tree(s)))| <= |Render(s)|
    ensures IsOr(g, s) ==> |Render(AsOr(w, Tree(s)))| <= |Render(s)|
  {
    LevelsGrow(w, Tree(s));
    match s
    case Lone(_, _) =>
    case Negated(_, i) => PrintShortest(g, w, i);
    case Grouped(_, i, _) => PrintShortest(g, w, i);
    case Both(l, _, r) => PrintShortest(g, w, l); PrintShortest(g, w, r);
    case Either(l, _, r) => PrintShortest(g, w, l); PrintShortest(g, w, r);
  }
}
