/** Runs of self-delimiting records, for any record codec. */
module Repeated {
  import opened Prelude
  import opened Bytes

  /** Reads one record at a position and returns the position behind it. */
  type Parser<T> = (seq<byte>, nat) -> Result<(T, nat)>

  function EncodeAll<T>(enc: T -> seq<byte>, xs: seq<T>): seq<byte> {
    if xs == [] then [] else enc(xs[0]) + EncodeAll(enc, xs[1..])
  }

  /** `count` records from `p` on, and the position behind them. */
  function ParseAll<T>(parse: Parser<T>, buf: seq<byte>, p: nat, count: nat): Result<(seq<T>, nat)>
    decreases count
  {
    if count == 0 then Ok(([], p))
    else
      match parse(buf, p)
      case Err(e) => Err(e)
      case Ok((x, next)) => Behind([x], ParseAll(parse, buf, next, count - 1))
  }

  function Behind<T>(xs: seq<T>, rest: Result<(seq<T>, nat)>): Result<(seq<T>, nat)> {
    match rest
    case Err(e) => Err(e)
    case Ok((ys, p)) => Ok((xs + ys, p))
  }

  /** The parser reads an encoded `x` back, wherever it stands. */
  ghost predicate Inverse<T(!new)>(enc: T -> seq<byte>, parse: Parser<T>, x: T) {
    forall buf: seq<byte>, p: nat {:trigger parse(buf, p)} ::
      p + |enc(x)| <= |buf| && buf[p..p + |enc(x)|] == enc(x) ==> parse(buf, p) == Ok((x, p + |enc(x)|))
  }

  lemma {:induction false} EncodeAllAppend<T>(enc: T -> seq<byte>, xs: seq<T>, x: T)
    ensures EncodeAll(enc, xs + [x]) == EncodeAll(enc, xs) + enc(x)
  {
    if xs == [] {
      assert [x][1..] == [] && [] + [x] == [x];
    } else {
      assert (xs + [x])[1..] == xs[1..] + [x];
      EncodeAllAppend(enc, xs[1..], x);
    }
  }

  /** Parsing as many records as were written gives them all back. */
  lemma {:induction false} RoundTrip<T(!new)>(enc: T -> seq<byte>, parse: Parser<T>, buf: seq<byte>, p: nat, xs: seq<T>)
    requires p + |EncodeAll(enc, xs)| <= |buf| && buf[p..p + |EncodeAll(enc, xs)|] == EncodeAll(enc, xs)
    requires forall x :: x in xs ==> Inverse(enc, parse, x)
    ensures ParseAll(parse, buf, p, |xs|) == Ok((xs, p + |EncodeAll(enc, xs)|))
    decreases |xs|
  {
    if xs != [] {
      assert Inverse(enc, parse, xs[0]);
      Halves(buf, p, enc(xs[0]), EncodeAll(enc, xs[1..]));
      RoundTrip(enc, parse, buf, p + |enc(xs[0])|, xs[1..]);
      assert [xs[0]] + xs[1..] == xs;
    }
  }

  /** How a loop that has read `xs` goes on. */
  lemma {:induction false} Step<T>(parse: Parser<T>, buf: seq<byte>, p: nat, count: nat, xs: seq<T>)
    requires count > 0
    ensures parse(buf, p).Err? ==> Behind(xs, ParseAll(parse, buf, p, count)) == Err(parse(buf, p).error)
    ensures parse(buf, p).Ok? ==>
      Behind(xs, ParseAll(parse, buf, p, count))
      == Behind(xs + [parse(buf, p).value.0], ParseAll(parse, buf, parse(buf, p).value.1, count - 1))
  {
    if parse(buf, p).Ok? {
      var (x, next) := parse(buf, p).value;
      var rest := ParseAll(parse, buf, next, count - 1);
      if rest.Ok? { assert xs + ([x] + rest.value.0) == xs + [x] + rest.value.0; }
    }
  }

  lemma {:induction false} Start<T>(rest: Result<(seq<T>, nat)>)
    ensures Behind([], rest) == rest
  {
    if rest.Ok? { assert [] + rest.value.0 == rest.value.0; }
  }
}
