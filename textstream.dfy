/** The `QTextStream` number extraction the stereo viewer's parsers rely
    on, over a file already split into whitespace-separated tokens (the
    parsers read `readAll().simplified()`).  A read that finds no token
    sets the status to past-end, one that finds a token of the wrong form
    sets it to corrupt; either way it yields 0, and once the status is not
    good it stays so and every later read yields 0 too. */
module TextStream {

  /** A token: an unsigned decimal numeral, another number (a sign, a
      fraction or an exponent), or anything else. */
  datatype Token = Numeral(n: nat) | Decimal(v: real) | Other

  /** `QTextStream::Status`: `Ok`, `ReadPastEnd`, `ReadCorruptData`. */
  datatype StreamStatus = Good | PastEnd | Corrupt

  /** A stream: its tokens, the next position and the status. */
  datatype Reader = Reader(toks: seq<Token>, pos: nat, status: StreamStatus)

  /** A fresh stream over the tokens. */
  function Start(toks: seq<Token>): (r: Reader)
    ensures r.toks == toks && r.pos == 0 && r.status == Good
  {
    Reader(toks, 0, Good)
  }

  /** `s >> (unsigned int&)`: only a numeral is read. */
  function ReadUInt(r: Reader): (res: (Reader, nat))
    ensures res.0.toks == r.toks && r.pos <= res.0.pos
    ensures res.0.status == Good ==> r.status == Good && res.0.pos == r.pos + 1 <= |r.toks|
    ensures r.pos <= |r.toks| ==> res.0.pos <= |r.toks|
  {
    if r.status != Good then (r, 0)
    else if r.pos >= |r.toks| then (r.(status := PastEnd), 0)
    else match r.toks[r.pos]
      case Numeral(n) => (r.(pos := r.pos + 1), n)
      case _ => (r.(status := Corrupt), 0)
  }

  /** The value of a number token. */
  function Value(t: Token): real
  {
    match t
    case Numeral(n) => n as real
    case Decimal(v) => v
    case Other => 0.0
  }

  /** `s >> (float&)`: a numeral or another number is read. */
  function ReadFloat(r: Reader): (res: (Reader, real))
    ensures res.0.toks == r.toks && r.pos <= res.0.pos
    ensures res.0.status == Good ==> r.status == Good && res.0.pos == r.pos + 1 <= |r.toks|
    ensures r.pos <= |r.toks| ==> res.0.pos <= |r.toks|
  {
    if r.status != Good then (r, 0.0)
    else if r.pos >= |r.toks| then (r.(status := PastEnd), 0.0)
    else match r.toks[r.pos]
      case Other => (r.(status := Corrupt), 0.0)
      case t => (r.(pos := r.pos + 1), Value(t))
  }

  /** Only numerals from the position on. */
  predicate NumeralsFrom(r: Reader)
  {
    forall i :: r.pos <= i < |r.toks| ==> r.toks[i].Numeral?
  }

  /** Reading from a stream of numerals never corrupts it. */
  lemma ReadUIntNumerals(r: Reader)
    requires NumeralsFrom(r) && r.status != Corrupt
    ensures NumeralsFrom(ReadUInt(r).0) && ReadUInt(r).0.status != Corrupt
  {
  }

  /** Reading a float from a stream of numerals never corrupts it. */
  lemma ReadFloatNumerals(r: Reader)
    requires NumeralsFrom(r) && r.status != Corrupt
    ensures NumeralsFrom(ReadFloat(r).0) && ReadFloat(r).0.status != Corrupt
  {
  }
}
