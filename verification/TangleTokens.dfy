/** CTANGLE's replacement texts: their tokens, the packed bytes that represent them, and what one token
    makes `get_output` emit. */
module TangleTokens {
  import opened Wrappers

  const STRING: Byte := 2
  const CONSTANT: Byte := 3
  const NEWLINE: Byte := 10

  /** `Line` is a "#line" record, `Defs` the place of the macro definitions, `Quote` a string (delimiter
      02) or constant (delimiter 03). */
  datatype Tok =
    | Id(name: nat) | SecRef(name: nat) | Defs | SecNum(n: nat) | Line(line: nat, file: nat)
    | Ch(c: Byte) | Quote(delim: Byte, body: seq<Byte>)

  /** The tokens that the packed form can represent. */
  predicate Encodable(t: Tok) {
    match t
    case Id(n) => n < 10240
    case SecRef(n) => n < 10239
    case Defs => true
    case SecNum(n) => 0 < n < 12288
    case Line(line, file) => line < 65536 && file < 32768
    case Ch(c) => c < 128 && c != STRING && c != CONSTANT
    case Quote(d, body) =>
      (d == STRING || d == CONSTANT) && forall i | 0 <= i < |body| :: body[i] != STRING && body[i] != CONSTANT
  }

  /** `store_two_bytes(x)` */
  function TwoBytes(x: nat): (b: seq<Byte>)
    requires x < 65536
    ensures |b| == 2
  {
    [x / 256, x % 256]
  }

  /** A token written by two `app_repl`: `(a/0400)+base` and `a%0400`. */
  function Packed(a: nat, base: nat): (b: seq<Byte>)
    requires a / 256 + base < 256
    ensures |b| == 2
  {
    [a / 256 + base, a % 256]
  }

  function Encode(t: Tok): (b: seq<Byte>)
    requires Encodable(t)
    ensures b != []
  {
    match t
    case Id(n) => Packed(n, 128)
    case SecRef(n) => Packed(n, 168)
    case Defs => Packed(20479, 128)
    case SecNum(n) => TwoBytes(53248 + n)
    case Line(line, file) => TwoBytes(53248) + TwoBytes(line) + Packed(file, 128)
    case Ch(c) => [c]
    case Quote(d, body) => [d] + body + [d]
  }

  predicate AllEncodable(ts: seq<Tok>) {
    forall i | 0 <= i < |ts| :: Encodable(ts[i])
  }

  function EncodeAll(ts: seq<Tok>): seq<Byte>
    requires AllEncodable(ts)
  {
    if ts == [] then [] else Encode(ts[0]) + EncodeAll(ts[1..])
  }

  lemma {:induction false} EncodeAppend(a: seq<Tok>, b: seq<Tok>)
    requires AllEncodable(a) && AllEncodable(b)
    ensures EncodeAll(a + b) == EncodeAll(a) + EncodeAll(b)
  {
    if a == [] {
      assert a + b == b;
    } else {
      assert (a + b)[1..] == a[1..] + b;
      EncodeAppend(a[1..], b);
    }
  }

  // ----- Reading the bytes back ------------------------------------------------------------------

  /** The 15-bit value of a byte above 0177 and the byte after it. */
  function Value(hi: Byte, lo: Byte): nat
    requires hi >= 128
  {
    (hi - 128) * 256 + lo
  }

  function TwoByteValue(hi: Byte, lo: Byte): nat {
    var h: int := hi;
    256 * h + lo
  }

  /** How many bytes stand before the next string or constant delimiter. */
  function UpToDelimiter(b: seq<Byte>): (n: nat)
    ensures n <= |b|
    ensures n < |b| ==> b[n] == STRING || b[n] == CONSTANT
    ensures forall i | 0 <= i < n :: b[i] != STRING && b[i] != CONSTANT
  {
    if b == [] || b[0] == STRING || b[0] == CONSTANT then 0 else 1 + UpToDelimiter(b[1..])
  }

  /** The first token of the bytes and the number of bytes it occupies, by the rules of `get_output` and
      of the section-number case of `out_char`; None when the bytes end too early. */
  function DecodeOne(b: seq<Byte>): (r: Option<(Tok, nat)>)
    requires b != []
    ensures r.Some? ==> 0 < r.value.1 <= |b|
  {
    if b[0] == STRING || b[0] == CONSTANT then
      var n := UpToDelimiter(b[1..]);
      if n + 1 == |b| then None
      else if b[1 + n] != b[0] then None
      else Some((Quote(b[0], b[1..1 + n]), n + 2))
    else if b[0] < 128 then Some((Ch(b[0]), 1))
    else if |b| == 1 then None
    else
      var a := Value(b[0], b[1]);
      if a < 10240 then Some((Id(a), 2))
      else if a == 20479 then Some((Defs, 2))
      else if a < 20480 then Some((SecRef(a - 10240), 2))
      else if a > 20480 then Some((SecNum(a - 20480), 2))
      else if |b| < 6 || b[4] < 128 then None
      else Some((Line(TwoByteValue(b[2], b[3]), Value(b[4], b[5])), 6))
  }

  function Decode(b: seq<Byte>): Option<seq<Tok>> {
    if b == [] then Some([])
    else
      match DecodeOne(b)
      case None => None
      case Some((t, n)) =>
        match Decode(b[n..])
        case None => None
        case Some(ts) => Some([t] + ts)
  }

  lemma {:induction false} UpToFirstDelimiter(body: seq<Byte>, rest: seq<Byte>)
    requires forall i | 0 <= i < |body| :: body[i] != STRING && body[i] != CONSTANT
    requires rest != [] && (rest[0] == STRING || rest[0] == CONSTANT)
    ensures UpToDelimiter(body + rest) == |body|
  {
    if body == [] {
      assert body + rest == rest;
    } else {
      assert (body + rest)[1..] == body[1..] + rest;
      UpToFirstDelimiter(body[1..], rest);
    }
  }

  /** Whatever follows, the first token comes back, and exactly its bytes are used up. */
  lemma DecodeEncode(t: Tok, rest: seq<Byte>)
    requires Encodable(t)
    ensures DecodeOne(Encode(t) + rest) == Some((t, |Encode(t)|))
  {
    var b := Encode(t) + rest;
    match t
    case Quote(d, body) =>
      assert b[1..] == body + ([d] + rest);
      UpToFirstDelimiter(body, [d] + rest);
      assert b[1..1 + |body|] == body;
    case _ =>
  }

  lemma DecodeStep(first: seq<Byte>, rest: seq<Byte>, t: Tok, ts: seq<Tok>)
    requires first != [] && DecodeOne(first + rest) == Some((t, |first|)) && Decode(rest) == Some(ts)
    ensures Decode(first + rest) == Some([t] + ts)
  {
    assert (first + rest)[|first|..] == rest;
  }

  /** The round trip: the bytes of a list of tokens are read back as that list. */
  lemma {:induction false} DecodeEncodeAll(ts: seq<Tok>)
    requires AllEncodable(ts)
    ensures Decode(EncodeAll(ts)) == Some(ts)
  {
    if ts != [] {
      var first, rest := Encode(ts[0]), EncodeAll(ts[1..]);
      DecodeEncode(ts[0], rest);
      DecodeEncodeAll(ts[1..]);
      DecodeStep(first, rest, ts[0], ts[1..]);
      assert [ts[0]] + ts[1..] == ts;
    }
  }

  // ----- What is emitted -------------------------------------------------------------------------

  /** The calls that reach the output: `Put` is a `C_putc` inside a string or constant, `Char` and
      `Identifier` are calls of `out_char`, `Marker(v)` the comment that opens section v (v > 0) or
      closes section -v, `Define` and `EndLine` enclose a macro definition. */
  datatype Event =
    | Put(b: Byte) | Char(c: Byte) | Identifier(name: nat) | Marker(v: int) | LineDirective(line: nat, file: nat)
    | Define | EndLine

  datatype OutState = Normal | NumOrId | PostSlash | Unbreakable | Verbatim

  /** `out_state` after an event. */
  function StateAfter(st: OutState, e: Event): OutState {
    match e
    case Put(_) => st
    case Char(c) =>
      if c == NEWLINE then if st.Verbatim? then st else Normal
      else if c == 127 then Unbreakable
      else if c == CONSTANT then if st.Verbatim? then NumOrId else Verbatim
      else if c == STRING then if st.Verbatim? then Normal else Verbatim
      else if c == 47 then PostSlash
      else Normal
    case Identifier(_) => NumOrId
    case Marker(_) => st
    case LineDirective(_, _) => st
    case Define => Normal
    case EndLine => st
  }

  /** A byte inside a string or constant. */
  function Quoted(b: Byte): Event {
    if b == NEWLINE then Char(b) else Put(b)
  }

  function QuotedAll(body: seq<Byte>): seq<Event> {
    if body == [] then [] else [Quoted(body[0])] + QuotedAll(body[1..])
  }

  /** Tokens that neither call another text nor the macro definitions. */
  predicate Plain(t: Tok) {
    !t.SecRef? && !t.Defs?
  }

  function TokEvents(t: Tok): (e: seq<Event>)
    requires Plain(t)
    ensures e != []
  {
    match t
    case Id(n) => [Identifier(n)]
    case SecNum(n) => [Marker(n)]
    case Line(line, file) => [LineDirective(line, file)]
    case Ch(c) => [Char(c)]
    case Quote(d, body) => [Char(d)] + QuotedAll(body) + [Char(d)]
  }
}
