// The decode stream, driven by the type of the value to read.
module CborDecode {
  import opened Base
  import opened CborGrammar
  import opened CborToken
  import opened CborNested
  import opened CborFields
  import opened CborEncode

  datatype Error = InvalidCbor | WrongType | IntOverflow

  // The C++ type a value is read into; integer types by their limits.
  datatype Schema =
    | TBool
    | TUint(limit: U64)
    | TInt(low: int, high: int)
    | TBytes
    | TText
    | TCid
    | TOptional(some: Schema)
    | TList(item: Schema)
    | TMap(item: Schema)

  // ---------------------------------------------------------------- specification

  // A stream stands on the first byte of a token, or at its end.
  predicate Positioned(s: seq<Byte>) {
    s == [] || ParseToken(s, 0).Some?
  }

  function TokenAt(s: seq<Byte>): (t: Token)
    requires Positioned(s)
  {
    if s == [] then NO_TOKEN else ParseToken(s, 0).value.0
  }

  function HeadLength(s: seq<Byte>): (n: nat)
    requires Positioned(s)
    ensures n <= |s| && (s != [] ==> n > 0)
  {
    if s == [] then 0 else ParseToken(s, 0).value.1
  }

  // Moves past `n` bytes to the next token.
  function Skip(s: seq<Byte>, n: nat): (r: Result<seq<Byte>, Error>)
    requires n <= |s|
    ensures r.Ok? ==> Positioned(r.value) && r.value == s[n..]
  {
    if Positioned(s[n..]) then Ok(s[n..]) else Err(InvalidCbor)
  }

  // The payload that follows the current head, and the stream after it.
  function TakePayload(s: seq<Byte>, n: nat): (r: Result<(seq<Byte>, seq<Byte>), Error>)
    requires Positioned(s)
    ensures r.Ok? ==> Positioned(r.value.1) && |r.value.1| + n + HeadLength(s) == |s|
  {
    var start := HeadLength(s);
    if |s| < start + n then Err(InvalidCbor)
    else
      var rest :- Skip(s, start + n);
      Ok((s[start..start + n], rest))
  }

  // The bytes of the current item, and the stream after it.
  function TakeNested(s: seq<Byte>): (r: Result<(seq<Byte>, seq<Byte>), Error>)
    ensures r.Ok? ==> Positioned(r.value.1) && |r.value.1| < |s|
  {
    match ReadNestedEnd(s)
    case None => Err(InvalidCbor)
    case Some(end) =>
      var rest :- Skip(s, end);
      Ok((s[..end], rest))
  }

  function ToSigned(n: U64): (i: int) {
    if n < TWO_63 then n else n - TWO_64
  }

  // The value of a token read as a signed integer: conversions wrap around.
  function AsInt(t: Token): (i: Option<int>) {
    if t.kind == UNSIGNED then Some(ToSigned(t.extra))
    else if t.kind == NEGATIVE then Some(-1 - ToSigned(t.extra))
    else None
  }

  // What the accessors raise when a token is not of the wanted kind.
  function Mismatch(t: Token): (e: Error) {
    if t.kind == INVALID then InvalidCbor else WrongType
  }

  type Decoded = Result<(Value, seq<Byte>), Error>

  function Scalar(v: Value, s: seq<Byte>): (r: Decoded)
    requires Positioned(s)
    ensures r.Ok? ==> Positioned(r.value.1) && (s != [] ==> |r.value.1| < |s|)
  {
    var rest :- Skip(s, HeadLength(s));
    Ok((v, rest))
  }

  // The value of type `t` at the start of `s`, and the stream after it.
  function Decode(t: Schema, s: seq<Byte>): (r: Decoded)
    requires Positioned(s)
    ensures r.Ok? ==> Positioned(r.value.1) && |r.value.1| < |s|
    decreases t, 0, 0
  {
    var token := TokenAt(s);
    match t
    case TBool =>
      if token == Token(SPECIAL, EXTRA_FALSE) then Scalar(VBool(false), s)
      else if token == Token(SPECIAL, EXTRA_TRUE) then Scalar(VBool(true), s)
      else Err(Mismatch(token))
    case TUint(limit) =>
      if token.kind == NEGATIVE then Err(IntOverflow)
      else if token.kind != UNSIGNED then Err(Mismatch(token))
      else if token.extra > limit then Err(IntOverflow)
      else Scalar(VUint(token.extra), s)
    case TInt(low, high) =>
      var i := AsInt(token);
      if i.None? then Err(Mismatch(token))
      else if i.value > high || i.value < low then Err(IntOverflow)
      else Scalar(VInt(i.value), s)
    case TBytes =>
      if token.kind != BYTES then Err(Mismatch(token)) else
      var (bytes, rest) :- TakePayload(s, token.extra);
      Ok((VBytes(bytes), rest))
    case TText =>
      if token.kind != TEXT then Err(Mismatch(token)) else
      var (bytes, rest) :- TakePayload(s, token.extra);
      Ok((VText(bytes), rest))
    case TCid =>
      if token.kind != CID then Err(Mismatch(token)) else
      var (bytes, rest) :- TakePayload(s, token.extra);
      Ok((VCid(bytes), rest))
    case TOptional(some) =>
      if token == Token(SPECIAL, EXTRA_NULL) then Scalar(VNone, s) else
      var (v, rest) :- Decode(some, s);
      Ok((VSome(v), rest))
    case TList(item) => DecodeList(item, s)
    case TMap(item) => DecodeMap(item, s)
  }

  // A list is cut out as a stream of its own, and its elements are read from there.
  function DecodeList(item: Schema, s: seq<Byte>): (r: Decoded)
    requires Positioned(s)
    ensures r.Ok? ==> Positioned(r.value.1) && |r.value.1| < |s|
    decreases item, 2, 0
  {
    var token := TokenAt(s);
    if token.kind != ARRAY then Err(Mismatch(token)) else
    var (nested, rest) :- TakeNested(s);
    var inner :- OpenList(nested);
    var items :- DecodeItems(item, inner, token.extra, 0);
    Ok((VList(items), rest))
  }

  function DecodeMap(item: Schema, s: seq<Byte>): (r: Decoded)
    requires Positioned(s)
    ensures r.Ok? ==> Positioned(r.value.1) && |r.value.1| < |s|
    decreases item, 2, 0
  {
    var (fields, rest) :- OpenMap(s);
    var entries :- DecodeEntries(item, fields);
    Ok((VMap(entries), rest))
  }

  // The fields of the current map, each with a stream over its value.
  function OpenMap(s: seq<Byte>): (r: Result<(seq<Field>, seq<Byte>), Error>)
    requires Positioned(s)
    ensures r.Ok? ==> Positioned(r.value.1) && |r.value.1| < |s|
  {
    var token := TokenAt(s);
    if token.kind != MAP then Err(Mismatch(token)) else
    var inner :- Skip(s, HeadLength(s));
    DecodeFields(inner, token.extra, [])
  }

  // A stream over the bytes of a list, moved past the head of the list.
  function OpenList(nested: seq<Byte>): (r: Result<seq<Byte>, Error>)
    ensures r.Ok? ==> Positioned(r.value)
  {
    if !Positioned(nested) then Err(InvalidCbor) else Skip(nested, HeadLength(nested))
  }

  // The elements of a list of `count`, from the one numbered `i`; the number has 32 bits.
  function DecodeItems(t: Schema, s: seq<Byte>, count: U64, i: nat): (r: Result<seq<Value>, Error>)
    requires Positioned(s)
    decreases t, 1, |s|
  {
    if i >= count then Ok([])
    else
      var (v, rest) :- Decode(t, s);
      var vs :- DecodeItems(t, rest, count, (i + 1) % TWO_32);
      Ok([v] + vs)
  }

  // The next `count` keys with the bytes of their values, collected in a std::map; a key that
  // is already there keeps its first value.
  function DecodeFields(s: seq<Byte>, count: nat, fields: seq<Field>)
    : (r: Result<(seq<Field>, seq<Byte>), Error>)
    requires Positioned(s)
    ensures r.Ok? ==> Positioned(r.value.1) && |r.value.1| <= |s|
    decreases count
  {
    if count == 0 then Ok((fields, s))
    else if TokenAt(s).kind != TEXT then Err(Mismatch(TokenAt(s)))
    else
      var (key, value) :- TakePayload(s, TokenAt(s).extra);
      var (nested, rest) :- TakeNested(value);
      if !Positioned(nested) then Err(InvalidCbor)
      else DecodeFields(rest, count - 1, Insert(ByBytes, Field(key, nested), fields))
  }

  // Every value is read from its own stream, in key order.
  function DecodeEntries(t: Schema, fields: seq<Field>): (r: Result<seq<Entry>, Error>)
    decreases t, 1, |fields|
  {
    if fields == [] then Ok([])
    else if !Positioned(fields[0].data) then Err(InvalidCbor)
    else
      var (v, _) :- Decode(t, fields[0].data);
      var entries :- DecodeEntries(t, fields[1..]);
      Ok([Entry(fields[0].key, v)] + entries)
  }
}
