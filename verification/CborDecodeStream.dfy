// The decode stream object: two spans into the input and the token between them.
module CborDecodeStream {
  import opened Base
  import opened CborGrammar
  import opened CborToken
  import opened CborNested
  import opened CborFields
  import opened CborEncode
  import opened CborDecode

  class CborDecodeStream {
    var partial: seq<Byte>
    var input: seq<Byte>
    var token: Token

    // `token` is the head at the start of `input`, and `partial` is what follows that head.
    ghost predicate Valid()
      reads this
    {
      Positioned(input) && token == TokenAt(input) && partial == input[HeadLength(input)..]
    }

    // The first token is still to be read.
    constructor (data: seq<Byte>)
      ensures partial == data
    {
      partial, input, token := data, [], NO_TOKEN;
    }

    method ReadToken() returns (ok: bool)
      modifies this
      ensures ok <==> Positioned(old(partial))
      ensures ok ==> Valid() && input == old(partial)
    {
      input := partial;
      token := NO_TOKEN;
      if partial == [] {
        return true;
      }
      var decoder := new CborTokenDecoder();
      TokenRunIsParse(partial, 0);
      ok, partial := decoder.Read(partial);
      if ok {
        token := decoder.value;
      }
    }

    // Moves past the current head, which has no payload.
    method NextToken(v: Value) returns (r: Result<Value, Error>)
      requires Valid()
      modifies this
      ensures Follows(Scalar(v, old(input)), r)
    {
      var ok := ReadToken();
      return if ok then Ok(v) else Err(InvalidCbor);
    }

    // The outcome of an operation and the stream it leaves, against its specification.
    ghost predicate Follows(spec: Decoded, r: Result<Value, Error>)
      reads this
    {
      match spec
      case Err(e) => r == Err(e)
      case Ok((v, rest)) => r == Ok(v) && Valid() && input == rest
    }

    method Payload(size: nat) returns (r: Result<seq<Byte>, Error>)
      requires Valid()
      modifies this
      ensures match TakePayload(old(input), size)
              case Err(e) => r == Err(e)
              case Ok((bytes, rest)) => r == Ok(bytes) && Valid() && input == rest
    {
      hide Positioned, TokenAt, HeadLength;
      if |partial| < size {
        return Err(InvalidCbor);
      }
      var bytes := partial[..size];
      ghost var start := HeadLength(input);
      assert bytes == input[start..start + size];
      assert partial[size..] == input[start + size..];
      partial := partial[size..];
      var ok := ReadToken();
      return if ok then Ok(bytes) else Err(InvalidCbor);
    }

    method Nested() returns (r: Result<seq<Byte>, Error>)
      modifies this
      ensures match TakeNested(old(input))
              case Err(e) => r == Err(e)
              case Ok((bytes, rest)) => r == Ok(bytes) && Valid() && input == rest
    {
      var ok, raw, rest := ReadNested(input);
      if !ok {
        return Err(InvalidCbor);
      }
      partial := rest;
      ok := ReadToken();
      return if ok then Ok(raw) else Err(InvalidCbor);
    }

    // Reads one value of the given type.
    method Get(t: Schema) returns (r: Result<Value, Error>)
      requires Valid()
      modifies this
      ensures Follows(Decode(t, old(input)), r)
      decreases t, 0
    {
      match t {
        case TBool =>
          if token.kind == SPECIAL && token.extra == EXTRA_FALSE {
            r := NextToken(VBool(false));
          } else if token.kind == SPECIAL && token.extra == EXTRA_TRUE {
            r := NextToken(VBool(true));
          } else {
            r := Err(Mismatch(token));
          }
        case TUint(limit) =>
          if token.kind == NEGATIVE {
            r := Err(IntOverflow);
          } else if token.kind != UNSIGNED {
            r := Err(Mismatch(token));
          } else if token.extra > limit {
            r := Err(IntOverflow);
          } else {
            r := NextToken(VUint(token.extra));
          }
        case TInt(low, high) =>
          var i := AsInt(token);
          if i.None? {
            r := Err(Mismatch(token));
          } else if i.value > high || i.value < low {
            r := Err(IntOverflow);
          } else {
            r := NextToken(VInt(i.value));
          }
        case TBytes => r := GetBytes(BYTES, t);
        case TText => r := GetBytes(TEXT, t);
        case TCid => r := GetBytes(CID, t);
        case TOptional(some) =>
          if token.kind == SPECIAL && token.extra == EXTRA_NULL {
            r := NextToken(VNone);
          } else {
            r := Get(some);
            if r.Ok? {
              r := Ok(VSome(r.value));
            }
          }
        case TList(item) => r := GetList(item);
        case TMap(item) => r := GetMap(item);
      }
    }

    method GetBytes(kind: Kind, t: Schema) returns (r: Result<Value, Error>)
      requires Valid()
      requires (kind == BYTES && t == TBytes) || (kind == TEXT && t == TText) || (kind == CID && t == TCid)
      modifies this
      ensures Follows(Decode(t, old(input)), r)
    {
      if token.kind != kind {
        return Err(Mismatch(token));
      }
      var payload := Payload(token.extra);
      match payload {
        case Err(e) => return Err(e);
        case Ok(bytes) =>
          return Ok(if kind == BYTES then VBytes(bytes)
                    else if kind == TEXT then VText(bytes)
                    else VCid(bytes));
      }
    }

    // The list is cut out as a stream of its own and its elements are read from there.
    method GetList(item: Schema) returns (r: Result<Value, Error>)
      requires Valid()
      modifies this
      ensures Follows(DecodeList(item, old(input)), r)
      decreases item, 2
    {
      hide Decode;
      if token.kind != ARRAY {
        return Err(Mismatch(token));
      }
      var count := token.extra;
      var nested := Nested();
      if nested.Err? {
        return Err(nested.error);
      }
      var inner := new CborDecodeStream(nested.value);
      var ok := inner.ReadToken();
      if ok {
        ok := inner.ReadToken();
      }
      if !ok {
        return Err(InvalidCbor);
      }
      var items := inner.GetItems(item, count);
      match items {
        case Err(e) => return Err(e);
        case Ok(vs) => return Ok(VList(vs));
      }
    }

    method GetItems(item: Schema, count: U64) returns (r: Result<seq<Value>, Error>)
      requires Valid()
      modifies this
      ensures r == DecodeItems(item, old(input), count, 0)
      decreases item, 1
    {
      hide Decode;
      var values: seq<Value> := [];
      var i := 0;
      ghost var whole := DecodeItems(item, input, count, 0);
      assert whole.Ok? ==> values + whole.value == whole.value;
      while i < count
        invariant 0 <= i < TWO_32 && Valid()
        invariant whole == match DecodeItems(item, input, count, i)
                           case Err(e) => Err(e)
                           case Ok(vs) => Ok(values + vs)
        decreases |input|
      {
        var v := Get(item);
        if v.Err? {
          return Err(v.error);
        }
        AppendFirst(values, v.value, DecodeItems(item, input, count, (i + 1) % TWO_32));
        values := values + [v.value];
        i := (i + 1) % TWO_32;
      }
      assert values + [] == values;
      return Ok(values);
    }

    method GetMap(item: Schema) returns (r: Result<Value, Error>)
      requires Valid()
      modifies this
      ensures Follows(DecodeMap(item, old(input)), r)
      decreases item, 2
    {
      hide Decode;
      var fields := Map();
      if fields.Err? {
        return Err(fields.error);
      }
      var entries := GetEntries(item, fields.value);
      match entries {
        case Err(e) => return Err(e);
        case Ok(es) => return Ok(VMap(es));
      }
    }

    // Cuts a map into its fields, each with the bytes of its value.
    method Map() returns (r: Result<seq<Field>, Error>)
      requires Valid()
      modifies this
      ensures match OpenMap(old(input))
              case Err(e) => r == Err(e)
              case Ok((found, rest)) => r == Ok(found) && Valid() && input == rest
    {
      hide DecodeFields, ParseToken;
      if token.kind != MAP {
        return Err(Mismatch(token));
      }
      var count := token.extra;
      var ok := ReadToken();
      if !ok {
        return Err(InvalidCbor);
      }
      r := GetFields(count);
    }

    method GetFields(count: U64) returns (r: Result<seq<Field>, Error>)
      requires Valid()
      modifies this
      ensures match DecodeFields(old(input), count, [])
              case Err(e) => r == Err(e)
              case Ok((found, rest)) => r == Ok(found) && Valid() && input == rest
    {
      hide TakePayload, TakeNested, ParseToken, Insert;
      var fields: seq<Field> := [];
      for i := 0 to count
        invariant Valid()
        invariant DecodeFields(old(input), count, []) == DecodeFields(input, count - i, fields)
      {
        if token.kind != TEXT {
          return Err(Mismatch(token));
        }
        var key := Payload(token.extra);
        if key.Err? {
          return Err(key.error);
        }
        var nested := Nested();
        if nested.Err? {
          return Err(nested.error);
        }
        var stream := new CborDecodeStream(nested.value);
        var ok := stream.ReadToken();
        if !ok {
          return Err(InvalidCbor);
        }
        fields := Insert(ByBytes, Field(key.value, nested.value), fields);
      }
      return Ok(fields);
    }

    static method GetEntries(item: Schema, fields: seq<Field>) returns (r: Result<seq<Entry>, Error>)
      ensures r == DecodeEntries(item, fields)
      decreases item, 1
    {
      hide Decode;
      var entries: seq<Entry> := [];
      ghost var whole := DecodeEntries(item, fields);
      assert whole.Ok? ==> entries + whole.value == whole.value;
      assert fields[0..] == fields;
      for i := 0 to |fields|
        invariant whole == match DecodeEntries(item, fields[i..])
                           case Err(e) => Err(e)
                           case Ok(es) => Ok(entries + es)
      {
        assert fields[i..][0] == fields[i] && fields[i..][1..] == fields[i + 1..];
        var stream := new CborDecodeStream(fields[i].data);
        var ok := stream.ReadToken();
        if !ok {
          return Err(InvalidCbor);
        }
        var v := stream.Get(item);
        if v.Err? {
          return Err(v.error);
        }
        AppendFirst(entries, Entry(fields[i].key, v.value), DecodeEntries(item, fields[i + 1..]));
        entries := entries + [Entry(fields[i].key, v.value)];
      }
      assert entries + [] == entries;
      return Ok(entries);
    }
  }

  lemma AppendFirst<T>(done: seq<T>, x: T, rest: Result<seq<T>, Error>)
    ensures rest.Ok? ==> done + ([x] + rest.value) == done + [x] + rest.value
  {
  }
}
