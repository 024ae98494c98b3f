// What decoding gives on every input, not only on what the encoder wrote.
module CborSound {
  import opened Base
  import opened CborGrammar
  import opened CborToken
  import opened CborNested
  import opened CborFields
  import opened CborEncode
  import opened CborDecode
  import opened CborRoundTrip

  // Signed types have at most 64 bits.
  predicate Readable(t: Schema) {
    match t
    case TInt(low, high) => -TWO_63 <= low && high < TWO_63
    case TOptional(some) => Readable(some)
    case TList(item) => Readable(item)
    case TMap(item) => Readable(item)
    case _ => true
  }

  // A value of the type, that is written and read back as itself.
  ghost predicate Proper(t: Schema, v: Value) {
    Typed(t, v) && ShortLists(v) && Distinguishable(v)
  }

  // ---------------------------------------------------------------- scalars and strings

  lemma ScalarIsProper(t: Schema, s: seq<Byte>)
    requires Positioned(s) && (t.TBool? || t.TUint? || (t.TInt? && Readable(t)))
    ensures Decode(t, s).Ok? ==> Proper(t, Decode(t, s).value.0) && !Absent(Decode(t, s).value.0)
  {
    hide ParseToken;
  }

  lemma PayloadSize(s: seq<Byte>, n: nat)
    requires Positioned(s) && TakePayload(s, n).Ok?
    ensures |TakePayload(s, n).value.0| == n <= |s|
  {
    hide ParseToken;
  }

  lemma StringIsProper(t: Schema, s: seq<Byte>)
    requires Positioned(s) && (t.TBytes? || t.TText? || t.TCid?) && |s| < TWO_63
    ensures Decode(t, s).Ok? ==> Proper(t, Decode(t, s).value.0) && !Absent(Decode(t, s).value.0)
  {
    hide ParseToken, TakePayload;
    var token := TokenAt(s);
    if TakePayload(s, token.extra).Ok? {
      PayloadSize(s, token.extra);
    }
  }

  // ---------------------------------------------------------------- lists

  lemma NestedSize(s: seq<Byte>)
    requires TakeNested(s).Ok?
    ensures |TakeNested(s).value.0| <= |s|
    ensures OpenList(TakeNested(s).value.0).Ok? ==> |OpenList(TakeNested(s).value.0).value| <= |s|
  {
    hide ParseToken, ReadNestedEnd;
  }

  lemma {:induction false} ItemsAreProper(t: Schema, s: seq<Byte>, count: U64, i: nat)
    requires Positioned(s) && Readable(t) && |s| < TWO_63 && i <= count < TWO_32
    ensures match DecodeItems(t, s, count, i)
            case Err(_) => true
            case Ok(vs) => |vs| == count - i && forall x | x in vs :: Proper(t, x)
    decreases t, 1, |s|
  {
    hide Decode, Proper;
    if i < count {
      DecodedIsProper(t, s);
      if Decode(t, s).Ok? {
        ItemsAreProper(t, Decode(t, s).value.1, count, i + 1);
      }
    }
  }

  lemma ListIsProper(item: Schema, s: seq<Byte>)
    requires Positioned(s) && Readable(item) && |s| < TWO_63
    ensures DecodeList(item, s).Ok? ==> Proper(TList(item), DecodeList(item, s).value.0)
    decreases item, 2, 0
  {
    hide Decode, DecodeItems, ParseToken, TakeNested, OpenList;
    if DecodeList(item, s).Ok? {
      NestedSize(s);
      var count := TokenAt(s).extra;
      var inner := OpenList(TakeNested(s).value.0).value;
      if count < TWO_32 {
        ItemsAreProper(item, inner, count, 0);
      } else {
        LongListFails(item, inner, count, 0);
      }
    }
  }

  // ---------------------------------------------------------------- maps

  lemma {:induction false} InsertGrows(f: Field, fs: seq<Field>)
    ensures |Insert(ByBytes, f, fs)| <= |fs| + 1
  {
    hide KeyLess;
    if fs != [] {
      InsertGrows(f, fs[1..]);
    }
  }

  ghost predicate ShortData(fs: seq<Field>) {
    forall f | f in fs :: |f.data| < TWO_63
  }

  // Whatever the order and however often a key is read, the keys end up strictly increasing.
  lemma {:induction false} FieldsIncrease(s: seq<Byte>, count: nat, fields: seq<Field>)
    requires Positioned(s) && Increasing(ByBytes, fields) && ShortKeys(fields) && ShortData(fields) && |s| < TWO_63
    ensures match DecodeFields(s, count, fields)
            case Err(_) => true
            case Ok((found, _)) =>
              && Increasing(ByBytes, found) && ShortKeys(found) && ShortData(found)
              && |found| <= |fields| + count
    decreases count
  {
    hide ParseToken, TakePayload, TakeNested, Insert, Increasing, KeyLess;
    if count > 0 && TokenAt(s).kind == TEXT {
      var key := TakePayload(s, TokenAt(s).extra);
      if key.Ok? {
        PayloadSize(s, TokenAt(s).extra);
        var nested := TakeNested(key.value.1);
        if nested.Ok? && Positioned(nested.value.0) {
          NestedSize(key.value.1);
          var f := Field(key.value.0, nested.value.0);
          InsertKeepsIncreasing(ByBytes, f, fields);
          InsertGrows(f, fields);
          FieldsIncrease(nested.value.1, count - 1, Insert(ByBytes, f, fields));
        }
      }
    }
  }

  lemma EntriesStep(t: Schema, fields: seq<Field>)
    requires DecodeEntries(t, fields).Ok?
    ensures fields == [] ==> DecodeEntries(t, fields).value == []
    ensures fields != [] ==>
              && Positioned(fields[0].data) && Decode(t, fields[0].data).Ok? && DecodeEntries(t, fields[1..]).Ok?
              && DecodeEntries(t, fields).value ==
                   [Entry(fields[0].key, Decode(t, fields[0].data).value.0)] + DecodeEntries(t, fields[1..]).value
  {
    hide Decode, Positioned;
  }

  ghost predicate ProperEntries(t: Schema, fields: seq<Field>, es: seq<Entry>) {
    && |es| == |fields| && (forall i | 0 <= i < |es| :: es[i].key == fields[i].key)
    && forall e | e in es :: Proper(t, e.value)
  }

  lemma {:induction false} EntriesAreProper(t: Schema, fields: seq<Field>)
    requires Readable(t) && ShortData(fields)
    ensures match DecodeEntries(t, fields)
            case Err(_) => true
            case Ok(es) => ProperEntries(t, fields, es)
    decreases t, 1, |fields|
  {
    hide Decode, DecodeEntries, Proper, Positioned;
    if DecodeEntries(t, fields).Ok? {
      EntriesStep(t, fields);
      if fields != [] {
        var first, rest := fields[0], fields[1..];
        assert first in fields;
        DecodedIsProper(t, first.data);
        EntriesAreProper(t, rest);
        MoreProperEntries(t, first, rest, Decode(t, first.data).value.0, DecodeEntries(t, rest).value);
        assert fields == [first] + rest;
      }
    }
  }

  lemma MoreProperEntries(t: Schema, f: Field, fields: seq<Field>, v: Value, es: seq<Entry>)
    requires Proper(t, v) && ProperEntries(t, fields, es)
    ensures ProperEntries(t, [f] + fields, [Entry(f.key, v)] + es)
  {
    hide Proper;
  }

  // Proper values under increasing keys make a proper map.
  lemma EntriesMakeMap(item: Schema, fields: seq<Field>, entries: seq<Entry>)
    requires Increasing(ByBytes, fields) && ShortKeys(fields)
    requires |entries| == |fields| < TWO_64 && forall i | 0 <= i < |entries| :: entries[i].key == fields[i].key
    requires forall e | e in entries :: Proper(item, e.value)
    ensures Proper(TMap(item), VMap(entries))
  {
    hide KeyLess;
    forall e | e in entries
      ensures |e.key| < TWO_64
    {
      var i :| 0 <= i < |entries| && entries[i] == e;
      assert fields[i] in fields;
    }
  }

  lemma MapIsProper(item: Schema, s: seq<Byte>)
    requires Positioned(s) && Readable(item) && |s| < TWO_63
    ensures DecodeMap(item, s).Ok? ==> Proper(TMap(item), DecodeMap(item, s).value.0)
    decreases item, 2, 0
  {
    hide Decode, DecodeFields, DecodeEntries, ParseToken, Skip, Proper, Increasing, ShortKeys, ShortData;
    if DecodeMap(item, s).Ok? {
      NoFields();
      FieldsIncrease(Skip(s, HeadLength(s)).value, TokenAt(s).extra, []);
      var fields, entries := OpenMap(s).value.0, DecodeMap(item, s).value.0.entries;
      EntriesAreProper(item, fields);
      EntriesMakeMap(item, fields, entries);
    }
  }

  lemma NoFields()
    ensures Increasing(ByBytes, []) && ShortKeys([]) && ShortData([])
  {
  }

  lemma OptionalIsProper(some: Schema, s: seq<Byte>)
    requires Positioned(s) && Readable(some) && |s| < TWO_63
    ensures match Decode(TOptional(some), s)
            case Err(_) => true
            case Ok((v, _)) =>
              Proper(TOptional(some), v) && (TokenAt(s) != Token(SPECIAL, EXTRA_NULL) ==> !Absent(v))
    decreases some, 2, 0
  {
    hide ParseToken;
    if TokenAt(s) != Token(SPECIAL, EXTRA_NULL) {
      DecodedIsProper(some, s);
      DecodeOfSome(some, s);
    }
  }

  // The next `count` keys with the bytes of their values, in the order they come.
  function ReadFields(s: seq<Byte>, count: nat): (r: Result<(seq<Field>, seq<Byte>), Error>)
    requires Positioned(s)
    decreases count
  {
    if count == 0 then Ok(([], s))
    else if TokenAt(s).kind != TEXT then Err(Mismatch(TokenAt(s)))
    else
      var (key, value) :- TakePayload(s, TokenAt(s).extra);
      var (nested, rest) :- TakeNested(value);
      if !Positioned(nested) then Err(InvalidCbor) else
      var (more, end) :- ReadFields(rest, count - 1);
      Ok(([Field(key, nested)] + more, end))
  }

  lemma {:induction false} FieldsAreCollected(s: seq<Byte>, count: nat, into: seq<Field>)
    requires Positioned(s)
    ensures DecodeFields(s, count, into) ==
            match ReadFields(s, count)
            case Err(e) => Err(e)
            case Ok((read, rest)) => Ok((InsertAll(read, into), rest))
    decreases count
  {
    hide ParseToken, TakePayload, TakeNested, Insert;
    if count > 0 && TokenAt(s).kind == TEXT {
      var key := TakePayload(s, TokenAt(s).extra);
      if key.Ok? {
        var nested := TakeNested(key.value.1);
        if nested.Ok? && Positioned(nested.value.0) {
          var f := Field(key.value.0, nested.value.0);
          FieldsAreCollected(nested.value.1, count - 1, Insert(ByBytes, f, into));
          var rest := ReadFields(nested.value.1, count - 1);
          if rest.Ok? {
            assert ([f] + rest.value.0)[1..] == rest.value.0;
          }
        }
      }
    }
  }

  // Theorem: the fields of a map are those that were read, the first of each key, in the order of
  // a std::map.
  lemma MapKeepsFirst(s: seq<Byte>)
    requires Positioned(s) && OpenMap(s).Ok?
    ensures TokenAt(s).kind == MAP && Positioned(s[HeadLength(s)..])
    ensures var read := ReadFields(s[HeadLength(s)..], TokenAt(s).extra);
            var found := OpenMap(s).value.0;
            && read.Ok? && Keeps(found, read.value.0)
            && forall i, j | 0 <= i < j < |found| :: Alphabetical(found[i].key, found[j].key)
  {
    hide ParseToken, ReadFields, DecodeFields, KeyLess, Alphabetical, Sort;
    var inner := s[HeadLength(s)..];
    FieldsAreCollected(inner, TokenAt(s).extra, []);
    var read := ReadFields(inner, TokenAt(s).extra).value.0;
    InsertAllFromNone(read);
    SortKeepsFirst(ByBytes, read);
    var found := OpenMap(s).value.0;
    forall i, j | 0 <= i < j < |found|
      ensures Alphabetical(found[i].key, found[j].key)
    {
      KeyLessMeans(ByBytes, found[i].key, found[j].key);
    }
  }

  // ---------------------------------------------------------------- integers

  // Theorem: a signed integer is read if and only if it is within the limits of its type, where
  // one that needs more than 63 bits has wrapped around first.
  lemma IntegerReads(low: int, high: int, i: int, rest: seq<Byte>)
    requires -TWO_64 <= i < TWO_64 && Positioned(rest)
    ensures var s := (if i < 0 then EncodeHead(NEGATIVE, -1 - i) else EncodeHead(UNSIGNED, i)) + rest;
            var w := if i >= TWO_63 then i - TWO_64 else if i < -TWO_63 then i + TWO_64 else i;
            Positioned(s) &&
            Decode(TInt(low, high), s) == if low <= w <= high then Ok((VInt(w), rest)) else Err(IntOverflow)
  {
    hide ParseToken, EncodeHead, Scalar;
    var kind, extra := if i < 0 then NEGATIVE else UNSIGNED, if i < 0 then -1 - i else i;
    HeadToken(kind, extra, rest);
    var w := if i >= TWO_63 then i - TWO_64 else if i < -TWO_63 then i + TWO_64 else i;
    ScalarTakesHead(EncodeHead(kind, extra), rest, VInt(w));
  }

  // Theorem: an unsigned integer is read if and only if it is not negative and within the limit.
  lemma NaturalReads(limit: U64, i: int, rest: seq<Byte>)
    requires -TWO_64 <= i < TWO_64 && Positioned(rest)
    ensures var s := (if i < 0 then EncodeHead(NEGATIVE, -1 - i) else EncodeHead(UNSIGNED, i)) + rest;
            Positioned(s) &&
            Decode(TUint(limit), s) == if 0 <= i <= limit then Ok((VUint(i), rest)) else Err(IntOverflow)
  {
    hide ParseToken, EncodeHead, Scalar;
    var kind, extra := if i < 0 then NEGATIVE else UNSIGNED, if i < 0 then -1 - i else i;
    HeadToken(kind, extra, rest);
    ScalarTakesHead(EncodeHead(kind, extra), rest, VUint(extra));
  }

  // ---------------------------------------------------------------- theorems

  // Theorem: on every input, what decoding gives is a value of the type asked for. Integers are
  // within the limits of their type, the keys of maps are distinct and in order, and no present
  // optional holds an absent one.
  lemma {:induction false} DecodedIsProper(t: Schema, s: seq<Byte>)
    requires Positioned(s) && Readable(t) && |s| < TWO_63
    ensures match Decode(t, s)
            case Err(_) => true
            case Ok((v, _)) => Proper(t, v) && (TokenAt(s) != Token(SPECIAL, EXTRA_NULL) ==> !Absent(v))
    decreases t, 0, 0
  {
    if t.TList? {
      hide DecodeList, ParseToken;
      ListIsProper(t.item, s);
    } else if t.TMap? {
      hide DecodeMap, ParseToken;
      MapIsProper(t.item, s);
    } else if t.TOptional? {
      hide Decode, ParseToken;
      OptionalIsProper(t.some, s);
    } else if t.TBytes? || t.TText? || t.TCid? {
      StringIsProper(t, s);
    } else {
      ScalarIsProper(t, s);
    }
  }

  // Theorem: what was read from any input is written in a form that is read back as the same value.
  lemma RewritingIsStable(t: Schema, s: seq<Byte>)
    requires Positioned(s) && Readable(t) && |s| < TWO_63 && Decode(t, s).Ok?
    ensures var v := Decode(t, s).value.0;
            Sized(v) && (|Enc(v)| < TWO_63 ==> Positioned(Enc(v)) && Decode(t, Enc(v)) == Ok((v, [])))
  {
    hide Decode, Enc, ParseToken, ShortLists, Distinguishable;
    DecodedIsProper(t, s);
    var v := Decode(t, s).value.0;
    if |Enc(v)| < TWO_63 {
      RoundTrip(t, v, []);
      assert Enc(v) + [] == Enc(v);
    }
  }
}
