// Reading back what the encode stream wrote.
module CborRoundTrip {
  import opened Base
  import opened CborGrammar
  import opened CborToken
  import opened CborNested
  import opened CborFields
  import opened CborEncode
  import opened CborDecode

  // `v` is a value of the C++ type that `t` stands for.
  ghost predicate Typed(t: Schema, v: Value)
    ensures Typed(t, v) ==> Sized(v) && Ordered(v)
    decreases v
  {
    match v
    case VBool(_) => t == TBool
    case VUint(n) => t.TUint? && n <= t.limit
    case VInt(i) => t.TInt? && -TWO_63 <= t.low <= i <= t.high < TWO_63
    case VBytes(b) => t == TBytes && |b| < TWO_64
    case VText(b) => t == TText && |b| < TWO_64
    case VCid(c) => t == TCid && |c| + 1 < TWO_64
    case VNone => t.TOptional?
    case VSome(w) => t.TOptional? && Typed(t.some, w)
    case VList(items) => t.TList? && |items| < TWO_64 && forall x | x in items :: Typed(t.item, x)
    case VMap(entries) =>
      t.TMap? && |entries| < TWO_64 &&
      (forall i, j | 0 <= i < j < |entries| :: KeyLess(ByBytes, entries[i].key, entries[j].key)) &&
      (forall e | e in entries :: |e.key| < TWO_64 && Typed(t.item, e.value))
  }

  // Every list in `v` can be counted with 32 bits.
  ghost predicate ShortLists(v: Value) {
    match v
    case VSome(w) => ShortLists(w)
    case VList(items) => |items| < TWO_32 && forall x | x in items :: ShortLists(x)
    case VMap(entries) => forall e | e in entries :: ShortLists(e.value)
    case _ => true
  }

  // ---------------------------------------------------------------- optionals

  // An optional that is absent, or present around one that is: all of these are written as null.
  predicate Absent(v: Value) {
    v.VNone? || (v.VSome? && Absent(v.some))
  }

  // Every optional that is present holds something that is not written as null.
  predicate Distinguishable(v: Value) {
    match v
    case VSome(w) => !Absent(w) && Distinguishable(w)
    case VList(items) => forall x | x in items :: Distinguishable(x)
    case VMap(entries) => forall e | e in entries :: Distinguishable(e.value)
    case _ => true
  }

  // The value that is read where `v` was written: an optional written as null is read as absent.
  ghost function ReadAs(v: Value): (r: Value)
    decreases v
  {
    match v
    case VSome(w) => if Absent(w) then VNone else VSome(ReadAs(w))
    case VList(items) => VList(ReadItemsAs(items))
    case VMap(entries) => VMap(ReadEntriesAs(entries))
    case _ => v
  }

  ghost function ReadItemsAs(items: seq<Value>): (r: seq<Value>)
    decreases items
  {
    if items == [] then [] else [ReadAs(items[0])] + ReadItemsAs(items[1..])
  }

  ghost function ReadEntriesAs(entries: seq<Entry>): (r: seq<Entry>)
    decreases entries
  {
    if entries == [] then []
    else [Entry(entries[0].key, ReadAs(entries[0].value))] + ReadEntriesAs(entries[1..])
  }

  // A value is read as itself if and only if its optionals can be told apart.
  lemma {:induction false} ReadAsItself(v: Value)
    ensures ReadAs(v) == v <==> Distinguishable(v)
    decreases v, 1
  {
    match v
    case VSome(w) => ReadAsItself(w);
    case VList(items) => ItemsReadAsThemselves(items);
    case VMap(entries) => EntriesReadAsThemselves(entries);
    case _ =>
  }

  lemma {:induction false} ItemsReadAsThemselves(items: seq<Value>)
    ensures ReadItemsAs(items) == items <==> forall x | x in items :: Distinguishable(x)
    decreases items, 0
  {
    hide Distinguishable, ReadAs;
    if items != [] {
      var first, more := items[0], items[1..];
      assert items == [first] + more;
      ReadAsItself(first);
      ItemsReadAsThemselves(more);
      assert ReadItemsAs(items)[1..] == ReadItemsAs(more);
    }
  }

  lemma {:induction false} EntriesReadAsThemselves(entries: seq<Entry>)
    ensures ReadEntriesAs(entries) == entries <==> forall e | e in entries :: Distinguishable(e.value)
    decreases entries, 0
  {
    hide Distinguishable, ReadAs;
    if entries != [] {
      var first, more := entries[0], entries[1..];
      assert entries == [first] + more;
      ReadAsItself(first.value);
      EntriesReadAsThemselves(more);
      assert ReadEntriesAs(entries)[1..] == ReadEntriesAs(more);
    }
  }

  lemma {:induction false} AbsentIsNull(v: Value)
    requires Absent(v)
    ensures Sized(v) && Enc(v) == [NULL_BYTE] && ShortLists(v) && ReadAs(v) == VNone
    decreases v
  {
    if v.VSome? {
      AbsentIsNull(v.some);
    }
  }

  // ---------------------------------------------------------------- tokens of encodings

  lemma HeadToken(kind: Major, extra: U64, tail: seq<Byte>)
    requires kind != TAG
    ensures var s := EncodeHead(kind, extra) + tail;
            Positioned(s) && TokenAt(s) == Token(kind, extra) && HeadLength(s) == |EncodeHead(kind, extra)|
  {
    hide ParseHead, EncodeHead;
    var head := EncodeHead(kind, extra);
    var s := head + tail;
    assert s[0..|head|] == head[0..|head|];
    EncodedHeadParses(kind, extra, s, 0);
  }

  lemma CidToken(c: seq<Byte>, tail: seq<Byte>)
    requires |c| + 1 < TWO_64
    ensures var s := EncCid(c) + tail;
            Positioned(s) && TokenAt(s) == Token(CID, |c|) && HeadLength(s) + |c| == |EncCid(c)|
    ensures EncCid(c)[|EncCid(c)| - |c|..] == c
  {
    hide ParseHead, EncodeHead;
    var tag, head := EncodeHead(TAG, TAG_CID), EncodeHead(BYTES, |c| + 1);
    var s := EncCid(c) + tail;
    assert s[0..|tag|] == tag[0..|tag|];
    assert s[|tag|..|tag| + |head|] == head[0..|head|];
    EncodedHeadParses(TAG, TAG_CID, s, 0);
    EncodedHeadParses(BYTES, |c| + 1, s, |tag|);
  }

  lemma ItemIsPositioned(item: seq<Byte>, tail: seq<Byte>)
    requires IsItems(item, 1)
    ensures item != [] && Positioned(item + tail)
  {
    hide ParseUnit, ParseToken;
    OneItem(item);
    ItemIsPrefixCode(item, [], tail, true);
    assert [] + item + tail == item + tail;
    UnitIsToken(item + tail, 0);
  }

  lemma NestedTakesItem(item: seq<Byte>, rest: seq<Byte>)
    requires IsItems(item, 1) && |item| + |rest| < TWO_63
    ensures TakeNested(item + rest) == if Positioned(rest) then Ok((item, rest)) else Err(InvalidCbor)
  {
    hide ParseToken, ReadNestedEnd;
    OneItem(item);
    NestedReadsItemThenRest(item, rest);
    assert (item + rest)[..|item|] == item;
    assert (item + rest)[|item|..] == rest;
  }

  lemma PayloadTakesBytes(head: seq<Byte>, bytes: seq<Byte>, rest: seq<Byte>)
    requires var s := head + bytes + rest; Positioned(s) && HeadLength(s) == |head|
    ensures TakePayload(head + bytes + rest, |bytes|) ==
            if Positioned(rest) then Ok((bytes, rest)) else Err(InvalidCbor)
  {
    hide ParseToken;
    var s := head + bytes + rest;
    assert s[|head|..|head| + |bytes|] == bytes;
    assert s[|head| + |bytes|..] == rest;
  }

  lemma ScalarTakesHead(head: seq<Byte>, rest: seq<Byte>, v: Value)
    requires var s := head + rest; Positioned(s) && HeadLength(s) == |head|
    ensures Scalar(v, head + rest) == if Positioned(rest) then Ok((v, rest)) else Err(InvalidCbor)
  {
    hide ParseToken;
    assert (head + rest)[|head|..] == rest;
  }

  // ---------------------------------------------------------------- scalars

  // What reading a value back must give.
  ghost predicate ReadsBack(t: Schema, v: Value, rest: seq<Byte>)
    requires Sized(v)
  {
    Positioned(Enc(v) + rest) &&
    match Decode(t, Enc(v) + rest)
    case Ok((w, r)) => ShortLists(v) && Positioned(rest) && w == ReadAs(v) && r == rest
    case Err(_) => !(ShortLists(v) && Positioned(rest))
  }

  lemma SpecialReadsBack(extra: U64, rest: seq<Byte>, v: Value)
    requires extra < 24
    ensures var s := [32 * SPECIAL + extra] + rest;
            Positioned(s) && TokenAt(s) == Token(SPECIAL, extra) &&
            Scalar(v, s) == if Positioned(rest) then Ok((v, rest)) else Err(InvalidCbor)
  {
    HeadToken(SPECIAL, extra, rest);
    assert EncodeHead(SPECIAL, extra) == [32 * SPECIAL + extra];
    ScalarTakesHead([32 * SPECIAL + extra], rest, v);
  }

  lemma ScalarReadsBack(t: Schema, v: Value, rest: seq<Byte>)
    requires Typed(t, v)
    requires v.VBool? || v.VUint? || v.VInt? || v.VNone?
    ensures ReadsBack(t, v, rest)
  {
    hide ParseToken, EncodeHead, Scalar;
    match v
    case VBool(b) => SpecialReadsBack(if b then EXTRA_TRUE else EXTRA_FALSE, rest, v);
    case VNone => SpecialReadsBack(EXTRA_NULL, rest, v);
    case VUint(n) =>
      HeadToken(UNSIGNED, n, rest);
      ScalarTakesHead(EncodeHead(UNSIGNED, n), rest, v);
    case VInt(i) =>
      var kind, extra := if i < 0 then NEGATIVE else UNSIGNED, if i < 0 then -1 - i else i;
      HeadToken(kind, extra, rest);
      ScalarTakesHead(EncodeHead(kind, extra), rest, v);
  }

  lemma StringReadsBack(t: Schema, v: Value, rest: seq<Byte>)
    requires Typed(t, v) && (v.VBytes? || v.VText? || v.VCid?)
    ensures ReadsBack(t, v, rest)
  {
    hide ParseToken, EncodeHead, TakePayload;
    match v
    case VBytes(b) =>
      HeadToken(BYTES, |b|, b + rest);
      assert EncodeHead(BYTES, |b|) + b + rest == EncodeHead(BYTES, |b|) + (b + rest);
      PayloadTakesBytes(EncodeHead(BYTES, |b|), b, rest);
    case VText(b) =>
      HeadToken(TEXT, |b|, b + rest);
      assert EncodeHead(TEXT, |b|) + b + rest == EncodeHead(TEXT, |b|) + (b + rest);
      PayloadTakesBytes(EncodeHead(TEXT, |b|), b, rest);
    case VCid(c) =>
      CidToken(c, rest);
      var e := EncCid(c);
      var head := e[..|e| - |c|];
      assert head + c == e;
      PayloadTakesBytes(head, c, rest);
  }

  // ---------------------------------------------------------------- lists

  // A 32-bit element number never reaches a count of 2^32 or more, so reading goes on until
  // the stream runs out, and fails.
  lemma {:induction false} LongListFails(t: Schema, s: seq<Byte>, count: U64, i: nat)
    requires Positioned(s) && i < TWO_32 <= count
    ensures DecodeItems(t, s, count, i).Err?
    decreases |s|
  {
    hide Decode;
    match Decode(t, s)
    case Err(_) =>
    case Ok((_, rest)) => LongListFails(t, rest, count, (i + 1) % TWO_32);
  }

  lemma ItemsArePositioned(items: seq<Value>)
    requires forall x | x in items :: Sized(x) && Ordered(x)
    ensures Positioned(EncItems(items))
  {
    hide Enc, IsItems, ParseToken;
    if items != [] {
      EncIsItem(items[0]);
      ItemIsPositioned(Enc(items[0]), EncItems(items[1..]));
    }
  }

  ghost predicate AllTyped(t: Schema, items: seq<Value>) {
    forall x | x in items :: Typed(t, x)
  }

  // The elements from number `i` on read back, up to the first one that does not.
  lemma {:induction false} ItemsReadBack(t: Schema, items: seq<Value>, count: U64, i: nat)
    requires AllTyped(t, items) && i + |items| == count < TWO_32 && |EncItems(items)| < TWO_63
    ensures Positioned(EncItems(items))
    ensures match DecodeItems(t, EncItems(items), count, i)
            case Ok(vs) => vs == ReadItemsAs(items) && forall x | x in items :: ShortLists(x)
            case Err(_) => exists x | x in items :: !ShortLists(x)
    decreases items, 0
  {
    hide Decode, DecodeItems, Enc, EncItems, ParseToken, Typed, Sized, Ordered, ShortLists, ReadAs, Positioned;
    ItemsArePositioned(items);
    ItemsUnfold(t, items, count, i);
    if items != [] {
      var first, rest := items[0], EncItems(items[1..]);
      assert items == [first] + items[1..];
      ItemsReadBack(t, items[1..], count, i + 1);
      EveryValueReadsBack(t, first, rest);
    }
  }

  lemma ItemsUnfold(t: Schema, items: seq<Value>, count: U64, i: nat)
    requires AllTyped(t, items) && i + |items| == count < TWO_32 && Positioned(EncItems(items))
    ensures items == [] ==> EncItems(items) == [] && DecodeItems(t, EncItems(items), count, i) == Ok([])
    ensures items != [] ==> EncItems(items) == Enc(items[0]) + EncItems(items[1..])
    ensures items != [] ==>
              var first := Decode(t, EncItems(items));
              var r := DecodeItems(t, EncItems(items), count, i);
              if first.Err? then r.Err?
              else
                var more := DecodeItems(t, first.value.1, count, i + 1);
                if more.Err? then r.Err? else r == Ok([first.value.0] + more.value)
  {
    hide Decode, Enc, Typed, Positioned;
  }

  lemma ListReadsBack(t: Schema, v: Value, rest: seq<Byte>)
    requires v.VList? && Typed(t, v) && |Enc(v)| + |rest| < TWO_63
    ensures ReadsBack(t, v, rest)
    decreases v, 0
  {
    hide ParseToken, EncodeHead, TakeNested, IsItems, DecodeItems, Decode;
    var items, item := v.items, t.item;
    var head, body, s := EncodeHead(ARRAY, |items|), EncItems(items), Enc(v) + rest;
    EncIsItem(v);
    NestedTakesItem(Enc(v), rest);
    HeadToken(ARRAY, |items|, body + rest);
    assert s == head + (body + rest);
    HeadToken(ARRAY, |items|, body);
    assert Enc(v)[|head|..] == body;
    ItemsArePositioned(items);
    assert OpenList(Enc(v)) == Ok(body);
    if |items| < TWO_32 {
      ItemsReadBack(item, items, |items|, 0);
    } else {
      LongListFails(item, body, |items|, 0);
    }
    var read := DecodeItems(item, body, |items|, 0);
    assert read.Ok? <==> ShortLists(v);
    assert DecodeList(item, s) == if !Positioned(rest) then Err(InvalidCbor)
                                  else if read.Err? then Err(read.error)
                                  else Ok((VList(read.value), rest));
    DecodeOfList(item, s);
  }

  lemma DecodeOfList(item: Schema, s: seq<Byte>)
    requires Positioned(s)
    ensures Decode(TList(item), s) == DecodeList(item, s)
  {
    hide DecodeList, ParseToken;
  }

  lemma DecodeOfMap(item: Schema, s: seq<Byte>)
    requires Positioned(s)
    ensures Decode(TMap(item), s) == DecodeMap(item, s)
  {
    hide DecodeMap, ParseToken;
  }

  // ---------------------------------------------------------------- maps

  function InsertAll(fs: seq<Field>, into: seq<Field>): (r: seq<Field>) {
    if fs == [] then into else InsertAll(fs[1..], Insert(ByBytes, fs[0], into))
  }

  lemma {:induction false} InsertAllIsSort(done: seq<Field>, fs: seq<Field>)
    ensures InsertAll(fs, Sort(ByBytes, done)) == Sort(ByBytes, done + fs)
    decreases |fs|
  {
    hide Insert;
    if fs == [] {
      assert done + fs == done;
    } else {
      assert (done + [fs[0]])[..|done|] == done;
      InsertAllIsSort(done + [fs[0]], fs[1..]);
      assert done + [fs[0]] + fs[1..] == done + fs;
    }
  }

  lemma InsertAllFromNone(fs: seq<Field>)
    ensures InsertAll(fs, []) == Sort(ByBytes, fs)
  {
    InsertAllIsSort([], fs);
    assert [] + fs == fs;
  }

  lemma PairsArePositioned(fs: seq<Field>, rest: seq<Byte>)
    requires ShortKeys(fs)
    ensures Positioned(Pairs(fs) + rest) <==> fs != [] || Positioned(rest)
  {
    hide ParseToken, EncodeHead;
    if fs == [] {
      assert Pairs(fs) + rest == rest;
    } else {
      var key := fs[0].key;
      var tail := key + (fs[0].data + Pairs(fs[1..])) + rest;
      assert Pairs(fs) + rest == EncodeHead(TEXT, |key|) + tail;
      HeadToken(TEXT, |key|, tail);
    }
  }

  // The fields come back one after the other, and end up in a std::map.
  lemma {:induction false} FieldsReadBack(fs: seq<Field>, rest: seq<Byte>, into: seq<Field>)
    requires ShortKeys(fs) && AllItems(fs) && |Pairs(fs)| + |rest| < TWO_63
    requires Positioned(Pairs(fs) + rest)
    ensures match DecodeFields(Pairs(fs) + rest, |fs|, into)
            case Ok((found, r)) => Positioned(rest) && found == InsertAll(fs, into) && r == rest
            case Err(_) => !Positioned(rest)
    decreases |fs|
  {
    hide ParseToken, EncodeHead, TakePayload, TakeNested, IsItems, Insert, Pairs;
    PairsUnfold(fs);
    if fs == [] {
      assert Pairs(fs) + rest == rest;
    } else {
      var key, data, more := fs[0].key, fs[0].data, Pairs(fs[1..]) + rest;
      var head := EncodeHead(TEXT, |key|);
      assert Pairs(fs) + rest == head + key + (data + more);
      assert Pairs(fs) + rest == head + (key + (data + more));
      HeadToken(TEXT, |key|, key + (data + more));
      ItemIsPositioned(data, more);
      PayloadTakesBytes(head, key, data + more);
      NestedTakesItem(data, more);
      PairsArePositioned(fs[1..], rest);
      ItemIsPositioned(data, []);
      assert data + [] == data;
      if Positioned(more) {
        FieldsReadBack(fs[1..], rest, Insert(ByBytes, Field(key, data), into));
      }
    }
  }

  lemma PairsUnfold(fs: seq<Field>)
    requires ShortKeys(fs)
    ensures Pairs(fs) == if fs == [] then []
                         else EncodeHead(TEXT, |fs[0].key|) + fs[0].key + (fs[0].data + Pairs(fs[1..]))
  {
    hide EncodeHead;
  }

  ghost predicate EntriesTyped(t: Schema, entries: seq<Entry>) {
    forall e | e in entries :: |e.key| < TWO_64 && Typed(t, e.value)
  }

  lemma {:induction false} EntriesReadBack(t: Schema, entries: seq<Entry>)
    requires EntriesTyped(t, entries)
    requires forall f | f in EncFields(entries) :: |f.data| < TWO_63
    ensures match DecodeEntries(t, EncFields(entries))
            case Ok(es) => es == ReadEntriesAs(entries) && forall e | e in entries :: ShortLists(e.value)
            case Err(_) => exists e | e in entries :: !ShortLists(e.value)
    decreases entries, 0
  {
    hide Decode, Enc, EncFields, DecodeEntries, ParseToken, Typed, Sized, Ordered, ShortLists;
    var fs := EncFields(entries);
    EntriesUnfold(t, entries);
    if entries != [] {
      assert entries == [entries[0]] + entries[1..];
      EntriesReadBack(t, entries[1..]);
      assert fs[0] in fs;
      EveryValueReadsBack(t, entries[0].value, []);
      assert fs[0].data + [] == fs[0].data;
    }
  }

  lemma EntriesUnfold(t: Schema, entries: seq<Entry>)
    requires forall e | e in entries :: |e.key| < TWO_64 && Sized(e.value)
    ensures var fs := EncFields(entries);
            if entries == [] then fs == [] && DecodeEntries(t, fs) == Ok([])
            else
              && fs[0] == Field(entries[0].key, Enc(entries[0].value)) && fs[1..] == EncFields(entries[1..])
              && (Positioned(fs[0].data) && Decode(t, fs[0].data).Ok? && DecodeEntries(t, fs[1..]).Ok? ==>
                    DecodeEntries(t, fs) ==
                      Ok([Entry(fs[0].key, Decode(t, fs[0].data).value.0)] + DecodeEntries(t, fs[1..]).value))
              && (!Positioned(fs[0].data) || Decode(t, fs[0].data).Err? || DecodeEntries(t, fs[1..]).Err? ==>
                    DecodeEntries(t, fs).Err?)
  {
    hide Decode, Enc, Sized;
    if entries != [] {
      assert EncFields(entries)[1..] == EncFields(entries[1..]);
    }
  }

  // The fields of a std::map, sent in canonical order, come back as that std::map.
  lemma MapFieldsReadBack(fs: seq<Field>, rest: seq<Byte>)
    requires |fs| < TWO_64 && ShortKeys(fs) && AllItems(fs) && Increasing(ByBytes, fs)
    requires |EncMap(fs)| + |rest| < TWO_63
    ensures var s := EncMap(fs) + rest;
            Positioned(s) && TokenAt(s) == Token(MAP, |fs|) &&
            match OpenMap(s)
            case Ok((found, r)) => Positioned(rest) && found == fs && r == rest
            case Err(_) => !Positioned(rest)
    ensures forall f | f in fs :: |f.data| < TWO_63
  {
    hide ParseToken, EncodeHead, IsItems, DecodeFields, KeyLess, Pairs, Sort, DistinctKeys;
    SortKeepsKeysShort(ByLength, fs);
    var sorted := Sort(ByLength, fs);
    var head, body := EncodeHead(MAP, |fs|), Pairs(sorted);
    IncreasingIsDistinct(ByBytes, fs);
    SortIsPermutation(ByLength, fs);
    SameMembers(fs, sorted);
    var s := EncMap(fs) + rest;
    HeadToken(MAP, |fs|, body + rest);
    assert s == head + (body + rest);
    assert s[|head|..] == body + rest;
    PairsArePositioned(sorted, rest);
    FieldsAreShorter(sorted);
    if Positioned(body + rest) {
      FieldsReadBack(sorted, rest, []);
      InsertAllFromNone(sorted);
      CanonicalOrderIsReversible(fs);
    }
  }

  lemma MapReadsBack(t: Schema, v: Value, rest: seq<Byte>)
    requires v.VMap? && Typed(t, v) && |Enc(v)| + |rest| < TWO_63
    ensures ReadsBack(t, v, rest)
    decreases v, 0
  {
    hide ParseToken, IsItems, OpenMap, DecodeEntries, KeyLess, EncMap, EncFields, Decode;
    var fs, s := EncFields(v.entries), Enc(v) + rest;
    EncFieldsAreItems(v.entries);
    assert Increasing(ByBytes, fs);
    MapFieldsReadBack(fs, rest);
    EntriesReadBack(t.item, v.entries);
    var read := DecodeEntries(t.item, fs);
    assert read.Ok? <==> ShortLists(v);
    DecodeOfMap(t.item, s);
  }

  lemma SameMembers(a: seq<Field>, b: seq<Field>)
    requires multiset(a) == multiset(b)
    ensures |a| == |b| && forall f :: f in a <==> f in b
  {
    assert |multiset(a)| == |a| && |multiset(b)| == |b|;
    forall f
      ensures f in a <==> f in b
    {
      assert f in multiset(a) <==> f in multiset(b);
    }
  }

  lemma {:induction false} FieldsAreShorter(fs: seq<Field>)
    requires ShortKeys(fs)
    ensures forall f | f in fs :: |f.data| <= |Pairs(fs)|
  {
    hide EncText;
    if fs != [] {
      FieldsAreShorter(fs[1..]);
    }
  }

  // ---------------------------------------------------------------- theorem

  // Theorem: decoding what was encoded succeeds if and only if no list has 2^32 elements or more
  // and the next item is there to stand on. It then stands on it, and gives the same value if and
  // only if no present optional holds one that is written as null.
  lemma RoundTrip(t: Schema, v: Value, rest: seq<Byte>)
    requires Typed(t, v) && |Enc(v)| + |rest| < TWO_63
    ensures Positioned(Enc(v) + rest)
    ensures match Decode(t, Enc(v) + rest)
            case Ok((w, r)) => ShortLists(v) && Positioned(rest) && (w == v <==> Distinguishable(v)) && r == rest
            case Err(_) => !(ShortLists(v) && Positioned(rest))
  {
    hide Decode, Enc, ReadAs, Distinguishable, ShortLists, Positioned;
    EveryValueReadsBack(t, v, rest);
    ReadAsItself(v);
  }

  // Theorem: what decoding gives, for every value, is the value with every optional that was
  // written as null read as absent.
  lemma {:induction false} EveryValueReadsBack(t: Schema, v: Value, rest: seq<Byte>)
    requires Typed(t, v) && |Enc(v)| + |rest| < TWO_63
    ensures ReadsBack(t, v, rest)
    decreases v, 1
  {
    if v.VList? {
      ListReadsBack(t, v, rest);
    } else if v.VMap? {
      MapReadsBack(t, v, rest);
    } else if v.VSome? {
      SomeReadsBack(t, v, rest);
    } else if v.VBytes? || v.VText? || v.VCid? {
      StringReadsBack(t, v, rest);
    } else {
      ScalarReadsBack(t, v, rest);
    }
  }

  lemma SomeReadsBack(t: Schema, v: Value, rest: seq<Byte>)
    requires v.VSome? && Typed(t, v) && |Enc(v)| + |rest| < TWO_63
    ensures ReadsBack(t, v, rest)
    decreases v, 0
  {
    hide ParseToken, Typed, KeyLess, Scalar;
    TypedSome(t, v);
    if Absent(v) {
      AbsentIsNull(v);
      SpecialReadsBack(EXTRA_NULL, rest, VNone);
    } else {
      EveryValueReadsBack(t.some, v.some, rest);
      NotNull(t.some, v.some, rest);
      DecodeOfSome(t.some, Enc(v) + rest);
    }
  }

  lemma TypedSome(t: Schema, v: Value)
    requires v.VSome? && Typed(t, v)
    ensures t.TOptional? && Typed(t.some, v.some)
  {
  }

  lemma DecodeOfSome(some: Schema, s: seq<Byte>)
    requires Positioned(s) && TokenAt(s) != Token(SPECIAL, EXTRA_NULL)
    ensures Decode(TOptional(some), s) ==
            match Decode(some, s)
            case Err(e) => Err(e)
            case Ok((v, rest)) => Ok((VSome(v), rest))
  {
    hide ParseToken;
  }

  // Only what is written as null starts with a null token.
  lemma {:induction false} NotNull(t: Schema, v: Value, rest: seq<Byte>)
    requires Typed(t, v) && !Absent(v) && Positioned(Enc(v) + rest)
    ensures TokenAt(Enc(v) + rest) != Token(SPECIAL, EXTRA_NULL)
  {
    hide ParseToken, EncodeHead, KeyLess, EncItems, Pairs, EncFields, Scalar, TokenAt, Sort, EncCid;
    match v
    case VBool(b) => SpecialReadsBack(if b then EXTRA_TRUE else EXTRA_FALSE, rest, v);
    case VUint(n) => HeadToken(UNSIGNED, n, rest);
    case VInt(i) => HeadToken(if i < 0 then NEGATIVE else UNSIGNED, if i < 0 then -1 - i else i, rest);
    case VBytes(b) =>
      HeadToken(BYTES, |b|, b + rest);
      assert Enc(v) + rest == EncodeHead(BYTES, |b|) + (b + rest);
    case VText(b) =>
      HeadToken(TEXT, |b|, b + rest);
      assert Enc(v) + rest == EncodeHead(TEXT, |b|) + (b + rest);
    case VCid(c) => CidToken(c, rest);
    case VSome(w) => NotNull(t.some, w, rest);
    case VNone =>
    case VList(items) =>
      HeadToken(ARRAY, |items|, EncItems(items) + rest);
      assert Enc(v) + rest == EncodeHead(ARRAY, |items|) + (EncItems(items) + rest);
    case VMap(entries) =>
      var fs := EncFields(entries);
      SortKeepsKeysShort(ByLength, fs);
      var body := Pairs(Sort(ByLength, fs));
      HeadToken(MAP, |fs|, body + rest);
      assert Enc(v) + rest == EncodeHead(MAP, |fs|) + (body + rest);
  }

  // The input where it fails: a present optional around an absent one is read as absent.
  lemma NestedOptionalIsLost(t: Schema)
    ensures var v := VSome(VNone);
            !Distinguishable(v) && Decode(TOptional(TOptional(t)), Enc(v)) == Ok((VNone, []))
  {
    hide ParseToken, Scalar;
    SpecialReadsBack(EXTRA_NULL, [], VNone);
    assert [NULL_BYTE] + [] == [NULL_BYTE];
  }

  // And the other one: a list of 2^32 one-byte numbers is written and cannot be read.
  lemma LongListIsLost()
    ensures var t, v := TList(TUint(255)), VList(Ones(TWO_32));
            Typed(t, v) && Positioned(Enc(v)) && Decode(t, Enc(v)).Err?
  {
    hide Decode, EncodeHead, ParseToken;
    var t, v := TList(TUint(255)), VList(Ones(TWO_32));
    assert Typed(t, v);
    OnesLength(TWO_32);
    RoundTrip(t, v, []);
    assert Enc(v) + [] == Enc(v);
  }

  function Ones(n: nat): (items: seq<Value>)
    ensures |items| == n && forall x | x in items :: x == VUint(1)
  {
    seq(n, _ => VUint(1))
  }

  lemma {:induction false} OnesLength(n: nat)
    ensures |EncItems(Ones(n))| == n
  {
    if n > 0 {
      assert Ones(n)[1..] == Ones(n - 1);
      OnesLength(n - 1);
    }
  }
}
