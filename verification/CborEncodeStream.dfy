// The encode stream: a growing buffer of complete items and a count of them.
module CborEncodeStream {
  import opened Base
  import opened CborGrammar
  import opened CborToken
  import opened CborFields
  import opened CborEncode

  // A finished stream, as it is inserted into another one.
  datatype Finished = Finished(isList: bool, data: seq<Byte>, count: nat)

  // The bytes of a finished stream: a list stream puts its head in front.
  function Data(f: Finished): (s: seq<Byte>)
    requires f.count < TWO_64
  {
    if f.isList then EncodeHead(ARRAY, f.count) + f.data else f.data
  }

  datatype Part = Part(key: Key, value: Finished)

  ghost predicate ValidParts(parts: seq<Part>) {
    && |parts| < TWO_64
    && (forall p | p in parts :: |p.key| < TWO_64)
    && (forall i, j | 0 <= i < j < |parts| :: KeyLess(ByBytes, parts[i].key, parts[j].key))
  }

  ghost predicate AllSingle(parts: seq<Part>) {
    forall p | p in parts :: p.value.count == 1
  }

  function PartFields(parts: seq<Part>): (fs: seq<Field>)
    requires AllSingle(parts)
    ensures |fs| == |parts|
    ensures forall i | 0 <= i < |fs| :: fs[i] == Field(parts[i].key, Data(parts[i].value))
  {
    if parts == [] then []
    else [Field(parts[0].key, Data(parts[0].value))] + PartFields(parts[1..])
  }

  class CborEncodeStream {
    var isList: bool
    var data: seq<Byte>
    var count: nat

    // The buffer is the concatenation of exactly `count` complete items.
    ghost predicate Valid()
      reads this
    {
      IsItems(data, count)
    }

    constructor ()
      ensures Valid() && !isList && data == [] && count == 0
    {
      isList, data, count := false, [], 0;
    }

    constructor List()
      ensures Valid() && isList && data == [] && count == 0
    {
      isList, data, count := true, [], 0;
    }

    // Bytes that are already encoded; the caller vouches for the count.
    constructor Wrap(bytes: seq<Byte>, items: nat)
      ensures !isList && data == bytes && count == items
    {
      isList, data, count := false, bytes, items;
    }

    method Append(bytes: seq<Byte>)
      modifies this`data
      ensures data == old(data) + bytes
    {
      data := data + bytes;
    }

    method WriteHead(kind: Major, extra: U64)
      modifies this`data
      ensures data == old(data) + EncodeHead(kind, extra)
    {
      var head := TokenEncoder(kind, extra);
      Append(head);
    }

    method PutText(text: seq<Byte>)
      requires |text| < TWO_64
      modifies this`data, this`count
      ensures data == old(data) + EncText(text) && count == old(count) + 1
      ensures old(Valid()) ==> Valid()
    {
      count := count + 1;
      WriteHead(TEXT, |text|);
      Append(text);
      assert data == old(data) + EncText(text);
      LeafIsItem(TEXT, |text|, text);
      if old(Valid()) {
        ConcatItems(old(data), old(count), EncText(text), 1);
      }
    }

    method PutCid(cid: seq<Byte>)
      requires |cid| + 1 < TWO_64
      modifies this`data, this`count
      ensures data == old(data) + EncCid(cid) && count == old(count) + 1
      ensures old(Valid()) ==> Valid()
    {
      count := count + 1;
      WriteHead(TAG, TAG_CID);
      WriteHead(BYTES, |cid| + 1);
      data := data + [0];
      Append(cid);
      assert data == old(data) + EncCid(cid);
      CidIsItem(cid);
      if old(Valid()) {
        ConcatItems(old(data), old(count), EncCid(cid), 1);
      }
    }

    // Inserts a finished stream: as one list, or as the items it holds.
    method PutStream(other: Finished)
      requires other.count < TWO_64
      modifies this`data, this`count
      ensures data == old(data) + Data(other)
      ensures count == old(count) + if other.isList then 1 else other.count
      ensures old(Valid()) && IsItems(other.data, other.count) ==> Valid()
    {
      count := count + if other.isList then 1 else other.count;
      if other.isList {
        WriteHead(ARRAY, other.count);
      }
      Append(other.data);
      assert data == old(data) + Data(other);
      if old(Valid()) && IsItems(other.data, other.count) {
        FinishedIsItems(other);
        ConcatItems(old(data), old(count), Data(other), if other.isList then 1 else other.count);
      }
    }

    // Writes keys and values in the order given; they do not raise the count.
    method PutPairs(fields: seq<Field>)
      requires ShortKeys(fields)
      modifies this`data, this`count
      ensures data == old(data) + Pairs(fields) && count == old(count)
    {
      hide Pairs, EncText, IsItems;
      var saved := count;
      ghost var written: seq<Byte> := [];
      assert fields[0..] == fields;
      for i := 0 to |fields|
        invariant data == old(data) + written
        invariant Pairs(fields) == written + Pairs(fields[i..])
      {
        PairsAt(fields, i);
        PutText(fields[i].key);
        PutStream(Finished(false, fields[i].data, 1));
        written := written + (EncText(fields[i].key) + fields[i].data);
      }
      PairsEnd(fields);
      count := saved;
    }

    // Inserts a map of finished streams; fails when one of them does not count as one item.
    method PutMap(parts: seq<Part>) returns (ok: bool)
      requires ValidParts(parts)
      modifies this`data, this`count
      ensures ok <==> AllSingle(parts)
      ensures ok ==> count == old(count) + 1 &&
                     ShortKeys(PartFields(parts)) &&
                     data == old(data) + EncMap(PartFields(parts))
      ensures ok ==> exists sorted ::
                       InCanonicalOrder(sorted, PartFields(parts)) &&
                       data == old(data) + (EncodeHead(MAP, |parts|) + Pairs(sorted))
      ensures ok && old(Valid()) && (forall p | p in parts :: IsItems(p.value.data, 1)) ==> Valid()
    {
      hide IsItems, Pairs, KeyLess, EncodeHead, Sort;
      count := count + 1;
      WriteHead(MAP, |parts|);
      for i := 0 to |parts|
        invariant forall k | 0 <= k < i :: parts[k].value.count == 1
      {
        if parts[i].value.count != 1 {
          return false;
        }
      }
      var fields := PartFields(parts);
      SortKeepsKeysShort(ByLength, fields);
      PutPairs(Sort(ByLength, fields));
      assert data == old(data) + EncMap(fields);
      PartKeysAreDistinct(parts);
      MapIsCanonical(fields);
      if old(Valid()) && (forall p | p in parts :: IsItems(p.value.data, 1)) {
        PartsMakeItem(parts);
        ConcatItems(old(data), old(count), EncMap(fields), 1);
      }
      return true;
    }

    // Encodes one value.
    method Put(v: Value)
      requires Sized(v) && Ordered(v)
      modifies this`data, this`count
      ensures data == old(data) + Enc(v)
      ensures count == old(count) + 1
      ensures old(Valid()) ==> Valid()
      decreases v
    {
      hide IsItems, EncodeHead, KeyLess, EncMap, EncFields, EncItems;
      match v {
      case VBool(b) =>
        count := count + 1;
        Append(EncBool(b));
      case VUint(n) =>
        count := count + 1;
        WriteHead(UNSIGNED, n);
      case VInt(i) =>
        count := count + 1;
        if i < 0 {
          WriteHead(NEGATIVE, -1 - i);
        } else {
          WriteHead(UNSIGNED, i);
        }
      case VBytes(b) =>
        count := count + 1;
        WriteHead(BYTES, |b|);
        Append(b);
      case VText(t) =>
        PutText(t);
      case VCid(c) =>
        PutCid(c);
      case VNone =>
        count := count + 1;
        Append([NULL_BYTE]);
      case VSome(w) =>
        Put(w);
      case VList(items) =>
        PutList(items);
      case VMap(entries) =>
        PutEntries(entries);
      }
      assert data == old(data) + Enc(v);
      if old(Valid()) {
        EncIsItem(v);
        ConcatItems(old(data), old(count), Enc(v), 1);
      }
    }

    // The elements raise the count while they are written; afterwards the list counts once.
    method PutList(items: seq<Value>)
      requires |items| < TWO_64 && forall x | x in items :: Sized(x) && Ordered(x)
      modifies this`data, this`count
      ensures data == old(data) + (EncodeHead(ARRAY, |items|) + EncItems(items))
      ensures count == old(count) + 1
      ensures old(Valid()) ==> Valid()
      decreases items, 1
    {
      hide Enc, EncItems, EncodeHead, IsItems, Sized, Ordered;
      WriteHead(ARRAY, |items|);
      count := count + 1;
      var saved := count;
      ghost var begin := data;
      ghost var written: seq<Byte> := [];
      assert items[0..] == items;
      for i := 0 to |items|
        invariant data == begin + written
        invariant EncItems(items) == written + EncItems(items[i..])
      {
        EncItemsAt(items, i);
        Put(items[i]);
        written := written + Enc(items[i]);
      }
      EncItemsEnd(items);
      count := saved;
      assert data == old(data) + (EncodeHead(ARRAY, |items|) + EncItems(items));
      if old(Valid()) {
        ListIsItem(items);
        ConcatItems(old(data), old(count), EncodeHead(ARRAY, |items|) + EncItems(items), 1);
      }
    }

    // Every value goes to a stream of its own first.
    method PutEntries(entries: seq<Entry>)
      requires |entries| < TWO_64
      requires forall e | e in entries :: |e.key| < TWO_64 && Sized(e.value) && Ordered(e.value)
      requires forall i, j | 0 <= i < j < |entries| :: KeyLess(ByBytes, entries[i].key, entries[j].key)
      modifies this`data, this`count
      ensures data == old(data) + EncMap(EncFields(entries))
      ensures count == old(count) + 1
      ensures old(Valid()) ==> Valid()
      decreases entries, 1
    {
      hide KeyLess, Enc, EncodeHead, EncMap, Sized, Ordered, EncFields, PartFields;
      var parts := PutEach(entries);
      PartsAreFields(entries, parts);
      PartsAreItems(entries, parts);
      var ok := PutMap(parts);
    }

    static method PutEach(entries: seq<Entry>) returns (parts: seq<Part>)
      requires forall e | e in entries :: |e.key| < TWO_64 && Sized(e.value) && Ordered(e.value)
      ensures |parts| == |entries| && PartsOf(entries, parts)
      decreases entries, 0
    {
      hide Enc, EncFields, KeyLess, IsItems, Sized, Ordered;
      parts := [];
      for i := 0 to |entries|
        invariant |parts| == i && PartsOf(entries, parts)
      {
        var sub := new CborEncodeStream();
        sub.Put(entries[i].value);
        assert sub.data == Enc(entries[i].value);
        EncFieldAt(entries, i);
        parts := parts + [Part(entries[i].key, Finished(sub.isList, sub.data, sub.count))];
      }
    }
  }

  // Each entry as a stream of its own.
  ghost predicate PartsOf(entries: seq<Entry>, parts: seq<Part>)
    requires forall e | e in entries :: |e.key| < TWO_64 && Sized(e.value)
  {
    |parts| <= |entries| &&
    forall k | 0 <= k < |parts| :: parts[k] == Part(entries[k].key, Finished(false, EncFields(entries)[k].data, 1))
  }

  lemma PartsAreFields(entries: seq<Entry>, parts: seq<Part>)
    requires forall e | e in entries :: |e.key| < TWO_64 && Sized(e.value)
    requires |parts| == |entries| && PartsOf(entries, parts)
    ensures AllSingle(parts) && PartFields(parts) == EncFields(entries)
    ensures forall k | 0 <= k < |parts| :: parts[k].key == entries[k].key
  {
    hide Enc, Sized;
  }

  lemma PartsAreItems(entries: seq<Entry>, parts: seq<Part>)
    requires forall e | e in entries :: |e.key| < TWO_64 && Sized(e.value) && Ordered(e.value)
    requires |parts| == |entries| && PartsOf(entries, parts)
    ensures forall p | p in parts :: IsItems(p.value.data, 1)
  {
    hide Enc, Sized, Ordered, IsItems, EncFields;
    forall p | p in parts ensures IsItems(p.value.data, 1) {
      var k :| 0 <= k < |parts| && parts[k] == p;
      EncFieldAt(entries, k);
      EncIsItem(entries[k].value);
    }
  }

  lemma ListIsItem(items: seq<Value>)
    requires |items| < TWO_64 && forall x | x in items :: Sized(x) && Ordered(x)
    ensures IsItems(EncodeHead(ARRAY, |items|) + EncItems(items), 1)
  {
    hide IsItems, EncodeHead, EncItems, Sized, Ordered;
    EncItemsAreItems(items);
    HeadMakesItem(ARRAY, |items|, [], EncItems(items), |items|);
    assert EncodeHead(ARRAY, |items|) + [] == EncodeHead(ARRAY, |items|);
  }

  lemma EncItemsAt(items: seq<Value>, i: nat)
    requires i < |items| && forall x | x in items :: Sized(x)
    ensures EncItems(items[i..]) == Enc(items[i]) + EncItems(items[i + 1..])
  {
    hide Enc, Sized;
    assert items[i..][0] == items[i];
    assert items[i..][1..] == items[i + 1..];
  }

  lemma EncItemsEnd(items: seq<Value>)
    requires forall x | x in items :: Sized(x)
    ensures EncItems(items[|items|..]) == []
  {
  }

  lemma PairsAt(fields: seq<Field>, i: nat)
    requires ShortKeys(fields) && i < |fields|
    ensures Pairs(fields[i..]) == EncText(fields[i].key) + fields[i].data + Pairs(fields[i + 1..])
  {
    hide EncText;
    assert fields[i..][0] == fields[i];
    assert fields[i..][1..] == fields[i + 1..];
  }

  lemma PairsEnd(fields: seq<Field>)
    requires ShortKeys(fields)
    ensures Pairs(fields[|fields|..]) == []
  {
  }

  lemma {:induction false} EncFieldAt(entries: seq<Entry>, i: nat)
    requires i < |entries|
    requires forall e | e in entries :: |e.key| < TWO_64 && Sized(e.value)
    ensures EncFields(entries)[i] == Field(entries[i].key, Enc(entries[i].value))
  {
    hide Enc;
    if i > 0 {
      EncFieldAt(entries[1..], i - 1);
    }
  }

  lemma FinishedIsItems(f: Finished)
    requires f.count < TWO_64 && IsItems(f.data, f.count)
    ensures IsItems(Data(f), if f.isList then 1 else f.count)
  {
    if f.isList {
      HeadMakesItem(ARRAY, f.count, [], f.data, f.count);
      assert EncodeHead(ARRAY, f.count) + [] == EncodeHead(ARRAY, f.count);
    }
  }

  lemma PartKeysAreDistinct(parts: seq<Part>)
    requires ValidParts(parts) && AllSingle(parts)
    ensures DistinctKeys(PartFields(parts))
  {
    hide KeyLess;
    var fields := PartFields(parts);
    forall i, j | 0 <= i < j < |fields| ensures fields[i].key != fields[j].key {
      KeyLessIsStrict(ByBytes, parts[i].key, parts[j].key);
    }
  }

  lemma PartsMakeItem(parts: seq<Part>)
    requires ValidParts(parts) && AllSingle(parts) && forall p | p in parts :: IsItems(p.value.data, 1)
    ensures ShortKeys(PartFields(parts)) && IsItems(EncMap(PartFields(parts)), 1)
  {
    hide IsItems, KeyLess, EncMap;
    var fields := PartFields(parts);
    forall f | f in fields
      ensures IsItems(f.data, 1)
    {
      var i :| 0 <= i < |fields| && fields[i] == f;
      assert parts[i] in parts;
      FinishedIsItems(parts[i].value);
    }
    assert Increasing(ByBytes, fields);
    IncreasingIsDistinct(ByBytes, fields);
    MapIsItem(fields);
  }
}
