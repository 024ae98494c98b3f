// Values that the streams carry, their encoding, and the encode stream.
module CborEncode {
  import opened Base
  import opened CborGrammar
  import opened CborToken
  import opened CborFields

  // A CID is represented by its bytes, a std::map by its entries in key order.
  datatype Value =
    | VBool(flag: bool)
    | VUint(number: U64)
    | VInt(integer: int)
    | VBytes(bytes: seq<Byte>)
    | VText(text: seq<Byte>)
    | VCid(cid: seq<Byte>)
    | VNone
    | VSome(some: Value)
    | VList(items: seq<Value>)
    | VMap(entries: seq<Entry>)

  datatype Entry = Entry(key: Key, value: Value)

  // Integers fit 64 bits, and sizes fit the 64-bit size type.
  predicate Sized(v: Value) {
    match v
    case VBool(_) => true
    case VUint(_) => true
    case VInt(i) => -TWO_63 <= i < TWO_63
    case VBytes(b) => |b| < TWO_64
    case VText(t) => |t| < TWO_64
    case VCid(c) => |c| + 1 < TWO_64
    case VNone => true
    case VSome(w) => Sized(w)
    case VList(items) => |items| < TWO_64 && forall x | x in items :: Sized(x)
    case VMap(entries) =>
      |entries| < TWO_64 && forall e | e in entries :: |e.key| < TWO_64 && Sized(e.value)
  }

  // ---------------------------------------------------------------- encoding

  const NULL_BYTE: Byte := 32 * SPECIAL + EXTRA_NULL

  function EncBool(b: bool): (s: seq<Byte>) {
    [32 * SPECIAL + if b then EXTRA_TRUE else EXTRA_FALSE]
  }

  function EncInt(i: int): (s: seq<Byte>)
    requires -TWO_63 <= i < TWO_63
  {
    if i < 0 then EncodeHead(NEGATIVE, -1 - i) else EncodeHead(UNSIGNED, i)
  }

  function EncText(t: seq<Byte>): (s: seq<Byte>)
    requires |t| < TWO_64
  {
    EncodeHead(TEXT, |t|) + t
  }

  function EncCid(c: seq<Byte>): (s: seq<Byte>)
    requires |c| + 1 < TWO_64
  {
    EncodeHead(TAG, TAG_CID) + (EncodeHead(BYTES, |c| + 1) + ([0] + c))
  }

  function Enc(v: Value): (s: seq<Byte>)
    requires Sized(v)
    decreases v
  {
    match v
    case VBool(b) => EncBool(b)
    case VUint(n) => EncodeHead(UNSIGNED, n)
    case VInt(i) => EncInt(i)
    case VBytes(b) => EncodeHead(BYTES, |b|) + b
    case VText(t) => EncText(t)
    case VCid(c) => EncCid(c)
    case VNone => [NULL_BYTE]
    case VSome(w) => Enc(w)
    case VList(items) => EncodeHead(ARRAY, |items|) + EncItems(items)
    case VMap(entries) => EncMap(EncFields(entries))
  }

  function EncItems(items: seq<Value>): (s: seq<Byte>)
    requires forall x | x in items :: Sized(x)
    decreases items
  {
    if items == [] then [] else Enc(items[0]) + EncItems(items[1..])
  }

  function EncFields(entries: seq<Entry>): (fs: seq<Field>)
    requires forall e | e in entries :: |e.key| < TWO_64 && Sized(e.value)
    ensures |fs| == |entries|
    ensures forall i | 0 <= i < |fs| :: fs[i].key == entries[i].key
    decreases entries
  {
    if entries == [] then []
    else [Field(entries[0].key, Enc(entries[0].value))] + EncFields(entries[1..])
  }

  ghost predicate ShortKeys(fs: seq<Field>) {
    forall f | f in fs :: |f.key| < TWO_64
  }

  // Keys and values one after the other.
  function Pairs(fs: seq<Field>): (s: seq<Byte>)
    requires ShortKeys(fs)
  {
    if fs == [] then [] else EncText(fs[0].key) + (fs[0].data + Pairs(fs[1..]))
  }

  // A map: its size, then its fields in canonical order.
  function EncMap(fs: seq<Field>): (s: seq<Byte>)
    requires |fs| < TWO_64 && ShortKeys(fs)
  {
    SortKeepsKeysShort(ByLength, fs);
    EncodeHead(MAP, |fs|) + Pairs(Sort(ByLength, fs))
  }

  lemma {:induction false} SortKeepsKeysShort(order: Order, fs: seq<Field>)
    requires ShortKeys(fs)
    ensures ShortKeys(Sort(order, fs))
  {
    if fs != [] {
      SortKeepsKeysShort(order, fs[..|fs| - 1]);
      InsertKeepsKeysShort(order, fs[|fs| - 1], Sort(order, fs[..|fs| - 1]));
    }
  }

  lemma {:induction false} InsertKeepsKeysShort(order: Order, f: Field, fs: seq<Field>)
    requires ShortKeys(fs) && |f.key| < TWO_64
    ensures ShortKeys(Insert(order, f, fs))
  {
    if fs != [] {
      InsertKeepsKeysShort(order, f, fs[1..]);
    }
  }

  // ---------------------------------------------------------------- encodings are items

  // `s` is exactly `count` complete items.
  ghost predicate IsItems(s: seq<Byte>, count: nat) {
    ItemsEnd(s, 0, count, true) == Some(|s|)
  }

  lemma IsItemsIsFlat(s: seq<Byte>, count: nat)
    ensures IsItems(s, count) <==> FlatEnd(s, 0, count, true) == Some(|s|)
  {
    FlatIsRecursive(s, 0, count, true);
  }

  lemma OneItem(s: seq<Byte>)
    ensures IsItems(s, 1) <==> ItemEnd(s, 0, true) == Some(|s|)
  {
    IsItemsIsFlat(s, 1);
    FlatIsItem(s, 0, true);
  }

  // Runs of items put one after the other are one run.
  lemma ConcatItems(a: seq<Byte>, m: nat, b: seq<Byte>, n: nat)
    requires IsItems(a, m) && IsItems(b, n)
    ensures IsItems(a + b, m + n)
  {
    hide FlatEnd, ItemsEnd;
    IsItemsIsFlat(a, m);
    IsItemsIsFlat(b, n);
    var s := a + b;
    assert s[0..|a|] == a[0..|a|];
    assert s[|a|..|a| + |b|] == b[0..|b|];
    FlatEndLocal(a, 0, s, 0, |a|, m, true);
    FlatEndLocal(b, 0, s, |a|, |b|, n, true);
    FlatIsRecursive(s, 0, m, true);
    FlatIsRecursive(s, |a|, n, true);
    ItemsEndSplit(s, 0, m, n, true);
  }

  // A head with its payload and its nested items is one item.
  lemma HeadMakesItem(kind: Major, extra: U64, payload: seq<Byte>, kids: seq<Byte>, count: nat)
    requires kind != TAG && IsItems(kids, count)
    requires |payload| == (if kind == BYTES || kind == TEXT then extra else 0)
    requires count == (if kind == ARRAY then extra else if kind == MAP then 2 * extra else 0)
    ensures IsItems(EncodeHead(kind, extra) + payload + kids, 1)
  {
    hide ParseHead, EncodeHead, ItemsEnd;
    var head := EncodeHead(kind, extra);
    var s := head + payload + kids;
    assert s[0..|head|] == head[0..|head|];
    EncodedHeadParses(kind, extra, s, 0);
    var start := |head| + |payload|;
    assert s[start..start + |kids|] == kids[0..|kids|];
    IsItemsIsFlat(kids, count);
    FlatEndLocal(kids, 0, s, start, |kids|, count, true);
    assert ParseUnit(s, 0, true) == Some(Unit(|head|, |payload|, count));
    IsItemsIsFlat(s, 1);
  }

  // A link is tag 42 over a byte string that holds a zero byte and the CID.
  lemma CidBytes(c: seq<Byte>)
    requires |c| + 1 < TWO_64
    ensures EncCid(c) == [0xD8, 0x2A] + EncodeHead(BYTES, |c| + 1) + [0x00] + c
  {
    assert EncodeHead(TAG, TAG_CID) == [0xD8, 0x2A] by {
      HeadBytes(TAG, TAG_CID);
    }
  }

  lemma CidIsItem(c: seq<Byte>)
    requires |c| + 1 < TWO_64
    ensures IsItems(EncCid(c), 1)
  {
    hide ParseHead, EncodeHead, ItemsEnd;
    var tag, head := EncodeHead(TAG, TAG_CID), EncodeHead(BYTES, |c| + 1);
    var s := EncCid(c);
    assert s[0..|tag|] == tag[0..|tag|];
    assert s[|tag|..|tag| + |head|] == head[0..|head|];
    EncodedHeadParses(TAG, TAG_CID, s, 0);
    EncodedHeadParses(BYTES, |c| + 1, s, |tag|);
    assert ParseUnit(s, 0, true) == Some(Unit(|tag| + |head| + 1, |c|, 0));
    IsItemsIsFlat(s, 1);
  }

  lemma NoItems()
    ensures IsItems([], 0)
  {
  }

  lemma LeafIsItem(kind: Major, extra: U64, payload: seq<Byte>)
    requires kind != TAG && kind != ARRAY && kind != MAP
    requires |payload| == (if kind == BYTES || kind == TEXT then extra else 0)
    ensures IsItems(EncodeHead(kind, extra) + payload, 1)
  {
    NoItems();
    HeadMakesItem(kind, extra, payload, [], 0);
    assert EncodeHead(kind, extra) + payload + [] == EncodeHead(kind, extra) + payload;
  }

  ghost predicate AllItems(fs: seq<Field>) {
    forall f | f in fs :: IsItems(f.data, 1)
  }

  lemma {:induction false} PairsAreItems(fs: seq<Field>)
    requires ShortKeys(fs) && AllItems(fs)
    ensures IsItems(Pairs(fs), 2 * |fs|)
  {
    hide IsItems, EncodeHead;
    NoItems();
    if fs != [] {
      PairsAreItems(fs[1..]);
      LeafIsItem(TEXT, |fs[0].key|, fs[0].key);
      ConcatItems(fs[0].data, 1, Pairs(fs[1..]), 2 * |fs[1..]|);
      ConcatItems(EncText(fs[0].key), 1, fs[0].data + Pairs(fs[1..]), 1 + 2 * |fs[1..]|);
    }
  }

  // The same fields in canonical order.
  ghost predicate InCanonicalOrder(sorted: seq<Field>, fs: seq<Field>) {
    && multiset(sorted) == multiset(fs) && ShortKeys(sorted)
    && forall i, j | 0 <= i < j < |sorted| :: Canonical(sorted[i].key, sorted[j].key)
  }

  // Theorem: a map is written as its head and its fields in canonical order: shorter keys first,
  // and keys of one length by their first different byte.
  lemma MapIsCanonical(fs: seq<Field>)
    requires |fs| < TWO_64 && ShortKeys(fs) && DistinctKeys(fs)
    ensures exists sorted ::
              InCanonicalOrder(sorted, fs) && EncMap(fs) == EncodeHead(MAP, |fs|) + Pairs(sorted)
  {
    hide KeyLess, Canonical, EncodeHead, Pairs, Sort;
    var sorted := Sort(ByLength, fs);
    SortIsPermutation(ByLength, fs);
    SortKeepsKeysShort(ByLength, fs);
    forall i, j | 0 <= i < j < |sorted| ensures Canonical(sorted[i].key, sorted[j].key) {
      KeyLessMeans(ByLength, sorted[i].key, sorted[j].key);
    }
    assert InCanonicalOrder(sorted, fs);
  }

  // Theorem: a map of complete values is one complete item, whatever its fields.
  lemma MapIsItem(fs: seq<Field>)
    requires |fs| < TWO_64 && ShortKeys(fs) && AllItems(fs) && DistinctKeys(fs)
    ensures IsItems(EncMap(fs), 1)
  {
    hide IsItems, EncodeHead, Pairs;
    SortKeepsKeysShort(ByLength, fs);
    SortIsPermutation(ByLength, fs);
    var sorted := Sort(ByLength, fs);
    assert |sorted| == |multiset(sorted)| == |multiset(fs)| == |fs|;
    forall f | f in sorted
      ensures IsItems(f.data, 1)
    {
      assert f in multiset(fs);
    }
    PairsAreItems(sorted);
    HeadMakesItem(MAP, |fs|, [], Pairs(sorted), 2 * |fs|);
    assert EncodeHead(MAP, |fs|) + [] == EncodeHead(MAP, |fs|);
  }

  // No std::map in `v` has two equal keys, and its keys are in order.
  predicate Ordered(v: Value) {
    match v
    case VSome(w) => Ordered(w)
    case VList(items) => forall x | x in items :: Ordered(x)
    case VMap(entries) =>
      (forall i, j | 0 <= i < j < |entries| :: KeyLess(ByBytes, entries[i].key, entries[j].key)) &&
      (forall e | e in entries :: Ordered(e.value))
    case _ => true
  }

  // Theorem: the encoding of every value is exactly one item of the grammar.
  lemma {:induction false} EncIsItem(v: Value)
    requires Sized(v) && Ordered(v)
    ensures IsItems(Enc(v), 1)
    decreases v
  {
    hide IsItems, EncodeHead, KeyLess;
    match v
    case VBool(b) => SimpleIsItem(if b then EXTRA_TRUE else EXTRA_FALSE);
    case VUint(n) => NumberIsItem(UNSIGNED, n);
    case VInt(i) => NumberIsItem(if i < 0 then NEGATIVE else UNSIGNED, if i < 0 then -1 - i else i);
    case VBytes(b) => LeafIsItem(BYTES, |b|, b);
    case VText(t) => LeafIsItem(TEXT, |t|, t);
    case VCid(c) => CidIsItem(c);
    case VNone => SimpleIsItem(EXTRA_NULL);
    case VSome(w) => EncIsItem(w);
    case VList(items) =>
      EncItemsAreItems(items);
      HeadMakesItem(ARRAY, |items|, [], EncItems(items), |items|);
      assert EncodeHead(ARRAY, |items|) + [] == EncodeHead(ARRAY, |items|);
    case VMap(entries) =>
      EncFieldsAreItems(entries);
      var fs := EncFields(entries);
      assert Increasing(ByBytes, fs);
      IncreasingIsDistinct(ByBytes, fs);
      MapIsItem(fs);
  }

  lemma NumberIsItem(kind: Major, n: U64)
    requires kind == UNSIGNED || kind == NEGATIVE
    ensures IsItems(EncodeHead(kind, n), 1)
  {
    LeafIsItem(kind, n, []);
    assert EncodeHead(kind, n) + [] == EncodeHead(kind, n);
  }

  lemma SimpleIsItem(extra: U64)
    requires extra < 24
    ensures IsItems([32 * SPECIAL + extra], 1)
  {
    LeafIsItem(SPECIAL, extra, []);
    assert EncodeHead(SPECIAL, extra) + [] == [32 * SPECIAL + extra];
  }

  lemma {:induction false} EncItemsAreItems(items: seq<Value>)
    requires forall x | x in items :: Sized(x) && Ordered(x)
    ensures IsItems(EncItems(items), |items|)
    decreases items
  {
    hide IsItems, Enc;
    NoItems();
    if items != [] {
      EncIsItem(items[0]);
      EncItemsAreItems(items[1..]);
      ConcatItems(Enc(items[0]), 1, EncItems(items[1..]), |items[1..]|);
    }
  }

  lemma {:induction false} EncFieldsAreItems(entries: seq<Entry>)
    requires forall e | e in entries :: |e.key| < TWO_64 && Sized(e.value) && Ordered(e.value)
    ensures AllItems(EncFields(entries))
    decreases entries
  {
    hide IsItems, Enc;
    if entries != [] {
      EncIsItem(entries[0].value);
      EncFieldsAreItems(entries[1..]);
    }
  }
}
