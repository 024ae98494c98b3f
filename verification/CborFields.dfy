// Map fields and their two orders: the byte order in which a std::map keeps its keys, and the
// canonical order of section 3.9 of RFC 7049, shorter keys first.
module CborFields {
  import opened Base

  type Key = seq<Byte>

  // One map entry whose value is already, or still, encoded.
  datatype Field = Field(key: Key, data: seq<Byte>)

  datatype Order = ByBytes | ByLength

  predicate BytesLess(a: Key, b: Key) {
    if b == [] then false
    else if a == [] then true
    else if a[0] != b[0] then a[0] < b[0]
    else BytesLess(a[1..], b[1..])
  }

  predicate KeyLess(order: Order, a: Key, b: Key) {
    if order == ByLength && |a| != |b| then |a| < |b| else BytesLess(a, b)
  }

  lemma {:induction false} BytesLessIsStrict(a: Key, b: Key)
    ensures !(BytesLess(a, b) && BytesLess(b, a))
    ensures a != b ==> BytesLess(a, b) || BytesLess(b, a)
    ensures a == b ==> !BytesLess(a, b)
  {
    if a != [] && b != [] && a[0] == b[0] {
      BytesLessIsStrict(a[1..], b[1..]);
      assert a == [a[0]] + a[1..] && b == [b[0]] + b[1..];
    }
  }

  lemma {:induction false} BytesLessIsTransitive(a: Key, b: Key, c: Key)
    requires BytesLess(a, b) && BytesLess(b, c)
    ensures BytesLess(a, c)
  {
    if a != [] && a[0] == b[0] == c[0] {
      BytesLessIsTransitive(a[1..], b[1..], c[1..]);
    }
  }

  lemma KeyLessIsStrict(order: Order, a: Key, b: Key)
    ensures !(KeyLess(order, a, b) && KeyLess(order, b, a))
    ensures a != b ==> KeyLess(order, a, b) || KeyLess(order, b, a)
    ensures a == b ==> !KeyLess(order, a, b)
  {
    BytesLessIsStrict(a, b);
  }

  lemma KeyLessIsTransitive(order: Order, a: Key, b: Key, c: Key)
    requires KeyLess(order, a, b) && KeyLess(order, b, c)
    ensures KeyLess(order, a, c)
  {
    if BytesLess(a, b) && BytesLess(b, c) {
      BytesLessIsTransitive(a, b, c);
    }
  }

  // ---------------------------------------------------------------- what the orders mean

  // The keys agree up to `k`, where the first has the smaller byte.
  ghost predicate DiffersAt(a: Key, b: Key, k: nat) {
    k < |a| && k < |b| && a[..k] == b[..k] && a[k] < b[k]
  }

  ghost predicate SmallerByte(a: Key, b: Key) {
    exists k: nat :: DiffersAt(a, b, k)
  }

  // The order of a std::map of strings: the first different byte decides, and a prefix comes first.
  ghost predicate Alphabetical(a: Key, b: Key) {
    SmallerByte(a, b) || (|a| < |b| && b[..|a|] == a)
  }

  // The canonical order: the shorter key first, and among keys of one length the smaller byte.
  ghost predicate Canonical(a: Key, b: Key) {
    |a| < |b| || (|a| == |b| && SmallerByte(a, b))
  }

  lemma SmallerByteLater(a: Key, b: Key)
    requires a != [] && b != [] && a[0] == b[0]
    ensures SmallerByte(a, b) <==> SmallerByte(a[1..], b[1..])
  {
    var c, d := a[1..], b[1..];
    if k: nat :| DiffersAt(a, b, k) {
      assert c[..k - 1] == a[..k][1..] && d[..k - 1] == b[..k][1..];
      assert DiffersAt(c, d, k - 1);
    }
    if k: nat :| DiffersAt(c, d, k) {
      assert a[..k + 1] == [a[0]] + c[..k] && b[..k + 1] == [b[0]] + d[..k];
      assert DiffersAt(a, b, k + 1);
    }
  }

  lemma FirstByteDecides(a: Key, b: Key)
    requires a != [] && b != [] && a[0] != b[0]
    ensures SmallerByte(a, b) <==> a[0] < b[0]
  {
    if a[0] < b[0] {
      assert a[..0] == b[..0];
      assert DiffersAt(a, b, 0);
    }
    forall k: nat
      ensures DiffersAt(a, b, k) ==> k == 0
    {
      FirstByteEndsPrefix(a, b, k);
    }
  }

  lemma FirstByteEndsPrefix(a: Key, b: Key, k: nat)
    requires a != [] && b != [] && a[0] != b[0]
    ensures DiffersAt(a, b, k) ==> k == 0
  {
    if 0 < k <= |a| && k <= |b| {
      assert a[..k][0] == a[0] && b[..k][0] == b[0];
    }
  }

  lemma {:induction false} BytesLessMeans(a: Key, b: Key)
    ensures BytesLess(a, b) <==> Alphabetical(a, b)
  {
    hide SmallerByte;
    if a == [] || b == [] {
      assert !SmallerByte(a, b) by { NoByteToCompare(a, b); }
      assert a == [] ==> b[..|a|] == a;
    } else if a[0] != b[0] {
      FirstByteDecides(a, b);
      assert |a| < |b| ==> b[..|a|][0] == b[0];
    } else {
      BytesLessMeans(a[1..], b[1..]);
      SmallerByteLater(a, b);
      if |a| < |b| {
        assert b[1..][..|a| - 1] == b[..|a|][1..];
        assert a == [a[0]] + a[1..] && b[..|a|] == [b[0]] + b[..|a|][1..];
      }
    }
  }

  lemma NoByteToCompare(a: Key, b: Key)
    requires a == [] || b == []
    ensures !SmallerByte(a, b)
  {
  }

  // Theorem: the comparator is the order of the map, or the canonical order of section 3.9 of
  // RFC 7049, said with lengths and bytes.
  lemma KeyLessMeans(order: Order, a: Key, b: Key)
    ensures KeyLess(order, a, b) <==> if order == ByBytes then Alphabetical(a, b) else Canonical(a, b)
  {
    hide SmallerByte, BytesLess;
    BytesLessMeans(a, b);
  }

  // ---------------------------------------------------------------- sorting

  ghost predicate Increasing(order: Order, fs: seq<Field>) {
    forall i, j | 0 <= i < j < |fs| :: KeyLess(order, fs[i].key, fs[j].key)
  }

  ghost predicate DistinctKeys(fs: seq<Field>) {
    forall i, j | 0 <= i < j < |fs| :: fs[i].key != fs[j].key
  }

  // Puts a field in its place, unless its key is already there.
  function Insert(order: Order, f: Field, fs: seq<Field>): (r: seq<Field>) {
    if fs == [] then [f]
    else if f.key == fs[0].key then fs
    else if KeyLess(order, f.key, fs[0].key) then [f] + fs
    else [fs[0]] + Insert(order, f, fs[1..])
  }

  // The fields inserted one after the other.
  function Sort(order: Order, fs: seq<Field>): (r: seq<Field>) {
    if fs == [] then []
    else Insert(order, fs[|fs| - 1], Sort(order, fs[..|fs| - 1]))
  }

  lemma {:induction false} InsertKeepsIncreasing(order: Order, f: Field, fs: seq<Field>)
    requires Increasing(order, fs)
    ensures Increasing(order, Insert(order, f, fs))
    ensures forall g | g in Insert(order, f, fs) :: g == f || g in fs
  {
    if fs != [] && f.key != fs[0].key {
      KeyLessIsStrict(order, f.key, fs[0].key);
      var rest := Insert(order, f, fs[1..]);
      if KeyLess(order, f.key, fs[0].key) {
        forall j | 1 <= j < |fs|
          ensures KeyLess(order, f.key, fs[j].key)
        {
          KeyLessIsTransitive(order, f.key, fs[0].key, fs[j].key);
        }
      } else {
        InsertKeepsIncreasing(order, f, fs[1..]);
        forall j | 0 <= j < |rest|
          ensures KeyLess(order, fs[0].key, rest[j].key)
        {
          assert rest[j] in rest;
        }
      }
    }
  }

  lemma {:induction false} InsertAdds(order: Order, f: Field, fs: seq<Field>)
    requires forall g | g in fs :: g.key != f.key
    ensures multiset(Insert(order, f, fs)) == multiset(fs) + multiset{f}
  {
    if fs != [] && !KeyLess(order, f.key, fs[0].key) {
      assert fs == [fs[0]] + fs[1..];
      InsertAdds(order, f, fs[1..]);
    }
  }

  // Theorem: sorting fields with distinct keys gives strictly increasing keys, and loses and
  // invents nothing.
  lemma {:induction false} SortIsPermutation(order: Order, fs: seq<Field>)
    requires DistinctKeys(fs)
    ensures Increasing(order, Sort(order, fs))
    ensures multiset(Sort(order, fs)) == multiset(fs)
  {
    if fs != [] {
      var f, front := fs[|fs| - 1], fs[..|fs| - 1];
      SortIsPermutation(order, front);
      assert fs == front + [f];
      InsertKeepsIncreasing(order, f, Sort(order, front));
      forall g | g in Sort(order, front)
        ensures g.key != f.key
      {
        assert g in multiset(Sort(order, front));
        assert g in front;
      }
      InsertAdds(order, f, Sort(order, front));
    }
  }

  // `fs[i]` is the first field with its key.
  ghost predicate FirstWithKey(fs: seq<Field>, i: nat) {
    i < |fs| && forall j: nat | j < i :: fs[j].key != fs[i].key
  }

  ghost predicate KeptFrom(fs: seq<Field>, g: Field) {
    exists i: nat :: FirstWithKey(fs, i) && fs[i] == g
  }

  ghost predicate NewKey(f: Field, fs: seq<Field>) {
    forall h | h in fs :: h.key != f.key
  }

  lemma SmallerIsNew(order: Order, f: Field, fs: seq<Field>)
    requires Increasing(order, fs) && fs != [] && KeyLess(order, f.key, fs[0].key)
    ensures NewKey(f, fs)
  {
    hide KeyLess;
    KeyLessIsStrict(order, f.key, fs[0].key);
    forall h | h in fs
      ensures h.key != f.key
    {
      var j :| 0 <= j < |fs| && fs[j] == h;
      KeyLessIsStrict(order, fs[0].key, fs[j].key);
    }
  }

  lemma {:induction false} InsertFinds(order: Order, f: Field, fs: seq<Field>, g: Field)
    requires Increasing(order, fs)
    ensures g in Insert(order, f, fs) <==> g in fs || (g == f && NewKey(f, fs))
  {
    hide KeyLess;
    if fs != [] {
      assert fs == [fs[0]] + fs[1..];
      if f.key == fs[0].key {
        assert fs[0] in fs;
      } else if KeyLess(order, f.key, fs[0].key) {
        SmallerIsNew(order, f, fs);
      } else {
        InsertFinds(order, f, fs[1..], g);
      }
    }
  }

  ghost predicate Keeps(kept: seq<Field>, fs: seq<Field>) {
    forall g :: g in kept <==> KeptFrom(fs, g)
  }

  // Theorem: of fields with one key the first is kept, and the kept ones are in strict order.
  lemma {:induction false} SortKeepsFirst(order: Order, fs: seq<Field>)
    ensures Increasing(order, Sort(order, fs))
    ensures Keeps(Sort(order, fs), fs)
  {
    hide KeyLess, Insert, KeptFrom, NewKey;
    if fs == [] {
      NothingKept();
    } else {
      var f, front := fs[|fs| - 1], fs[..|fs| - 1];
      SortKeepsFirst(order, front);
      InsertKeepsIncreasing(order, f, Sort(order, front));
      forall g
        ensures g in Sort(order, fs) <==> KeptFrom(fs, g)
      {
        InsertFinds(order, f, Sort(order, front), g);
        KeptGrows(Sort(order, front), fs, g);
      }
    }
  }

  lemma NothingKept()
    ensures Keeps([], [])
  {
  }

  lemma StillFirst(fs: seq<Field>, i: nat)
    requires i + 1 < |fs|
    ensures FirstWithKey(fs, i) <==> FirstWithKey(fs[..|fs| - 1], i)
  {
    var front := fs[..|fs| - 1];
    assert forall j: nat | j <= i :: front[j] == fs[j];
  }

  lemma KeptGrows(kept: seq<Field>, fs: seq<Field>, g: Field)
    requires fs != [] && Keeps(kept, fs[..|fs| - 1])
    ensures KeptFrom(fs, g) <==> g in kept || (g == fs[|fs| - 1] && NewKey(g, kept))
  {
    hide NewKey, FirstWithKey;
    var n := |fs| - 1;
    var front := fs[..n];
    NewKeyMeans(kept, fs);
    FirstIsInside(fs);
    FirstIsInside(front);
    forall i: nat | i < n
      ensures FirstWithKey(fs, i) <==> FirstWithKey(front, i)
    {
      StillFirst(fs, i);
    }
  }

  lemma FirstIsInside(fs: seq<Field>)
    ensures forall i: nat | FirstWithKey(fs, i) :: i < |fs|
  {
  }

  lemma NewKeyMeans(kept: seq<Field>, fs: seq<Field>)
    requires fs != [] && Keeps(kept, fs[..|fs| - 1])
    ensures FirstWithKey(fs, |fs| - 1) <==> NewKey(fs[|fs| - 1], kept)
  {
    var n := |fs| - 1;
    var front := fs[..n];
    if FirstWithKey(fs, n) {
      forall h | h in kept
        ensures h.key != fs[n].key
      {
        var j: nat :| FirstWithKey(front, j) && front[j] == h;
        assert front[j] == fs[j];
      }
    }
    if NewKey(fs[n], kept) {
      forall j: nat | j < n
        ensures fs[j].key != fs[n].key
      {
        var k := FirstOfKey(front, j);
        assert front[k] in kept;
      }
    }
  }

  lemma {:induction false} FirstOfKey(fs: seq<Field>, j: nat) returns (k: nat)
    requires j < |fs|
    ensures k <= j && FirstWithKey(fs, k) && fs[k].key == fs[j].key
    decreases j
  {
    if i: nat :| i < j && fs[i].key == fs[j].key {
      k := FirstOfKey(fs, i);
    } else {
      k := j;
    }
  }

  lemma SmallestFieldIsFirst(order: Order, a: seq<Field>, b: seq<Field>)
    requires Increasing(order, a) && Increasing(order, b) && multiset(a) == multiset(b)
    requires a != [] && b != []
    ensures a[0] == b[0]
  {
    hide KeyLess;
    assert a[0] in multiset(b) && b[0] in multiset(a);
    var i :| 0 <= i < |b| && b[i] == a[0];
    var j :| 0 <= j < |a| && a[j] == b[0];
    KeyLessIsStrict(order, a[0].key, b[0].key);
  }

  // Strictly increasing sequences of the same fields are equal.
  lemma {:induction false} IncreasingIsUnique(order: Order, a: seq<Field>, b: seq<Field>)
    requires Increasing(order, a) && Increasing(order, b) && multiset(a) == multiset(b)
    ensures a == b
  {
    hide KeyLess;
    assert |multiset(a)| == |a| && |multiset(b)| == |b|;
    if a != [] && b != [] {
      SmallestFieldIsFirst(order, a, b);
      TailFields(a);
      TailFields(b);
      IncreasingIsUnique(order, a[1..], b[1..]);
    }
  }

  lemma TailFields(a: seq<Field>)
    requires a != []
    ensures a == [a[0]] + a[1..] && multiset(a[1..]) == multiset(a) - multiset{a[0]}
  {
    assert a == [a[0]] + a[1..];
  }

  lemma IncreasingIsDistinct(order: Order, fs: seq<Field>)
    requires Increasing(order, fs)
    ensures DistinctKeys(fs)
  {
    forall i, j | 0 <= i < j < |fs|
      ensures fs[i].key != fs[j].key
    {
      KeyLessIsStrict(order, fs[i].key, fs[j].key);
    }
  }

  // Theorem: a std::map written in canonical order and read back is the same std::map.
  lemma CanonicalOrderIsReversible(fs: seq<Field>)
    requires Increasing(ByBytes, fs)
    ensures Sort(ByBytes, Sort(ByLength, fs)) == fs
  {
    var sent := Sort(ByLength, fs);
    IncreasingIsDistinct(ByBytes, fs);
    SortIsPermutation(ByLength, fs);
    IncreasingIsDistinct(ByLength, sent);
    SortIsPermutation(ByBytes, sent);
    IncreasingIsUnique(ByBytes, Sort(ByBytes, sent), fs);
  }
}
