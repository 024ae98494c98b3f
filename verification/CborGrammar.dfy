// The wire grammar of CBOR (section 2 of RFC 7049, definite lengths only): what a head is,
// what a complete item is, and where it ends. Every decoder of the model is compared with
// the recursive definition `ItemEnd` below.
module CborGrammar {
  import opened Base

  const UNSIGNED := 0
  const NEGATIVE := 1
  const BYTES := 2
  const TEXT := 3
  const ARRAY := 4
  const MAP := 5
  const TAG := 6
  const SPECIAL := 7

  const TAG_CID := 42

  type Major = m: int | 0 <= m < 8

  // A head: major type, argument, and number of bytes it occupies.
  datatype Head = Head(major: Major, arg: U64, len: nat)

  // The number of argument bytes that follow a first byte whose low five bits are `info`.
  function ExtraWidth(info: int): (w: Option<nat>) {
    if 0 <= info < 24 then Some(0)
    else if info == 24 then Some(1)
    else if info == 25 then Some(2)
    else if info == 26 then Some(4)
    else if info == 27 then Some(8)
    else None
  }

  function BigEndian(s: seq<Byte>): (n: nat) {
    if s == [] then 0 else 256 * BigEndian(s[..|s| - 1]) + s[|s| - 1]
  }

  function Pow256(w: nat): (p: nat)
    ensures p > 0
  {
    if w == 0 then 1 else 256 * Pow256(w - 1)
  }

  lemma {:induction false} BigEndianBound(s: seq<Byte>)
    ensures BigEndian(s) < Pow256(|s|)
  {
    if s != [] {
      BigEndianBound(s[..|s| - 1]);
    }
  }

  lemma BigEndianFitsU64(s: seq<Byte>)
    requires |s| <= 8
    ensures BigEndian(s) < TWO_64
  {
    BigEndianBound(s);
    Pow256Values();
    Pow256Monotone(|s|, 8);
  }

  lemma Pow256Values()
    ensures Pow256(0) == 1 && Pow256(1) == TWO_8 && Pow256(2) == TWO_16
    ensures Pow256(4) == TWO_32 && Pow256(8) == TWO_64
  {
    assert Pow256(3) == 256 * Pow256(2);
    assert Pow256(5) == 256 * Pow256(4);
    assert Pow256(6) == 256 * Pow256(5);
    assert Pow256(7) == 256 * Pow256(6);
  }

  lemma {:induction false} Pow256Monotone(a: nat, b: nat)
    requires a <= b
    ensures Pow256(a) <= Pow256(b)
  {
    if a < b {
      Pow256Monotone(a, b - 1);
    }
  }

  // The head at position `i` of `s`, or None when it is cut short or uses a reserved width.
  function ParseHead(s: seq<Byte>, i: nat): (h: Option<Head>)
    requires i <= |s|
    ensures h.Some? ==> 1 <= h.value.len <= 9 && i + h.value.len <= |s|
  {
    if i == |s| then None else
    match ExtraWidth(s[i] % 32)
    case None => None
    case Some(w) =>
      if |s| < i + 1 + w then None
      else if w == 0 then Some(Head(s[i] / 32, s[i] % 32, 1))
      else
        BigEndianFitsU64(s[i + 1..i + 1 + w]);
        Some(Head(s[i] / 32, BigEndian(s[i + 1..i + 1 + w]), 1 + w))
  }

  // A head together with what it announces: `payload` raw bytes, then `kids` nested items.
  datatype Unit = Unit(len: nat, payload: nat, kids: nat)

  // With `links` set, a tag must be tag 42 over a non-empty byte string (the DAG-CBOR link
  // form); its head then covers the multibase byte. Without it, a tag is followed by any item.
  function ParseUnit(s: seq<Byte>, i: nat, links: bool): (u: Option<Unit>)
    requires i <= |s|
    ensures u.Some? ==> 1 <= u.value.len && i + u.value.len <= |s|
  {
    match ParseHead(s, i)
    case None => None
    case Some(h) =>
      if h.major == BYTES || h.major == TEXT then Some(Unit(h.len, h.arg, 0))
      else if h.major == ARRAY then Some(Unit(h.len, 0, h.arg))
      else if h.major == MAP then Some(Unit(h.len, 0, 2 * h.arg))
      else if h.major == TAG then
        if links then ParseLink(s, i, h) else Some(Unit(h.len, 0, 1))
      else Some(Unit(h.len, 0, 0))
  }

  function ParseLink(s: seq<Byte>, i: nat, tag: Head): (u: Option<Unit>)
    requires i + tag.len <= |s|
    ensures u.Some? ==> tag.len <= u.value.len && i + u.value.len <= |s|
  {
    match ParseHead(s, i + tag.len)
    case None => None
    case Some(b) =>
      if tag.arg != TAG_CID || b.major != BYTES || b.arg == 0 || |s| <= i + tag.len + b.len then None
      else Some(Unit(tag.len + b.len + 1, b.arg - 1, 0))
  }

  // The recursive grammar: an item is a unit, its payload, and its nested items in turn.
  // The result is the position after the item at `i`, or None when there is no whole item.
  function ItemEnd(s: seq<Byte>, i: nat, links: bool): (end: Option<nat>)
    requires i <= |s|
    ensures end.Some? ==> i < end.value <= |s|
    decreases |s| - i, 0, 0
  {
    match ParseUnit(s, i, links)
    case None => None
    case Some(u) =>
      var start := i + u.len + u.payload;
      if |s| < start then None else ItemsEnd(s, start, u.kids, links)
  }

  // The position after the `count` consecutive items at `i`.
  function ItemsEnd(s: seq<Byte>, i: nat, count: nat, links: bool): (end: Option<nat>)
    requires i <= |s|
    ensures end.Some? ==> i + count <= end.value <= |s|
    decreases |s| - i, 1, count
  {
    if count == 0 then Some(i) else
    match ItemEnd(s, i, links)
    case None => None
    case Some(j) => ItemsEnd(s, j, count - 1, links)
  }

  // The same language read with one counter of outstanding items instead of recursion.
  function FlatEnd(s: seq<Byte>, i: nat, count: nat, links: bool): (end: Option<nat>)
    requires i <= |s|
    ensures end.Some? ==> i + count <= end.value <= |s|
    decreases |s| - i
  {
    if count == 0 then Some(i) else
    match ParseUnit(s, i, links)
    case None => None
    case Some(u) =>
      var start := i + u.len + u.payload;
      if |s| < start then None else FlatEnd(s, start, count - 1 + u.kids, links)
  }

  // Skipping a + b items is skipping a items and then b items.
  lemma {:induction false} ItemsEndSplit(s: seq<Byte>, i: nat, a: nat, b: nat, links: bool)
    requires i <= |s|
    ensures ItemsEnd(s, i, a + b, links) ==
            match ItemsEnd(s, i, a, links)
            case None => None
            case Some(j) => ItemsEnd(s, j, b, links)
    decreases a
  {
    hide ItemEnd;
    if a > 0 {
      match ItemEnd(s, i, links)
      case None =>
      case Some(j) => ItemsEndSplit(s, j, a - 1, b, links);
    }
  }

  // One flat counter of outstanding items reads exactly what the recursion reads.
  lemma {:induction false} FlatIsRecursive(s: seq<Byte>, i: nat, count: nat, links: bool)
    requires i <= |s|
    ensures FlatEnd(s, i, count, links) == ItemsEnd(s, i, count, links)
    decreases |s| - i
  {
    hide ParseUnit;
    if count > 0 {
      match ParseUnit(s, i, links)
      case None =>
      case Some(u) =>
        var start := i + u.len + u.payload;
        if start <= |s| {
          FlatIsRecursive(s, start, u.kids + (count - 1), links);
          ItemsEndSplit(s, start, u.kids, count - 1, links);
        }
    }
  }

  lemma FlatIsItem(s: seq<Byte>, i: nat, links: bool)
    requires i <= |s|
    ensures FlatEnd(s, i, 1, links) == ItemEnd(s, i, links)
  {
    hide ItemEnd;
    FlatIsRecursive(s, i, 1, links);
    match ItemEnd(s, i, links)
    case None =>
    case Some(j) => assert ItemsEnd(s, j, 0, links) == Some(j);
  }

  // Bytes i..i+n of `s` are bytes j..j+n of `t`.
  ghost predicate SameWindow(s: seq<Byte>, i: nat, t: seq<Byte>, j: nat, n: nat) {
    i + n <= |s| && j + n <= |t| && s[i..i + n] == t[j..j + n]
  }

  lemma SubWindow(s: seq<Byte>, i: nat, t: seq<Byte>, j: nat, n: nat, a: nat, b: nat)
    requires SameWindow(s, i, t, j, n) && a <= b <= n
    ensures SameWindow(s, i + a, t, j + a, b - a)
  {
    var v, w := s[i + a..i + b], t[j + a..j + b];
    forall k | 0 <= k < b - a
      ensures v[k] == w[k]
    {
      assert s[i..i + n][a + k] == t[j..j + n][a + k];
    }
  }

  // A head depends only on its own bytes.
  lemma ParseHeadLocal(s: seq<Byte>, i: nat, t: seq<Byte>, j: nat, n: nat)
    requires SameWindow(s, i, t, j, n)
    requires ParseHead(s, i).Some? && ParseHead(s, i).value.len <= n
    ensures ParseHead(t, j) == ParseHead(s, i)
  {
    var h := ParseHead(s, i).value;
    assert s[i..i + n][0] == t[j..j + n][0];
    SubWindow(s, i, t, j, n, 1, h.len);
  }

  lemma ParseUnitLocal(s: seq<Byte>, i: nat, t: seq<Byte>, j: nat, n: nat, links: bool)
    requires SameWindow(s, i, t, j, n)
    requires ParseUnit(s, i, links).Some? && ParseUnit(s, i, links).value.len <= n
    ensures ParseUnit(t, j, links) == ParseUnit(s, i, links)
  {
    hide ParseHead;
    var h := ParseHead(s, i).value;
    ParseHeadLocal(s, i, t, j, n);
    if h.major == TAG && links {
      SubWindow(s, i, t, j, n, h.len, n);
      ParseHeadLocal(s, i + h.len, t, j + h.len, n - h.len);
    }
  }

  // A run of items depends only on its own bytes, not on where it lies or what follows it.
  lemma {:induction false} FlatEndLocal(s: seq<Byte>, i: nat, t: seq<Byte>, j: nat, n: nat,
                                        count: nat, links: bool)
    requires SameWindow(s, i, t, j, n)
    requires FlatEnd(s, i, count, links) == Some(i + n)
    ensures FlatEnd(t, j, count, links) == Some(j + n)
    decreases n
  {
    hide ParseUnit;
    if count > 0 {
      var u := ParseUnit(s, i, links).value;
      var m := u.len + u.payload;
      ParseUnitLocal(s, i, t, j, n, links);
      SubWindow(s, i, t, j, n, m, n);
      FlatEndLocal(s, i + m, t, j + m, n - m, count - 1 + u.kids, links);
    }
  }

  // Theorem: an item is found wherever its bytes are put and whatever follows them, and on no
  // proper prefix of it.
  lemma ItemIsPrefixCode(s: seq<Byte>, before: seq<Byte>, after: seq<Byte>, links: bool)
    requires ItemEnd(s, 0, links) == Some(|s|)
    ensures ItemEnd(before + s + after, |before|, links) == Some(|before| + |s|)
    ensures forall m | 0 <= m < |s| :: ItemEnd(s[..m], 0, links) == None
  {
    hide ItemEnd, FlatEnd;
    FlatIsItem(s, 0, links);
    var t := before + s + after;
    assert t[|before|..|before| + |s|] == s[0..|s|];
    FlatEndLocal(s, 0, t, |before|, |s|, 1, links);
    FlatIsItem(t, |before|, links);
    forall m | 0 <= m < |s|
      ensures ItemEnd(s[..m], 0, links) == None
    {
      FlatIsItem(s[..m], 0, links);
      match ItemEnd(s[..m], 0, links)
      case None =>
      case Some(k) =>
        assert s[..m][0..k] == s[0..k];
        FlatEndLocal(s[..m], 0, s, 0, k, 1, links);
    }
  }

  // Every run of items of the link grammar is one of the general grammar with the same end.
  lemma {:induction false} LinksAreGeneral(s: seq<Byte>, i: nat, count: nat)
    requires i <= |s| && FlatEnd(s, i, count, true).Some?
    ensures FlatEnd(s, i, count, false) == FlatEnd(s, i, count, true)
    decreases |s| - i
  {
    hide ParseHead;
    if count > 0 {
      var u := ParseUnit(s, i, true).value;
      var start := i + u.len + u.payload;
      LinksAreGeneral(s, start, count - 1 + u.kids);
      var h := ParseHead(s, i).value;
      if h.major == TAG {
        LinkIsGeneral(s, i, count);
      }
    }
  }

  // A link is a tag and a byte string of the general grammar.
  lemma LinkIsGeneral(s: seq<Byte>, i: nat, count: nat)
    requires i <= |s| && count > 0 && ParseHead(s, i).Some? && ParseHead(s, i).value.major == TAG
    requires ParseUnit(s, i, true).Some? && i + ParseUnit(s, i, true).value.len + ParseUnit(s, i, true).value.payload <= |s|
    ensures var u := ParseUnit(s, i, true).value;
            u.kids == 0 && FlatEnd(s, i, count, false) == FlatEnd(s, i + u.len + u.payload, count - 1, false)
  {
    hide ParseHead;
    var h := ParseHead(s, i).value;
    var b := ParseHead(s, i + h.len).value;
    assert ParseUnit(s, i, false) == Some(Unit(h.len, 0, 1));
    assert ParseUnit(s, i + h.len, false) == Some(Unit(b.len, b.arg, 0));
  }
}
