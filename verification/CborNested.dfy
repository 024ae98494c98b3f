// Skipping one nested item with a flat counter: the decoder objects, and the comparison of
// what they accept with the recursive grammar.
module CborNested {
  import opened Base
  import opened CborGrammar
  import opened CborToken

  // ---------------------------------------------------------------- specification

  datatype NestedState = NestedState(token: TokenState, count: U64, size: U64)

  const START := NestedState(FRESH, 0, 0)

  // What the decoder still waits for, in 64-bit arithmetic.
  function More(st: NestedState): (n: U64) {
    (st.token.more + st.size + st.count) % TWO_64
  }

  predicate Live(st: NestedState) {
    !st.token.error && (st.token.more == 0 ==> st.count == 0 && st.size > 0)
  }

  // A complete token adds its payload and its nested items to what is outstanding.
  function Absorb(token: TokenState, count: U64): (st: NestedState) {
    var sum := (count + AnyCount(token.value)) % TWO_64;
    if sum == 0 then NestedState(token, 0, AnySize(token.value))
    else NestedState(FRESH, sum - 1, AnySize(token.value))
  }

  // One pass of the decoder: skip payload, or read one token.
  function Pass(st: NestedState, s: seq<Byte>, i: nat): (r: (NestedState, nat))
    requires Live(st) && i < |s|
    ensures i <= r.1 <= |s|
    ensures !r.0.token.error ==> i < r.1
    ensures !r.0.token.error && More(r.0) != 0 ==> Live(r.0)
  {
    if st.size != 0 then
      var n := if st.size < |s| - i then st.size else |s| - i;
      (st.(size := st.size - n), i + n)
    else
      var (token, j) := TokenRun(st.token, s, i);
      if token.error || token.more > 0 then (st.(token := token), j)
      else (Absorb(token, st.count), j)
  }

  // The position after the item, as the decoder finds it; None when it reports failure.
  function NestedRun(st: NestedState, s: seq<Byte>, i: nat): (end: Option<nat>)
    requires Live(st) && i <= |s|
    ensures end.Some? ==> i < end.value <= |s|
    decreases |s| - i
  {
    if i == |s| then None
    else
      var (next, j) := Pass(st, s, i);
      if next.token.error then None
      else if More(next) == 0 then Some(j)
      else NestedRun(next, s, j)
  }

  function ReadNestedEnd(s: seq<Byte>): (end: Option<nat>)
    ensures end.Some? ==> 0 < end.value <= |s|
  {
    NestedRun(START, s, 0)
  }

  // ---------------------------------------------------------------- decoder objects

  class CborTokenDecoder {
    var value: Token
    var more: nat
    var error: bool
    var tag: bool
    var cid: bool

    ghost function State(): (st: TokenState)
      reads this
    {
      TokenState(value, more, error, tag, cid)
    }

    constructor ()
      ensures State() == FRESH
    {
      value, more, error, tag, cid := NO_TOKEN, 1, false, false, false;
    }

    method Reset()
      modifies this
      ensures State() == FRESH
    {
      value, more, error, tag, cid := NO_TOKEN, 1, false, false, false;
    }

    method Update(first: Byte)
      requires !error && more > 0
      modifies this
      ensures State() == Step(old(State()), first)
    {
      hide Conclude, ShiftIn;
      var byte := first;
      more := more - 1;
      if cid {
        return;
      }
      if value.kind == INVALID {
        value := value.(kind := byte / 32);
        if tag && value.kind != BYTES {
          error := true;
          return;
        }
        byte := byte % 32;
        if byte < 24 {
          value := value.(extra := byte);
        } else {
          more := if byte == 24 then 1 else if byte == 25 then 2
                  else if byte == 26 then 4 else if byte == 27 then 8 else 0;
          if more == 0 {
            error := true;
            return;
          }
        }
      } else {
        value := value.(extra := ShiftIn(value.extra, byte));
      }
      if more == 0 {
        EndOfHead();
      }
    }

    // The head of the token, or of the tag in front of it, is complete.
    method EndOfHead()
      requires !error && more == 0
      modifies this
      ensures State() == Conclude(old(State()))
    {
      if tag {
        value := Token(CID, (value.extra - 1) % TWO_64);
        more := 1;
        cid := true;
      } else if value.kind == CID {
        if value.extra != TAG_CID {
          error := true;
          return;
        }
        value := NO_TOKEN;
        more := 1;
        tag := true;
      }
    }

    // Reads bytes until the token is complete; false when the input ends first or is invalid.
    method Read(input: seq<Byte>) returns (ok: bool, rest: seq<Byte>)
      requires !error
      modifies this
      ensures TokenRun(old(State()), input, 0) == (State(), |input| - |rest|)
      ensures |rest| <= |input| && rest == input[|input| - |rest|..]
      ensures ok <==> !error && more == 0
    {
      var i := 0;
      while more != 0
        invariant i <= |input| && !error
        invariant TokenRun(State(), input, i) == TokenRun(old(State()), input, 0)
        decreases |input| - i
      {
        if i == |input| {
          return false, input[i..];
        }
        Update(input[i]);
        if error {
          return false, input[i..];
        }
        i := i + 1;
      }
      return true, input[i..];
    }
  }

  class CborNestedDecoder {
    const token: CborTokenDecoder
    var moreCount: U64
    var moreSize: U64

    ghost function State(): (st: NestedState)
      reads this, token
    {
      NestedState(token.State(), moreCount, moreSize)
    }

    constructor ()
      ensures fresh(token) && State() == START
    {
      token := new CborTokenDecoder();
      moreCount, moreSize := 0, 0;
    }

    method Read(input: seq<Byte>) returns (ok: bool, rest: seq<Byte>)
      requires Live(State())
      modifies this, token
      ensures ok <==> NestedRun(old(State()), input, 0).Some?
      ensures ok ==> rest == input[NestedRun(old(State()), input, 0).value..]
    {
      hide TokenRun, NestedRun, Step;
      rest := input;
      ghost var i := 0;
      assert input[0..] == input;
      while true
        invariant i <= |input| && rest == input[i..] && Live(State())
        invariant NestedRun(State(), input, i) == NestedRun(old(State()), input, 0)
        decreases |input| - i
      {
        if rest == [] {
          return false, rest;
        }
        ghost var before, i0 := State(), i;
        NestedRunUnfold(before, input, i0);
        if moreSize != 0 {
          var n := if moreSize < |rest| then moreSize else |rest|;
          moreSize := moreSize - n;
          rest := rest[n..];
          i := i + n;
        } else {
          TokenRunShift(token.State(), input, i);
          var read;
          read, rest := token.Read(rest);
          i := |input| - |rest|;
          if read {
            moreSize := AnySize(token.value);
            moreCount := (moreCount + AnyCount(token.value)) % TWO_64;
            if moreCount != 0 {
              moreCount := moreCount - 1;
              token.Reset();
            }
          }
          if token.error {
            return false, rest;
          }
        }
        assert Pass(before, input, i0) == (State(), i);
        if (token.more + moreSize + moreCount) % TWO_64 == 0 {
          return true, rest;
        }
      }
    }
  }

  lemma {:induction false} TokenRunShift(st: TokenState, s: seq<Byte>, i: nat)
    requires i <= |s|
    ensures TokenRun(st, s, i) == (TokenRun(st, s[i..], 0).0, i + TokenRun(st, s[i..], 0).1)
  {
    TokenRunShiftBy(st, s, i, 0);
  }

  lemma {:induction false} TokenRunShiftBy(st: TokenState, s: seq<Byte>, i: nat, k: nat)
    requires i + k <= |s|
    ensures TokenRun(st, s, i + k) == (TokenRun(st, s[i..], k).0, i + TokenRun(st, s[i..], k).1)
    decreases |s| - i - k
  {
    if i + k < |s| && !st.error && st.more > 0 {
      var next := Step(st, s[i + k]);
      if !next.error {
        TokenRunShiftBy(next, s, i, k + 1);
      }
    }
  }

  // Reads one nested item: its bytes, and what follows it.
  method ReadNested(input: seq<Byte>) returns (ok: bool, nested: seq<Byte>, rest: seq<Byte>)
    ensures ok <==> ReadNestedEnd(input).Some?
    ensures ok ==> nested == input[..ReadNestedEnd(input).value]
    ensures ok ==> rest == input[ReadNestedEnd(input).value..]
    ensures !ok ==> nested == []
  {
    var decoder := new CborNestedDecoder();
    ok, rest := decoder.Read(input);
    if ok {
      nested := input[..|input| - |rest|];
    } else {
      nested := [];
    }
  }

  // ---------------------------------------------------------------- agreement with the grammar

  // The exact demand of every token met while skipping `count` items from `i` stays below 2^63.
  ghost predicate Bounded(s: seq<Byte>, i: nat, count: nat)
    requires i <= |s|
    decreases |s| - i
  {
    count == 0 ||
    match ParseToken(s, i)
    case None => true
    case Some((token, len)) =>
      var start := i + len + AnySize(token);
      AnySize(token) + count - 1 + Kids(token) < TWO_63 &&
      (|s| < start || Bounded(s, start, count - 1 + Kids(token)))
  }

  // Units of the link grammar and tokens say the same, except for an empty link.
  lemma UnitIsToken(s: seq<Byte>, i: nat)
    requires i <= |s|
    ensures ParseUnit(s, i, true).Some? ==>
              var u := ParseUnit(s, i, true).value;
              ParseToken(s, i).Some? &&
              var (token, len) := ParseToken(s, i).value;
              u == Unit(len, AnySize(token), Kids(token))
    ensures ParseToken(s, i).Some? && AnySize(ParseToken(s, i).value.0) < TWO_63 ==>
              ParseUnit(s, i, true).Some?
  {
    hide ParseHead;
  }

  // One token and its payload, as the decoder passes over them.
  lemma TokenPass(s: seq<Byte>, i: nat, count: U64)
    requires i < |s| && count < TWO_63 && ParseToken(s, i).Some?
    requires var (token, len) := ParseToken(s, i).value;
             AnySize(token) + count + Kids(token) < TWO_63
    ensures var (token, len) := ParseToken(s, i).value;
            var start, left := i + len + AnySize(token), count + Kids(token);
            NestedRun(NestedState(FRESH, count, 0), s, i) ==
            if |s| < start then None
            else if left == 0 then Some(start)
            else NestedRun(NestedState(FRESH, left - 1, 0), s, start)
  {
    hide TokenRun, ParseToken, NestedRun, Absorb, AnySize, Kids;
    TokenRunIsParse(s, i);
    var (token, len) := ParseToken(s, i).value;
    var done := TokenRun(FRESH, s, i).0;
    var st, next := NestedState(FRESH, count, 0), Absorb(done, count);
    AbsorbFew(done, count);
    assert Pass(st, s, i) == (next, i + len);
    NestedRunUnfold(st, s, i);
    if AnySize(token) > 0 {
      PayloadPass(next, s, i + len);
    }
  }

  lemma AbsorbFew(token: TokenState, count: U64)
    requires count + Kids(token.value) < TWO_64
    ensures var left := count + Kids(token.value);
            Absorb(token, count) ==
              if left == 0 then NestedState(token, 0, AnySize(token.value))
              else NestedState(FRESH, left - 1, AnySize(token.value))
  {
    hide Kids, AnySize;
  }

  lemma NestedRunUnfold(st: NestedState, s: seq<Byte>, i: nat)
    requires Live(st) && i < |s|
    ensures var (next, j) := Pass(st, s, i);
            NestedRun(st, s, i) == if next.token.error then None
                                   else if More(next) == 0 then Some(j)
                                   else NestedRun(next, s, j)
  {
  }

  lemma PayloadPass(st: NestedState, s: seq<Byte>, i: nat)
    requires Live(st) && i <= |s| && st.token.more + st.size + st.count < TWO_64 && st.size > 0
    ensures NestedRun(st, s, i) ==
            if |s| < i + st.size then None
            else if st.token.more + st.count == 0 then Some(i + st.size)
            else NestedRun(st.(size := 0), s, i + st.size)
  {
    hide TokenRun, Absorb;
    if i < |s| && |s| < i + st.size {
      var next := Pass(st, s, i).0;
      assert next == st.(size := st.size - (|s| - i));
      assert NestedRun(next, s, |s|) == None;
    }
  }

  // Without a token, a decoder that waits for few items fails.
  lemma NoTokenFails(s: seq<Byte>, i: nat, count: U64)
    requires i <= |s| && count < TWO_63 && ParseToken(s, i).None?
    ensures NestedRun(NestedState(FRESH, count, 0), s, i) == None
  {
    hide TokenRun, ParseToken;
    TokenRunIsParse(s, i);
    if i < |s| {
      TokenRunStops(FRESH, s, i);
      var (next, j) := Pass(NestedState(FRESH, count, 0), s, i);
      assert next == NestedState(TokenRun(FRESH, s, i).0, count, 0);
    }
  }

  lemma {:induction false} TokenRunStops(st: TokenState, s: seq<Byte>, i: nat)
    requires i <= |s| && st.more <= 8
    ensures TokenRun(st, s, i).0.more <= 8
    ensures TokenRun(st, s, i).0.error || TokenRun(st, s, i).0.more == 0 || TokenRun(st, s, i).1 == |s|
    decreases |s| - i
  {
    if !st.error && st.more > 0 && i < |s| && !Step(st, s[i]).error {
      TokenRunStops(Step(st, s[i]), s, i + 1);
    }
  }

  lemma {:induction false} NestedIsFlat(s: seq<Byte>, i: nat, count: U64)
    requires i <= |s| && count < TWO_63 && Bounded(s, i, count + 1)
    ensures NestedRun(NestedState(FRESH, count, 0), s, i) == FlatEnd(s, i, count + 1, true)
    decreases |s| - i
  {
    hide NestedRun, ParseToken, ParseUnit;
    UnitIsToken(s, i);
    match ParseToken(s, i)
    case None => NoTokenFails(s, i, count);
    case Some((token, len)) =>
      TokenPass(s, i, count);
      var start, left := i + len + AnySize(token), count + Kids(token);
      if start <= |s| && left > 0 {
        NestedIsFlat(s, start, left - 1);
      }
  }

  // A complete run of items never asks for more bytes than it has.
  lemma {:induction false} ItemsAreBounded(s: seq<Byte>, i: nat, count: nat)
    requires i <= |s| < TWO_63 && FlatEnd(s, i, count, true).Some?
    ensures Bounded(s, i, count)
    decreases |s| - i
  {
    hide ParseToken, ParseUnit;
    if count > 0 {
      UnitIsToken(s, i);
      var u := ParseUnit(s, i, true).value;
      ItemsAreBounded(s, i + u.len + u.payload, count - 1 + u.kids);
    }
  }

  lemma ReadNestedOfBounded(s: seq<Byte>)
    requires |s| < TWO_63 && Bounded(s, 0, 1)
    ensures ReadNestedEnd(s) == ItemEnd(s, 0, true)
  {
    NestedIsFlat(s, 0, 0);
    FlatIsItem(s, 0, true);
  }

  lemma ItemIsBounded(s: seq<Byte>)
    requires |s| < TWO_63 && ItemEnd(s, 0, true).Some?
    ensures Bounded(s, 0, 1)
  {
    FlatIsItem(s, 0, true);
    ItemsAreBounded(s, 0, 1);
  }

  // Theorem (completeness): every item of the grammar is read, and to exactly its end.
  lemma NestedReadsEveryItem(s: seq<Byte>)
    requires |s| < TWO_63 && ItemEnd(s, 0, true).Some?
    ensures ReadNestedEnd(s) == ItemEnd(s, 0, true)
  {
    hide ItemEnd, Bounded, ReadNestedEnd;
    ItemIsBounded(s);
    ReadNestedOfBounded(s);
  }

  // Theorem (exact soundness): what the decoder accepts is an item of the grammar if and only
  // if no token on the way made the exact demand reach 2^63.
  lemma NestedAcceptsItemsExactly(s: seq<Byte>, n: nat)
    requires |s| < TWO_63 && ReadNestedEnd(s) == Some(n)
    ensures ItemEnd(s, 0, true) == Some(n) <==> Bounded(s, 0, 1)
  {
    hide ItemEnd, Bounded, ReadNestedEnd;
    if Bounded(s, 0, 1) {
      ReadNestedOfBounded(s);
    }
    if ItemEnd(s, 0, true).Some? {
      ItemIsBounded(s);
    }
  }

  lemma ParseTokenOfPrefix(s: seq<Byte>, m: nat, i: nat)
    requires i <= m <= |s| && ParseToken(s[..m], i).Some?
    ensures ParseToken(s, i) == ParseToken(s[..m], i)
  {
    hide ParseHead;
    var t := s[..m];
    assert t[i..m] == s[i..m];
    ParseHeadLocal(t, i, s, i, m - i);
    var h := ParseHead(t, i).value;
    if h.major == TAG {
      assert t[i + h.len..m] == s[i + h.len..m];
      ParseHeadLocal(t, i + h.len, s, i + h.len, m - i - h.len);
    }
  }

  lemma {:induction false} BoundedOfPrefix(s: seq<Byte>, m: nat, i: nat, count: nat)
    requires i <= m <= |s| && Bounded(s, i, count)
    ensures Bounded(s[..m], i, count)
    decreases |s| - i
  {
    hide ParseToken;
    if count > 0 && ParseToken(s[..m], i).Some? {
      ParseTokenOfPrefix(s, m, i);
      var (token, len) := ParseToken(s, i).value;
      var start := i + len + AnySize(token);
      if start <= m {
        BoundedOfPrefix(s, m, start, count - 1 + Kids(token));
      }
    }
  }

  // Theorem: an item is read whatever follows it, what follows is left untouched, and every
  // proper prefix of it is refused.
  lemma NestedReadsItemThenRest(item: seq<Byte>, rest: seq<Byte>)
    requires |item| + |rest| < TWO_63 && ItemEnd(item, 0, true) == Some(|item|)
    ensures ReadNestedEnd(item + rest) == Some(|item|)
    ensures forall m | 0 <= m < |item| :: ReadNestedEnd(item[..m]) == None
  {
    hide ReadNestedEnd, ItemEnd, Bounded;
    ItemIsPrefixCode(item, [], rest, true);
    assert [] + item + rest == item + rest;
    NestedReadsEveryItem(item + rest);
    ItemIsBounded(item);
    forall m | 0 <= m < |item|
      ensures ReadNestedEnd(item[..m]) == None
    {
      BoundedOfPrefix(item, m, 0, 1);
      ReadNestedOfBounded(item[..m]);
    }
  }

  // The guard matters: the bare head of a map of 2^63 entries is accepted as a whole item,
  // because twice its count wraps around to zero, although no entry follows it.
  lemma NestedAcceptsBareMapHead()
    ensures var s := EncodeHead(MAP, TWO_63);
            ReadNestedEnd(s) == Some(9) && ItemEnd(s, 0, true) == None
  {
    hide ParseHead, TokenRun;
    var s := EncodeHead(MAP, TWO_63);
    EncodedHeadParses(MAP, TWO_63, s, 0);
    assert ParseToken(s, 0) == Some((Token(MAP, TWO_63), 9));
    TokenRunIsParse(s, 0);
    assert Pass(START, s, 0) == (Absorb(TokenRun(FRESH, s, 0).0, 0), 9);
    assert ParseHead(s, 9) == None by { HeadNeedsByte(s); }
    assert ItemEnd(s, 9, true) == None;
    assert ItemsEnd(s, 9, TWO_64, true) == None;
  }

  lemma HeadNeedsByte(s: seq<Byte>)
    ensures ParseHead(s, |s|) == None
  {
  }

  // A list of a link over an empty byte string, and a number.
  const EMPTY_LINK: seq<Byte> := [0x82, 0xD8, 0x2A, 0x40, 0x00]

  lemma EmptyLinkHeads()
    ensures ParseHead(EMPTY_LINK, 0) == Some(Head(ARRAY, 2, 1)) && ParseHead(EMPTY_LINK, 1) == Some(Head(TAG, 42, 2))
    ensures ParseHead(EMPTY_LINK, 3) == Some(Head(BYTES, 0, 1)) && ParseHead(EMPTY_LINK, 4) == Some(Head(UNSIGNED, 0, 1))
  {
    assert EMPTY_LINK[2..3] == [0x2A];
    assert BigEndian([0x2A]) == 0x2A by { assert [0x2A][..0] == []; }
  }

  lemma EmptyLinkIsItem()
    ensures ItemEnd(EMPTY_LINK, 0, false) == Some(5) && ItemEnd(EMPTY_LINK, 0, true) == None
  {
    hide ParseHead;
    var s := EMPTY_LINK;
    EmptyLinkHeads();
    assert ParseUnit(s, 0, false) == Some(Unit(1, 0, 2)) && ParseUnit(s, 1, false) == Some(Unit(2, 0, 1));
    assert ItemEnd(s, 3, false) == Some(4) && ItemEnd(s, 4, false) == Some(5);
    assert ItemsEnd(s, 3, 1, false) == Some(4);
    assert ItemEnd(s, 1, false) == Some(4);
    assert ItemsEnd(s, 4, 1, false) == Some(5);
    assert ItemsEnd(s, 1, 2, false) == Some(5);
    assert ItemEnd(s, 1, true) == None;
    assert ItemsEnd(s, 1, 2, true) == None;
  }

  lemma EmptyLinkIsRead()
    ensures ReadNestedEnd(EMPTY_LINK) == Some(5)
  {
    hide ParseHead, TokenRun, NestedRun;
    var s := EMPTY_LINK;
    EmptyLinkHeads();
    assert ParseToken(s, 0) == Some((Token(ARRAY, 2), 1));
    assert ParseToken(s, 1) == Some((Token(CID, TWO_64 - 1), 4));
    TokenRunIsParse(s, 0);
    TokenRunIsParse(s, 1);
    var one := NestedState(FRESH, 1, 0);
    assert Pass(START, s, 0) == (one, 1);
    NestedRunUnfold(START, s, 0);
    assert Pass(one, s, 1) == (NestedState(FRESH, 0, TWO_64 - 1), 5);
    NestedRunUnfold(one, s, 1);
  }
}
