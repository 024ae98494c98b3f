// What the resumable decoder promises over whole streams: chunking does not matter, it stops
// exactly at the end of the item, and it agrees with the grammar and with the nested decoder.
module CborFraming {
  import opened Base
  import opened CborGrammar
  import opened CborBuffering
  import opened CborNested
  import CborToken

  // ---------------------------------------------------------------- chunking

  lemma {:induction false} FeedFirstChunk(st: State, a: seq<Byte>, b: seq<Byte>, i: nat)
    requires Consistent(st) && i <= |a|
    ensures var r := Feed(st, a, i);
            Feed(st, a + b, i) ==
            if r.status != Good || Done(r.st) then r else Feed(r.st, a + b, |a|)
    decreases |a| - i
  {
    hide Step, Done;
    if !Done(st) && i < |a| {
      assert (a + b)[i] == a[i];
      match Step(st, a[i])
      case Stuck(_) =>
      case Next(next) =>
        StepKeepsConsistent(st, a[i]);
        FeedFirstChunk(next, a, b, i + 1);
    }
  }

  lemma {:induction false} FeedSecondChunk(st: State, a: seq<Byte>, b: seq<Byte>, i: nat)
    requires Consistent(st) && i <= |b|
    ensures Feed(st, a + b, |a| + i) ==
            var r := Feed(st, b, i); r.(pos := |a| + r.pos)
    decreases |b| - i
  {
    hide Step, Done;
    if !Done(st) && i < |b| {
      assert (a + b)[|a| + i] == b[i];
      match Step(st, b[i])
      case Stuck(_) =>
      case Next(next) =>
        StepKeepsConsistent(st, b[i]);
        FeedSecondChunk(next, a, b, i + 1);
    }
  }

  function Joined(chunks: seq<seq<Byte>>): (s: seq<Byte>) {
    if chunks == [] then [] else chunks[0] + Joined(chunks[1..])
  }

  // One call of Consume per chunk, until the item is complete or the decoder is stuck. `pos`
  // is the total number of bytes taken.
  function FeedChunks(st: State, chunks: seq<seq<Byte>>): (r: Fed)
    requires Consistent(st)
    decreases |chunks|
  {
    if chunks == [] || Done(st) then Fed(st, 0, Good)
    else
      var r := Feed(st, chunks[0], 0);
      if r.status != Good then r
      else
        var rest := FeedChunks(r.st, chunks[1..]);
        rest.(pos := r.pos + rest.pos)
  }

  // Theorem: however the bytes are split, the final state, the number of bytes taken and the
  // outcome are those of feeding them at once.
  lemma {:induction false} ChunkingIsIrrelevant(st: State, chunks: seq<seq<Byte>>)
    requires Consistent(st)
    ensures FeedChunks(st, chunks) == Feed(st, Joined(chunks), 0)
    decreases |chunks|
  {
    hide Step, Done;
    if chunks != [] && !Done(st) {
      var a, b := chunks[0], Joined(chunks[1..]);
      FeedFirstChunk(st, a, b, 0);
      var r := Feed(st, a, 0);
      if r.status == Good {
        ChunkingIsIrrelevant(r.st, chunks[1..]);
        FeedSecondChunk(r.st, a, b, 0);
        if Done(r.st) {
          DoneTakesNothing(r.st, b);
        } else {
          GoodAndNotDoneTakesAll(st, a, 0);
        }
      }
    }
  }

  lemma DoneTakesNothing(st: State, s: seq<Byte>)
    requires Consistent(st) && Done(st)
    ensures Feed(st, s, 0) == Fed(st, 0, Good)
  {
  }

  lemma {:induction false} GoodAndNotDoneTakesAll(st: State, s: seq<Byte>, i: nat)
    requires Consistent(st) && i <= |s|
    ensures var r := Feed(st, s, i); r.status == Good && !Done(r.st) ==> r.pos == |s|
    decreases |s| - i
  {
    hide Step, Done;
    if !Done(st) && i < |s| && Step(st, s[i]).Next? {
      StepKeepsConsistent(st, s[i]);
      GoodAndNotDoneTakesAll(Step(st, s[i]).st, s, i + 1);
    }
  }

  // Theorem: an input no longer than MoreBytes is taken whole, so a reader may always ask the
  // network for that many bytes without reading past the item.
  lemma {:induction false} MoreBytesIsSafe(st: State, s: seq<Byte>, i: nat)
    requires Consistent(st) && i <= |s| && |s| - i <= MoreBytes(st)
    requires Feed(st, s, i).status == Good
    ensures Feed(st, s, i).pos == |s|
    decreases |s| - i
  {
    if i < |s| {
      var next := Step(st, s[i]).st;
      StepKeepsConsistent(st, s[i]);
      if i + 1 < |s| {
        MoreBytesIsSafe(next, s, i + 1);
      }
    }
  }

  // ---------------------------------------------------------------- grammar

  function Sum(nested: seq<U64>): (n: nat) {
    if nested == [] then 0 else Sum(nested[..|nested| - 1]) + nested[|nested| - 1]
  }

  lemma {:induction false} SettleKeepsSum(nested: seq<U64>)
    ensures Sum(Settle(nested)) == Sum(nested)
  {
    if nested != [] && nested[|nested| - 1] == 0 {
      SettleKeepsSum(nested[..|nested| - 1]);
    }
  }

  lemma SumPush(nested: seq<U64>, n: U64)
    ensures Sum(nested + [n]) == Sum(nested) + n
  {
    assert (nested + [n])[..|nested|] == nested;
  }

  lemma SumTakeOne(nested: seq<U64>)
    requires nested != [] && nested[|nested| - 1] > 0
    ensures Sum(TakeOne(nested)) == Sum(nested) - 1
  {
    assert TakeOne(nested)[..|nested| - 1] == nested[..|nested| - 1];
  }

  lemma {:induction false} SumPositive(nested: seq<U64>)
    requires nested != [] ==> nested[|nested| - 1] > 0
    ensures Sum(nested) == 0 <==> nested == []
  {
  }

  // A complete head leaves one item less outstanding, plus what it announces.
  lemma HeadDoneCounts(nested: seq<U64>, major: Major, value: U64)
    requires nested != [] && nested[|nested| - 1] > 0 && HeadDone(nested, major, value).Some?
    ensures var st := HeadDone(nested, major, value).value;
            var kids := if major == ARRAY then value else if major == MAP then 2 * value
                        else if major == TAG then 1 else 0;
            Consistent(st) && st.head.None? &&
            st.bytes == (if major == BYTES || major == TEXT then value else 0) &&
            Sum(st.nested) == Sum(nested) - 1 + kids
  {
    hide Settle, Sum;
    var left := TakeOne(nested);
    SumTakeOne(nested);
    SettleKeepsSum(left);
    var pushed := left + [if major == MAP then 2 * value else if major == TAG then 1 else value];
    SumPush(left, pushed[|left|]);
    SettleKeepsSum(pushed);
  }

  // The decoder has read `k` of the `w` argument bytes that start at `i`.
  lemma {:induction false} FeedArgument(st: State, s: seq<Byte>, i: nat, k: nat, w: nat)
    requires k < w <= 8 && i + k <= |s|
    requires Consistent(st) && st.head.Some? && st.bytes == w - k
    requires st.head.value.value == BigEndian(s[i..i + k])
    ensures i + w > |s| ==>
              Feed(st, s, i + k).status == Good && !Done(Feed(st, s, i + k).st)
    ensures i + w <= |s| ==>
              BigEndian(s[i..i + w]) < TWO_64 &&
              match AfterHead(st.nested, st.head.value.major, BigEndian(s[i..i + w]))
              case Stuck(_) => Feed(st, s, i + k).status != Good
              case Next(next) => Consistent(next) && Feed(st, s, i + k) == Feed(next, s, i + w)
    decreases w - k
  {
    hide AfterHead;
    if i + k < |s| {
      var t := s[i..i + k + 1];
      assert t[..k] == s[i..i + k];
      BigEndianFitsU64(t);
      PartialFits(st);
      if Step(st, s[i + k]).Next? {
        StepKeepsConsistent(st, s[i + k]);
      }
      if k + 1 < w {
        FeedArgument(Step(st, s[i + k]).st, s, i, k + 1, w);
      }
    }
  }

  // Between heads, the decoder takes exactly the head that ParseHead finds.
  lemma FeedHead(st: State, s: seq<Byte>, i: nat)
    requires Consistent(st) && st.head.None? && st.bytes == 0 && st.nested != [] && i <= |s|
    ensures ParseHead(s, i).None? ==>
              Feed(st, s, i).status != Good || !Done(Feed(st, s, i).st)
    ensures ParseHead(s, i).Some? ==>
              var h := ParseHead(s, i).value;
              match AfterHead(st.nested, h.major, h.arg)
              case Stuck(_) => Feed(st, s, i).status != Good
              case Next(next) => Consistent(next) && Feed(st, s, i) == Feed(next, s, i + h.len)
  {
    hide AfterHead;
    if i < |s| {
      var w := ExtraWidth(s[i] % 32);
      if w.Some? {
        if Step(st, s[i]).Next? {
          StepKeepsConsistent(st, s[i]);
        }
        if w.value > 0 {
          assert s[i + 1..i + 1] == [];
          FeedArgument(Step(st, s[i]).st, s, i + 1, 0, w.value);
        }
      }
    }
  }

  // Between heads, with counters that add up to `count`, the decoder completes exactly where
  // `count` items of the grammar end.
  lemma {:induction false} StackIsFlat(st: State, s: seq<Byte>, i: nat)
    requires Consistent(st) && st.head.None? && st.bytes == 0 && i <= |s| < TWO_63
    ensures var r := Feed(st, s, i);
            match FlatEnd(s, i, Sum(st.nested), false)
            case None => r.status != Good || !Done(r.st)
            case Some(end) => r == Fed(IDLE, end, Good)
    decreases |s| - i
  {
    hide ParseHead, Step, HeadDone;
    SumPositive(st.nested);
    if st.nested != [] {
      FeedHead(st, s, i);
      if ParseHead(s, i).Some? {
        StackHeadIsFlat(st, s, i, ParseHead(s, i).value);
      }
    }
  }

  lemma {:induction false} StackHeadIsFlat(st: State, s: seq<Byte>, i: nat, h: Head)
    requires Consistent(st) && st.head.None? && st.bytes == 0 && st.nested != [] && i <= |s| < TWO_63
    requires ParseHead(s, i) == Some(h)
    ensures var r := Feed(st, s, i);
            match FlatEnd(s, i, Sum(st.nested), false)
            case None => r.status != Good || !Done(r.st)
            case Some(end) => r == Fed(IDLE, end, Good)
    decreases |s| - i, 0
  {
    hide ParseHead, Step, HeadDone, Feed, Settle, FlatEnd;
    FeedHead(st, s, i);
    SumPositive(st.nested);
    FlatUnit(s, i, Sum(st.nested));
    var u := ParseUnit(s, i, false).value;
    var start := i + u.len + u.payload;
    if HeadDone(st.nested, h.major, h.arg).Some? {
      HeadDoneCounts(st.nested, h.major, h.arg);
      var next := HeadDone(st.nested, h.major, h.arg).value;
      var n := if start <= |s| then u.payload else |s| - i - h.len;
      FeedPayload(next, s, i + h.len, n);
      if start <= |s| {
        StackIsFlat(next.(bytes := 0), s, start);
      } else {
        FeedEnds(next.(bytes := next.bytes - n), s);
      }
    } else {
      HeadOverflows(st.nested, h.major, h.arg);
    }
  }

  lemma FlatUnit(s: seq<Byte>, i: nat, count: nat)
    requires i <= |s| && count > 0 && ParseUnit(s, i, false).Some?
    ensures var u := ParseUnit(s, i, false).value;
            FlatEnd(s, i, count, false) ==
              if i + u.len + u.payload > |s| then None
              else FlatEnd(s, i + u.len + u.payload, count - 1 + u.kids, false)
  {
    hide ParseUnit;
  }

  lemma FeedEnds(st: State, s: seq<Byte>)
    requires Consistent(st)
    ensures Feed(st, s, |s|) == Fed(st, |s|, Good)
  {
  }

  lemma HeadOverflows(nested: seq<U64>, major: Major, value: U64)
    requires nested != [] && nested[|nested| - 1] > 0 && HeadDone(nested, major, value).None?
    ensures if major == MAP then 2 * value >= TWO_63
            else (major == BYTES || major == TEXT) && value >= TWO_63
  {
  }

  // Theorem: after Reset, the decoder completes if and only if the input starts with an item,
  // and then it has taken exactly that item.
  lemma ConsumeFindsItem(s: seq<Byte>, end: nat)
    requires |s| < TWO_63
    ensures ItemEnd(s, 0, false) == Some(end) <==> Feed(RESET, s, 0) == Fed(IDLE, end, Good)
  {
    hide ItemEnd, Feed, Step;
    StackIsFlat(RESET, s, 0);
    assert RESET.nested[..0] == [];
    assert Sum(RESET.nested) == Sum(RESET.nested[..0]) + 1 == 1;
    FlatIsItem(s, 0, false);
  }

  // Theorem: whatever the split into chunks and whatever bytes follow, reading an item takes
  // exactly its bytes and leaves the decoder idle.
  lemma ChunkedItem(item: seq<Byte>, rest: seq<Byte>, chunks: seq<seq<Byte>>)
    requires |item| + |rest| < TWO_63 && ItemEnd(item, 0, false) == Some(|item|)
    requires Joined(chunks) == item + rest
    ensures FeedChunks(RESET, chunks) == Fed(IDLE, |item|, Good)
  {
    hide ItemEnd, Feed, Step, FeedChunks;
    ItemIsPrefixCode(item, [], rest, false);
    assert [] + item + rest == item + rest;
    ConsumeFindsItem(item + rest, |item|);
    ChunkingIsIrrelevant(RESET, chunks);
  }

  // Theorem: the stack machine and the flat-counter machine find the same end on every item
  // whose tags are all links.
  lemma SameEndAsNested(s: seq<Byte>, end: nat)
    requires |s| < TWO_63 && ItemEnd(s, 0, true) == Some(end)
    ensures Feed(RESET, s, 0) == Fed(IDLE, end, Good)
    ensures ReadNestedEnd(s) == Some(end)
  {
    hide ItemEnd, Feed, ReadNestedEnd;
    FlatIsItem(s, 0, true);
    LinksAreGeneral(s, 0, 1);
    FlatIsItem(s, 0, false);
    ConsumeFindsItem(s, end);
    NestedReadsEveryItem(s);
  }

  // Theorem: where the stack machine completes and the exact demand stays below 2^63, the other
  // one finds the same end if and only if every tag is a link; and links keep the demand bounded.
  lemma NestedAgreesExactlyOnLinks(s: seq<Byte>, end: nat)
    requires |s| < TWO_63 && Feed(RESET, s, 0) == Fed(IDLE, end, Good)
    ensures Bounded(s, 0, 1) ==> (ReadNestedEnd(s) == Some(end) <==> ItemEnd(s, 0, true).Some?)
    ensures ItemEnd(s, 0, true).Some? ==> Bounded(s, 0, 1) && ReadNestedEnd(s) == Some(end)
  {
    hide ItemEnd, Feed, ReadNestedEnd, Bounded;
    if ItemEnd(s, 0, true).Some? {
      SameEndAsNested(s, ItemEnd(s, 0, true).value);
      ItemIsBounded(s);
    }
    if ReadNestedEnd(s) == Some(end) && Bounded(s, 0, 1) {
      NestedAcceptsItemsExactly(s, end);
    }
  }

  // The bound matters: the size of the empty link wraps around, the demand of the flat counter with
  // it, and the two decoders end at the same place although the tag is not a link.
  lemma UnboundedDecodersCanAgree()
    ensures Feed(RESET, EMPTY_LINK, 0) == Fed(IDLE, 5, Good) && ReadNestedEnd(EMPTY_LINK) == Some(5)
    ensures ItemEnd(EMPTY_LINK, 0, true) == None && !Bounded(EMPTY_LINK, 0, 1)
  {
    hide ParseHead, Feed, Bounded, ReadNestedEnd;
    EmptyLinkHeads();
    EmptyLinkIsItem();
    ConsumeFindsItem(EMPTY_LINK, 5);
    EmptyLinkIsRead();
    NestedAgreesExactlyOnLinks(EMPTY_LINK, 5);
  }

  // The two decoders do differ: any other tag in front of an item is passed over by the stack
  // machine and refused by the flat counter.
  lemma OtherTagsDiffer(tag: U64, item: seq<Byte>)
    requires tag != TAG_CID && |item| < TWO_62 && ItemEnd(item, 0, false) == Some(|item|)
    ensures var s := CborToken.EncodeHead(TAG, tag) + item;
            Feed(RESET, s, 0) == Fed(IDLE, |s|, Good) && ReadNestedEnd(s) == None
  {
    hide ParseHead, Feed, FlatEnd, CborToken.EncodeHead;
    var head := CborToken.EncodeHead(TAG, tag);
    var s := head + item;
    assert head[0..|head|] == s[0..|head|];
    CborToken.EncodedHeadParses(TAG, tag, s, 0);
    ItemIsPrefixCode(item, head, [], false);
    assert head + item + [] == s;
    assert ParseUnit(s, 0, false) == Some(Unit(|head|, 0, 1));
    assert ItemsEnd(s, |head|, 1, false) == ItemsEnd(s, |s|, 0, false);
    assert ItemEnd(s, 0, false) == Some(|s|);
    ConsumeFindsItem(s, |s|);
    NoTokenFails(s, 0, 0);
  }
}
