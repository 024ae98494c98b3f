// The token layer: head encoder, byte-at-a-time token decoder, and the nested decoder that
// skips one item with a flat counter. Counters are 64-bit and wrap around.
module CborToken {
  import opened Base
  import opened CborGrammar

  // Token kinds are the major types; 6 stands for a decoded tag-42 link, 8 for "no token".
  type Kind = k: int | 0 <= k <= 8
  const CID: Kind := 6
  const INVALID: Kind := 8

  const EXTRA_FALSE := 20
  const EXTRA_TRUE := 21
  const EXTRA_NULL := 22

  datatype Token = Token(kind: Kind, extra: U64)

  const NO_TOKEN := Token(INVALID, 0)

  function AnySize(t: Token): (n: U64) {
    if t.kind == BYTES || t.kind == TEXT || t.kind == CID then t.extra else 0
  }

  // The number of nested items a token announces, before reduction to 64 bits.
  function Kids(t: Token): (n: nat) {
    if t.kind == ARRAY then t.extra else if t.kind == MAP then 2 * t.extra else 0
  }

  function AnyCount(t: Token): (n: U64) {
    Kids(t) % TWO_64
  }

  // ---------------------------------------------------------------- head encoder

  // The low `w` bytes of `n`, most significant first.
  function ToBigEndian(n: nat, w: nat): (s: seq<Byte>)
    ensures |s| == w
  {
    if w == 0 then [] else ToBigEndian(n / 256, w - 1) + [n % 256]
  }

  function MoreBytes(extra: U64): (w: nat) {
    if extra < 24 then 0
    else if extra < TWO_8 then 1
    else if extra < TWO_16 then 2
    else if extra < TWO_32 then 4
    else 8
  }

  function EncodeHead(kind: Major, extra: U64): (s: seq<Byte>)
    ensures |s| == 1 + MoreBytes(extra)
  {
    var w := MoreBytes(extra);
    if w == 0 then [32 * kind + extra]
    else
      var info := if w == 1 then 24 else if w == 2 then 25 else if w == 4 then 26 else 27;
      [32 * kind + info] + ToBigEndian(extra, w)
  }

  lemma {:induction false} BigEndianInverse(n: nat, w: nat)
    requires n < Pow256(w)
    ensures BigEndian(ToBigEndian(n, w)) == n
  {
    if w > 0 {
      BigEndianInverse(n / 256, w - 1);
      var s := ToBigEndian(n / 256, w - 1);
      assert (s + [n % 256])[..w - 1] == s;
    }
  }

  // Wherever an encoded head lies, it parses back to its type and argument.
  lemma EncodedHeadParses(kind: Major, extra: U64, s: seq<Byte>, i: nat)
    requires SameWindow(EncodeHead(kind, extra), 0, s, i, |EncodeHead(kind, extra)|)
    ensures ParseHead(s, i) == Some(Head(kind, extra, |EncodeHead(kind, extra)|))
  {
    hide BigEndian, ToBigEndian, Pow256;
    var e := EncodeHead(kind, extra);
    var w := MoreBytes(extra);
    assert e[0..|e|][0] == s[i..i + |e|][0];
    FirstByteSplits(kind, e[0] - 32 * kind);
    if w > 0 {
      ArgumentFits(extra);
      BigEndianInverse(extra, w);
      assert e[1..1 + w] == ToBigEndian(extra, w);
      SubWindow(e, 0, s, i, 1 + w, 1, 1 + w);
    }
  }

  lemma FirstByteSplits(kind: Major, info: nat)
    requires info < 32
    ensures (32 * kind + info) / 32 == kind && (32 * kind + info) % 32 == info
  {
  }

  lemma ArgumentFits(extra: U64)
    ensures extra >= 24 ==> extra < Pow256(MoreBytes(extra))
  {
    Pow256Values();
  }

  // Section 3.9 of RFC 7049: no head that a decoder accepts says the same in fewer bytes.
  lemma EncodedHeadIsShortest(s: seq<Byte>, i: nat)
    requires i <= |s| && ParseHead(s, i).Some?
    ensures var h := ParseHead(s, i).value;
            |EncodeHead(h.major, h.arg)| <= h.len
  {
    var h := ParseHead(s, i).value;
    if h.len > 1 {
      BigEndianBound(s[i + 1..i + h.len]);
      Pow256Values();
    }
  }

  method FillWide(a: array<Byte>, kind: Major, extra: U64)
    requires a.Length == 9
    modifies a
    ensures a[..] == [32 * kind + 27] + ToBigEndian(extra, 8)
  {
    hide ToBigEndian;
    a[0] := 32 * kind + 27;
    a[1] := extra / 0x100_0000_0000_0000 % 256;
    a[2] := extra / 0x1_0000_0000_0000 % 256;
    a[3] := extra / 0x100_0000_0000 % 256;
    a[4] := extra / 0x1_0000_0000 % 256;
    a[5] := extra / 0x100_0000 % 256;
    a[6] := extra / 0x1_0000 % 256;
    a[7] := extra / 0x100 % 256;
    a[8] := extra % 256;
    EightBytes(extra);
  }

  // The encoder fills a nine-byte array with shifted copies of the argument.
  method TokenEncoder(kind: Major, extra: U64) returns (bytes: seq<Byte>)
    ensures bytes == EncodeHead(kind, extra)
  {
    hide ToBigEndian, EncodeHead;
    var a := new Byte[9](_ => 0);
    var more := MoreBytes(extra);
    var length := 1 + more;
    HeadBytes(kind, extra);
    if more == 0 {
      a[0] := 32 * kind + extra;
      assert a[..length] == EncodeHead(kind, extra);
    } else if more == 1 {
      a[0] := 32 * kind + 24;
      a[1] := extra % 256;
      assert a[..length] == EncodeHead(kind, extra);
    } else if more == 2 {
      a[0] := 32 * kind + 25;
      a[1] := extra / 0x100 % 256;
      a[2] := extra % 256;
      assert a[..length] == EncodeHead(kind, extra);
    } else if more == 4 {
      a[0] := 32 * kind + 26;
      a[1] := extra / 0x100_0000 % 256;
      a[2] := extra / 0x1_0000 % 256;
      a[3] := extra / 0x100 % 256;
      a[4] := extra % 256;
      assert a[..length] == EncodeHead(kind, extra);
    } else {
      FillWide(a, kind, extra);
      assert a[..length] == a[..];
    }
    bytes := a[..length];
  }

  // The bytes of a head, written out.
  lemma HeadBytes(kind: Major, extra: U64)
    ensures var w := MoreBytes(extra);
            EncodeHead(kind, extra) ==
              if w == 0 then [32 * kind + extra]
              else if w == 1 then [32 * kind + 24, extra % 256]
              else if w == 2 then [32 * kind + 25, extra / 0x100 % 256, extra % 256]
              else if w == 4 then
                [32 * kind + 26, extra / 0x100_0000 % 256, extra / 0x1_0000 % 256, extra / 0x100 % 256, extra % 256]
              else [32 * kind + 27] + ToBigEndian(extra, 8)
  {
    hide ToBigEndian;
    var w := MoreBytes(extra);
    if w == 1 {
      OneByte(extra);
    } else if w == 2 {
      TwoBytes(extra, 0);
      NoBytes(extra / 0x1_0000);
    } else if w == 4 {
      FourBytes(extra, 0);
      NoBytes(extra / 0x1_0000_0000);
    }
  }

  lemma NoBytes(n: nat)
    ensures ToBigEndian(n, 0) == []
  {
  }

  lemma OneByte(n: nat)
    ensures ToBigEndian(n, 1) == [n % 256]
  {
    assert ToBigEndian(n / 256, 0) == [];
  }

  lemma TwoBytes(n: nat, w: nat)
    ensures ToBigEndian(n, w + 2) == ToBigEndian(n / 0x1_0000, w) + [n / 0x100 % 256, n % 256]
  {
    assert n / 256 / 256 == n / 0x1_0000;
    assert ToBigEndian(n, w + 2) == ToBigEndian(n / 256, w + 1) + [n % 256];
    assert ToBigEndian(n / 256, w + 1) == ToBigEndian(n / 0x1_0000, w) + [n / 256 % 256];
  }

  lemma FourBytes(n: nat, w: nat)
    ensures ToBigEndian(n, w + 4) == ToBigEndian(n / 0x1_0000_0000, w) +
              [n / 0x100_0000 % 256, n / 0x1_0000 % 256, n / 0x100 % 256, n % 256]
  {
    hide ToBigEndian;
    TwoBytes(n, w + 2);
    TwoBytes(n / 0x1_0000, w);
    assert n / 0x1_0000 / 0x1_0000 == n / 0x1_0000_0000;
    assert n / 0x1_0000 / 0x100 == n / 0x100_0000;
  }

  lemma EightBytes(n: nat)
    ensures ToBigEndian(n, 8) ==
              [n / 0x100_0000_0000_0000 % 256, n / 0x1_0000_0000_0000 % 256,
               n / 0x100_0000_0000 % 256, n / 0x1_0000_0000 % 256,
               n / 0x100_0000 % 256, n / 0x1_0000 % 256, n / 0x100 % 256, n % 256]
  {
    hide ToBigEndian;
    FourBytes(n, 4);
    var m := n / 0x1_0000_0000;
    FourBytes(m, 0);
    assert ToBigEndian(m / 0x1_0000_0000, 0) == [];
    assert m / 0x100_0000 == n / 0x100_0000_0000_0000;
    assert m / 0x1_0000 == n / 0x1_0000_0000_0000;
    assert m / 0x100 == n / 0x100_0000_0000;
  }

  // ---------------------------------------------------------------- token decoder

  // The token at position `i` and the bytes it takes, read at once. A tag must be 42 and be
  // followed by a byte string; the token is then a link whose size leaves out the multibase
  // byte, reduced to 64 bits when the byte string was empty.
  function ParseToken(s: seq<Byte>, i: nat): (r: Option<(Token, nat)>)
    requires i <= |s|
    ensures r.Some? ==> 1 <= r.value.1 && i + r.value.1 <= |s|
  {
    match ParseHead(s, i)
    case None => None
    case Some(h) =>
      if h.major != TAG then Some((Token(h.major, h.arg), h.len))
      else if h.arg != TAG_CID then None
      else
        match ParseHead(s, i + h.len)
        case None => None
        case Some(b) =>
          if b.major != BYTES || |s| <= i + h.len + b.len then None
          else Some((Token(CID, (b.arg - 1) % TWO_64), h.len + b.len + 1))
  }

  datatype TokenState = TokenState(value: Token, more: nat, error: bool, tag: bool, cid: bool)

  const FRESH := TokenState(NO_TOKEN, 1, false, false, false)

  // What happens once the last byte of a head has been read.
  function Conclude(st: TokenState): (r: TokenState) {
    if st.tag then
      st.(value := Token(CID, (st.value.extra - 1) % TWO_64), more := 1, cid := true)
    else if st.value.kind == CID then
      if st.value.extra != TAG_CID then st.(error := true)
      else st.(value := NO_TOKEN, more := 1, tag := true)
    else st
  }

  // One more byte of an argument, in 64-bit arithmetic.
  function ShiftIn(extra: U64, byte: Byte): (r: U64) {
    extra * 256 % TWO_64 + byte
  }

  // One byte into the token decoder.
  function Step(st: TokenState, byte: Byte): (r: TokenState)
    requires !st.error && st.more > 0
  {
    if st.cid then st.(more := st.more - 1)
    else if st.value.kind == INVALID && st.tag && byte / 32 != BYTES then
      st.(more := st.more - 1, value := Token(byte / 32, st.value.extra), error := true)
    else if st.value.kind == INVALID && ExtraWidth(byte % 32).None? then
      st.(more := 0, value := Token(byte / 32, st.value.extra), error := true)
    else
      var next :=
        if st.value.kind != INVALID then
          st.(more := st.more - 1,
              value := Token(st.value.kind, ShiftIn(st.value.extra, byte)))
        else if byte % 32 < 24 then
          st.(more := st.more - 1, value := Token(byte / 32, byte % 32))
        else
          st.(more := ExtraWidth(byte % 32).value, value := Token(byte / 32, st.value.extra));
      if next.more == 0 then Conclude(next) else next
  }

  // The decoder fed from position `i` until it has a token, fails, or runs out of input;
  // with the number of the position it stops at. A failing byte is not taken.
  function TokenRun(st: TokenState, s: seq<Byte>, i: nat): (r: (TokenState, nat))
    requires i <= |s|
    ensures i <= r.1 <= |s|
    decreases |s| - i
  {
    if st.error || st.more == 0 || i == |s| then (st, i)
    else
      var next := Step(st, s[i]);
      if next.error then (next, i) else TokenRun(next, s, i + 1)
  }

  // The decoder has read `k` of the `w` argument bytes that start at `i`.
  lemma {:induction false} ArgumentRun(st: TokenState, s: seq<Byte>, i: nat, k: nat, w: nat)
    requires k < w <= 8 && i + k <= |s|
    requires !st.error && !st.cid && st.value.kind != INVALID && st.more == w - k
    requires st.value.extra == BigEndian(s[i..i + k])
    ensures i + w > |s| ==> !TokenRun(st, s, i + k).0.error && TokenRun(st, s, i + k).0.more > 0
    ensures i + w <= |s| ==>
              BigEndian(s[i..i + w]) < TWO_64 &&
              var c := Conclude(st.(more := 0, value := Token(st.value.kind, BigEndian(s[i..i + w]))));
              if c.error then TokenRun(st, s, i + k).0.error
              else TokenRun(st, s, i + k) == TokenRun(c, s, i + w)
    decreases w - k
  {
    hide TokenRun, Conclude, BigEndian, ShiftIn;
    TokenRunUnfold(st, s, i + k);
    if i + k < |s| {
      ArgumentGrows(s, i, k);
      var next := Step(st, s[i + k]);
      if k + 1 < w {
        ArgumentRun(next, s, i, k + 1, w);
      }
    }
  }

  lemma ArgumentGrows(s: seq<Byte>, i: nat, k: nat)
    requires i + k < |s| && k < 8
    ensures BigEndian(s[i..i + k]) < TWO_64 && BigEndian(s[i..i + k + 1]) < TWO_64
    ensures ShiftIn(BigEndian(s[i..i + k]), s[i + k]) == BigEndian(s[i..i + k + 1])
  {
    var t := s[i..i + k + 1];
    assert t[..k] == s[i..i + k];
    BigEndianFitsU64(t);
    BigEndianFitsU64(s[i..i + k]);
  }

  // A decoder waiting for the first byte of a head reads exactly the head that ParseHead finds.
  lemma HeadRun(st: TokenState, s: seq<Byte>, i: nat)
    requires i <= |s|
    requires !st.error && !st.cid && st.value == NO_TOKEN && st.more == 1
    ensures ParseHead(s, i).None? ==> TokenRun(st, s, i).0.error || TokenRun(st, s, i).0.more > 0
    ensures ParseHead(s, i).Some? ==>
              var h := ParseHead(s, i).value;
              var c := Conclude(st.(more := 0, value := Token(h.major, h.arg)));
              if (st.tag && h.major != BYTES) || c.error then TokenRun(st, s, i).0.error
              else TokenRun(st, s, i) == TokenRun(c, s, i + h.len)
  {
    hide ShiftIn, Conclude, TokenRun, BigEndian;
    TokenRunUnfold(st, s, i);
    if i < |s| {
      var w := ExtraWidth(s[i] % 32);
      if w.Some? && w.value > 0 && !(st.tag && s[i] / 32 != BYTES) {
        assert BigEndian(s[i + 1..i + 1]) == 0 by { EmptyArgument(s, i + 1); }
        ArgumentRun(Step(st, s[i]), s, i + 1, 0, w.value);
      }
    }
  }

  lemma TokenRunUnfold(st: TokenState, s: seq<Byte>, i: nat)
    requires i <= |s| && !st.error && st.more > 0
    ensures TokenRun(st, s, i) ==
            if i == |s| then (st, i)
            else
              var next := Step(st, s[i]);
              if next.error then (next, i) else TokenRun(next, s, i + 1)
  {
    hide Step;
  }

  lemma EmptyArgument(s: seq<Byte>, i: nat)
    requires i <= |s|
    ensures BigEndian(s[i..i]) == 0
  {
  }

  // Theorem: fed byte by byte, a fresh decoder accepts exactly the token that ParseToken reads
  // at once, stopping right after it.
  lemma TokenRunIsParse(s: seq<Byte>, i: nat)
    requires i <= |s|
    ensures match ParseToken(s, i)
            case None => TokenRun(FRESH, s, i).0.error || TokenRun(FRESH, s, i).0.more > 0
            case Some((token, len)) =>
              var (st, j) := TokenRun(FRESH, s, i);
              !st.error && st.more == 0 && st.value == token && j == i + len
  {
    hide ParseHead;
    HeadRun(FRESH, s, i);
    if ParseHead(s, i).Some? {
      var h := ParseHead(s, i).value;
      if h.major == TAG && h.arg == TAG_CID {
        HeadRun(FRESH.(tag := true), s, i + h.len);
      }
    }
  }
}
