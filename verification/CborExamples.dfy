// Encodings written out byte by byte, among them examples of appendix A of RFC 7049.
module CborExamples {
  import opened Base
  import opened CborGrammar
  import opened CborToken
  import opened CborFields
  import opened CborEncode

  lemma SmallNumbers()
    ensures Enc(VUint(0)) == [0x00] && Enc(VUint(23)) == [0x17]
    ensures Enc(VInt(0)) == [0x00] && Enc(VInt(-1)) == [0x20] && Enc(VInt(-24)) == [0x37]
  {
  }

  lemma LargerNumbers()
    ensures Enc(VUint(24)) == [0x18, 0x18] && Enc(VUint(255)) == [0x18, 0xFF]
    ensures Enc(VInt(-100)) == [0x38, 0x63] && Enc(VInt(-256)) == [0x38, 0xFF]
  {
    hide ToBigEndian, EncodeHead;
    HeadBytes(UNSIGNED, 24);
    HeadBytes(UNSIGNED, 255);
    HeadBytes(NEGATIVE, 99);
    HeadBytes(NEGATIVE, 255);
  }

  lemma WideNumbers()
    ensures Enc(VUint(1000)) == [0x19, 0x03, 0xE8] && Enc(VUint(1000000)) == [0x1A, 0x00, 0x0F, 0x42, 0x40]
    ensures Enc(VUint(1000000000000)) == [0x1B, 0x00, 0x00, 0x00, 0xE8, 0xD4, 0xA5, 0x10, 0x00]
  {
    hide ToBigEndian, EncodeHead;
    HeadBytes(UNSIGNED, 1000);
    HeadBytes(UNSIGNED, 1000000);
    HeadBytes(UNSIGNED, 1000000000000);
    EightBytes(1000000000000);
  }

  lemma Simple()
    ensures Enc(VBool(false)) == [0xF4] && Enc(VBool(true)) == [0xF5] && Enc(VNone) == [0xF6]
    ensures Enc(VSome(VBool(true))) == [0xF5]
  {
  }

  lemma Strings()
    ensures Enc(VBytes([])) == [0x40] && Enc(VBytes([0xCA, 0xFE])) == [0x42, 0xCA, 0xFE]
    ensures Enc(VText([])) == [0x60] && Enc(VText([0x66, 0x6F, 0x6F])) == [0x63, 0x66, 0x6F, 0x6F]
    ensures Enc(VCid([0x01, 0x55])) == [0xD8, 0x2A, 0x43, 0x00, 0x01, 0x55]
  {
    CidBytes([0x01, 0x55]);
  }

  lemma Lists()
    ensures Enc(VList([])) == [0x80] && Enc(VList([VUint(2), VUint(5), VUint(9)])) == [0x83, 0x02, 0x05, 0x09]
    ensures Enc(VList([VList([])])) == [0x81, 0x80]
  {
  }

  const ENTRIES := [Entry([0x61, 0x61], VUint(1)), Entry([0x62], VUint(2)), Entry([0x63], VUint(3))]

  // The longer key comes last although it is the first in the order of bytes.
  lemma Maps()
    ensures Sized(VMap(ENTRIES)) &&
            Enc(VMap(ENTRIES)) == [0xA3, 0x61, 0x62, 0x02, 0x61, 0x63, 0x03, 0x62, 0x61, 0x61, 0x01]
  {
    hide *;
    EncodedEntries();
    var pairs := ShortPairs();
    assert [0xA3] + pairs == [0xA3, 0x61, 0x62, 0x02, 0x61, 0x63, 0x03, 0x62, 0x61, 0x61, 0x01];
  }

  lemma EncodedEntries()
    ensures var fs := [Field([0x62], [0x02]), Field([0x63], [0x03]), Field([0x61, 0x61], [0x01])];
            Sized(VMap(ENTRIES)) && ShortKeys(fs) && Enc(VMap(ENTRIES)) == [0xA3] + Pairs(fs)
  {
    FieldsOfEntries();
    SortKeepsKeysShort(ByLength, EncFields(ENTRIES));
    LongerLast(Field([0x61, 0x61], [0x01]), Field([0x62], [0x02]), Field([0x63], [0x03]));
  }

  lemma ShortPairs() returns (pairs: seq<Byte>)
    ensures var fs := [Field([0x62], [0x02]), Field([0x63], [0x03]), Field([0x61, 0x61], [0x01])];
            ShortKeys(fs) && pairs == Pairs(fs)
    ensures pairs == [0x61, 0x62, 0x02, 0x61, 0x63, 0x03, 0x62, 0x61, 0x61, 0x01]
  {
    var aa, b, c := Field([0x61, 0x61], [0x01]), Field([0x62], [0x02]), Field([0x63], [0x03]);
    ShortTexts();
    hide EncText;
    FirstPair(aa, []);
    assert [aa] + [] == [aa] && Pairs([]) == [];
    assert Pairs([aa]) == [0x62, 0x61, 0x61, 0x01];
    FirstPair(c, [aa]);
    assert [c] + [aa] == [c, aa];
    assert Pairs([c, aa]) == [0x61, 0x63, 0x03] + [0x62, 0x61, 0x61, 0x01];
    FirstPair(b, [c, aa]);
    assert [b] + [c, aa] == [b, c, aa];
    pairs := Pairs([b, c, aa]);
  }

  lemma FieldsOfEntries()
    ensures Sized(VMap(ENTRIES))
    ensures EncFields(ENTRIES) == [Field([0x61, 0x61], [0x01]), Field([0x62], [0x02]), Field([0x63], [0x03])]
  {
    var rest, last := ENTRIES[1..], ENTRIES[2..];
    assert rest[1..] == last && last[1..] == [];
    assert EncFields(last) == [Field([0x63], [0x03])];
    assert EncFields(rest) == [Field([0x62], [0x02])] + EncFields(last);
  }

  lemma LongerLast(aa: Field, b: Field, c: Field)
    requires |aa.key| == 2 && |b.key| == 1 && |c.key| == 1 && b.key[0] < c.key[0]
    ensures Sort(ByLength, [aa, b, c]) == [b, c, aa]
  {
    assert [aa, b, c][..2] == [aa, b] && [aa, b][..1] == [aa] && [aa][..0] == [];
    assert Sort(ByLength, [aa]) == [aa];
    assert Insert(ByLength, b, [aa]) == [b, aa];
    assert [b, aa][1..] == [aa];
    assert Insert(ByLength, c, [aa]) == [c, aa];
    assert Insert(ByLength, c, [b, aa]) == [b] + [c, aa];
  }

  lemma FirstPair(f: Field, rest: seq<Field>)
    requires |f.key| < TWO_64 && ShortKeys(rest)
    ensures ShortKeys([f] + rest) && Pairs([f] + rest) == EncText(f.key) + (f.data + Pairs(rest))
  {
    hide EncText;
    assert ([f] + rest)[1..] == rest;
  }

  lemma ShortTexts()
    ensures EncText([0x62]) == [0x61, 0x62] && EncText([0x63]) == [0x61, 0x63]
    ensures EncText([0x61, 0x61]) == [0x62, 0x61, 0x61]
  {
  }
}
