# A verified model of the cpp-filecoin core

This project models, in Dafny, the parts of cpp-filecoin whose correctness is hardest to see by
reading: two CBOR decoders that find the end of an item in different ways, the CBOR encode and
decode streams, the RLE+ bit-set codec, payment channel funding, the payment channel voucher
ledger, the blocksync exchange, and a few concurrent or arithmetic building blocks (state machine,
channel, AsyncAll, chain path, piece padding). Every operation is modelled with its branches, its
error cases and its integer widths, and the properties are stated for all inputs, all runs and all
interleavings.

Check it with `dafny verify dfyconfig.toml` (Dafny 4.11).

## How the model is laid out

Pure code is a function; code that works by updating state is a class or a method with a loop, and
its postcondition ties the new state to a specification function of the old one. The theorems are
about those specification functions.

| files | subject |
|---|---|
| `Base`, `Powers` | 64-bit limits, `Option`, `Result`, powers of two |
| `CborGrammar`, `CborToken`, `CborNested`, `CborBuffering`, `CborFraming` | heads, tokens, the recursive grammar of items, the flat-counter decoder, the stack decoder, and how they agree |
| `CborFields`, `CborEncode`, `CborEncodeStream`, `CborDecode`, `CborDecodeStream`, `CborRoundTrip`, `CborSound`, `CborExamples` | values, canonical maps, the two streams, the round trip, what decoding gives on any input, encodings byte by byte |
| `RleRuns`, `RleBits`, `RlePlus`, `RleFormat`, `RleStreams` | runs of a set, blocks of bits, packing into bytes, lengths and refusals, the two streams |
| `PaychMaker`, `PaychRuns`, `PaychAnswers`, `PaychMakerObject`, `PaychPairs` | the funding protocol, its runs, what callbacks are told, the object, all pairs together |
| `PaychVouchers`, `PaychLedger`, `PaychAcceptance`, `PaychPayments`, `PaychVouchersObject` | the voucher ledger, its runs, when a voucher is accepted, payer and receiver together, the object |
| `Blocksync`, `BlocksyncClient`, `BlocksyncRequest`, `BlocksyncMeaning`, `BlocksyncStore`, `BlocksyncRequestObject` | server, unpacking, what a response adds, what the parts mean, what is written, the request object |
| `FsmRules`, `FsmRuns`, `FsmObject` | transition rules, runs of the machine, the object |
| `Channel`, `AsyncAll`, `ChainPath`, `Padding` | the building blocks |

The outside world is made of parameters: what the chain, the wallet, the network and the key-value
store answer is an argument of the step that asks, hashes are given functions, a CID is an
identity, and a block header carries its own CID. Handlers that hold a lock for their whole body
are atomic steps; the ones that do not (`AsyncAll`, the tick of the state machine) are split into
their atomic steps and interleaved freely.

## What the code does not do

Some properties one would expect are false of the code. Each has a concrete input and the exact
condition under which it does hold.

* The flat-counter CBOR decoder counts modulo 2^64, so the bare head of a map of 2^63 entries is
  accepted as a whole item (`NestedAcceptsBareMapHead`). What it accepts is an item if and only if
  the exact demand stayed below 2^63 (`NestedAcceptsItemsExactly`).
* The two CBOR decoders disagree on tags other than links (`OtherTagsDiffer`). While the exact demand
  stays below 2^63 they agree if and only if every tag is a link (`NestedAgreesExactlyOnLinks`);
  beyond it they can agree by accident, as on a list that holds an empty link
  (`UnboundedDecodersCanAgree`).
* A list of 2^32 elements or more is written and cannot be read, because the element number has 32
  bits (`LongListFails`, `LongListIsLost`). A present optional around an absent one is read as absent
  (`NestedOptionalIsLost`). Before an item or at the end of the stream, a value reads back if and only
  if it holds no such list and no such optional (`RoundTrip`).
* The 32-bit counter of `fromRuns` never ends on a member run of 2^32 (`EndlessRun`); the loop ends if
  and only if the run is shorter (`CounterEndsExactlyOnShortRuns`).
* Payment channel funds are counted twice when a message is confirmed after its callbacks were lost
  while funds were unused (`LeakHappens`). The books balance if and only if that never happens
  (`BooksBalanceExactly`), and it does not happen unless callbacks were dropped over unused funds
  (`NoDropsConserve`).
* A request for a payment channel can stay without an answer for ever: after the message that creates
  the channel has failed, or a restart while an amount was noted and no message sent, nothing is
  asked for any more (`StuckAfterFailedCreation`, `StuckForever`). It happens if and only if the maker
  was stuck when the request came (`UnservedExactlyWhenStuck`).
* A voucher that is accepted is not stored when the row holds another one with its nonce, written by
  this side; it is stored if and only if no other voucher of the lane has its nonce
  (`AcceptedIsStored`).
* The lane handed out by `nextLane` wraps around at the last identity and can be one of the row
  (`NextLaneRepeats`, exact condition in `NextLaneIsNew`). Over runs, lanes increase if and only if the
  last identity was not handed out before another one (`EveryRunKeepsOrder`).
* A messages-only blocksync request that finds some of its blocks at hand drops them from the result
  (`FoundBlockIsDropped`, exact condition in `MessagesOnlyDeliversWaited`).
* A response can make the client read the first block of a tipset that has none (`EmptyBundleAborts`).
  It does if and only if, after the parents kept, a bundle stores nothing where no parents are
  expected (`AbortNeedsEmptyKey`, `ResponseAbortsExactly`).
* A bundle without messages is accepted where messages were asked for (`MessagesMayBeMissing`); the
  messages are found afterwards if and only if the bundle carried them or they were known before
  (`StoredIsFound`).
* A state machine that keeps events which fit no rule can stall for ever (`OneEventStalls`,
  `StalledForever`). Over every run it keeps its tick if and only if no step put such an event back
  behind an empty queue (`StallsExactlyOnRequeue`).
* The padding formula is right for powers of two and wrong for every other piece length
  (`FillIsExact`), for instance 3 (`FillFailsForThree`).

## Model

| member | source | states |
|---|---|---|
| `CborGrammar.FlatIsRecursive` | core/codec/cbor/cbor_token.hpp:193-248 | one counter of outstanding items reads exactly what the recursive grammar of nested items reads, from any position, for any count |
| `CborGrammar.ItemIsPrefixCode` | core/codec/cbor/cbor_token.hpp:265-274 | an item is found wherever its bytes are put and whatever follows, and on no proper prefix of it |
| `CborGrammar.LinksAreGeneral` | core/codec/cbor/cbor_token.hpp:174-190 | items whose tags are all links end at the same place in the grammar that allows any tag |
| `CborToken.EncodedHeadParses` | core/codec/cbor/cbor_token.hpp:302-343 | an encoded head, wherever it lies, parses back to its type and argument |
| `CborToken.EncodedHeadIsShortest` | core/codec/cbor/cbor_token.hpp:112-126 | no head that the decoders accept says the same in fewer bytes (section 3.9 of RFC 7049) |
| `CborToken.TokenEncoder` | core/codec/cbor/cbor_token.hpp:302-336 | the array filled with shifted copies of the argument is the big-endian head of the shortest width |
| `CborToken.TokenRunIsParse` | core/codec/cbor/cbor_token.hpp:134-218 | fed byte by byte, a fresh decoder accepts exactly the tokens that can be parsed at once, and stops right after them |
| `CborNested.CborTokenDecoder.Update` | core/codec/cbor/cbor_token.hpp:143-191 | one byte moves the decoder as its step function says, with the argument kept in 64 bits |
| `CborNested.CborTokenDecoder.Read` | core/codec/cbor/cbor_token.hpp:206-218 | the loop over the input is the run of the step function, and leaves the rest of the input |
| `CborNested.CborNestedDecoder.Read` | core/codec/cbor/cbor_token.hpp:220-248 | the loop over tokens and payloads with counters modulo 2^64 ends where the run of passes ends |
| `CborNested.ReadNested` | core/codec/cbor/cbor_token.hpp:265-274 | splits the input into the nested item and the rest, or fails |
| `CborNested.NestedReadsEveryItem` | core/codec/cbor/cbor_token.hpp:220-274 | every item of the grammar is read, to exactly its end |
| `CborNested.NestedAcceptsItemsExactly` | core/codec/cbor/cbor_token.hpp:220-274 | what is accepted is an item of the grammar if and only if no token made the exact demand reach 2^63 |
| `CborNested.NestedReadsItemThenRest` | core/codec/cbor/cbor_token.hpp:265-274 | an item followed by anything is taken whole, what follows is left, and every proper prefix of the item is refused |
| `CborNested.NestedAcceptsBareMapHead` | core/codec/cbor/cbor_token.hpp:105-107 | the head of a map of 2^63 entries alone is accepted although it is not an item |
| `CborBuffering.Decoder.Reset` | core/common/libp2p/cbor_buffering.cpp:70-73 | puts one outstanding item on the stack |
| `CborBuffering.Decoder.FinishHead` | core/common/libp2p/cbor_buffering.cpp:101-132 | a complete head takes one from the innermost counter, pushes what it announces and ends the lists that are complete |
| `CborBuffering.Decoder.Consume` | core/common/libp2p/cbor_buffering.cpp:79-134 | consuming a chunk is feeding its bytes one by one: same state, same number taken, same outcome |
| `CborFraming.ChunkingIsIrrelevant` | core/common/libp2p/cbor_buffering.cpp:79-134 | however the bytes are split, state, bytes taken and outcome are those of feeding them at once |
| `CborFraming.MoreBytesIsSafe` | core/common/libp2p/cbor_buffering.cpp:75-134 | an input no longer than moreBytes is taken whole, so nothing after the item is ever asked for |
| `CborFraming.StackIsFlat` | core/common/libp2p/cbor_buffering.cpp:91-134 | the stack of counters completes exactly where as many items as the counters add up to end |
| `CborFraming.ConsumeFindsItem` | core/common/libp2p/cbor_buffering.cpp:66-134 | after reset the decoder completes if and only if the input starts with an item, having taken exactly that item |
| `CborFraming.ChunkedItem` | core/common/libp2p/cbor_buffering.cpp:79-134 | in any chunks and before any bytes, an item is taken exactly and the decoder is left idle |
| `CborFraming.SameEndAsNested` | core/common/libp2p/cbor_buffering.cpp:79-134 | both decoders find the same end on every item whose tags are links |
| `CborFraming.NestedAgreesExactlyOnLinks` | core/codec/cbor/cbor_token.hpp:174-274 | where the stack decoder completes and the exact demand stays below 2^63, the other one finds the same end if and only if every tag is a link; links keep the demand bounded |
| `CborFraming.UnboundedDecodersCanAgree` | core/codec/cbor/cbor_token.hpp:174-248 | a list with an empty link on which both decoders end at the same place, because the demand wraps around, although it is not an item of links |
| `CborFraming.OtherTagsDiffer` | core/common/libp2p/cbor_buffering.cpp:107-128 | any other tag in front of an item is passed over by one decoder and refused by the other |
| `CborFields.SortIsPermutation` | core/codec/cbor/cbor_encode_stream.cpp:82-111 | sorting fields with distinct keys gives strictly increasing keys, in either order, and loses and invents nothing; what the orders are is `KeyLessMeans` |
| `CborFields.KeyLessMeans` | core/codec/cbor/cbor_encode_stream.cpp:82-87 | the canonical order puts the shorter key first and keys of one length by their first different byte; the order of the map goes by the first different byte, a prefix first; said with lengths and bytes, both ways |
| `CborFields.SortKeepsFirst` | core/codec/cbor/cbor_decode_stream.cpp:86-98 | of fields with one key the first is kept, whatever the order they come in, and the kept ones are in strict order |
| `CborEncode.MapIsCanonical` | core/codec/cbor/cbor_encode_stream.cpp:89-111 | a map is written as its head and its own fields, shorter keys first and keys of one length by their first different byte |
| `CborEncode.CidBytes` | core/codec/cbor/cbor_encode_stream.cpp:39-49 | a link is the bytes D8 2A, the head of a byte string one longer than the CID, a zero byte, and the CID |
| `CborExamples.SmallNumbers` | test/core/codec/cbor/cbor_test.cpp:99-108 | 0, 23, -1 and -24 byte by byte |
| `CborExamples.Simple` | test/core/codec/cbor/cbor_test.cpp:60-75 | false, true and null are F4, F5 and F6, and a present optional is its value |
| `CborExamples.LargerNumbers` | test/core/codec/cbor/cbor_test.cpp:99-108 | 24, 255, -100 and -256 byte by byte |
| `CborExamples.WideNumbers` | core/codec/cbor/cbor_token.hpp:302-343 | 1000, 1000000 and 1000000000000 byte by byte, as in appendix A of RFC 7049 |
| `CborExamples.Strings` | test/core/codec/cbor/cbor_test.cpp:165-189 | byte strings, texts and a link byte by byte |
| `CborExamples.Lists` | test/core/codec/cbor/cbor_test.cpp:78-83 | lists, the list 2, 5, 9 among them, byte by byte |
| `CborExamples.Maps` | test/core/codec/cbor/cbor_test.cpp:191-204 | the map of "aa", "b" and "c" byte by byte: the longer key is written last |
| `CborFields.IncreasingIsUnique` | core/codec/cbor/cbor_encode_stream.cpp:89-111 | two strictly increasing sequences of the same fields are equal, so the canonical form is one |
| `CborFields.CanonicalOrderIsReversible` | core/codec/cbor/cbor_decode_stream.cpp:86-98 | a map sent in (length, bytes) order and collected by key is the same map |
| `CborEncode.ConcatItems` | core/codec/cbor/cbor_encode_stream.cpp:72-80 | runs of m and n items put one after the other are a run of m + n items |
| `CborEncode.MapIsItem` | core/codec/cbor/cbor_encode_stream.cpp:89-111 | a map of complete values with distinct keys is one complete item |
| `CborEncode.EncIsItem` | core/codec/cbor/cbor_encode_stream.hpp:32-95 | the encoding of every value is exactly one item of the grammar |
| `CborEncodeStream.CborEncodeStream.PutText` | core/codec/cbor/cbor_encode_stream.cpp:32-37 | appends one text item and keeps the buffer a run of exactly count items |
| `CborEncodeStream.CborEncodeStream.PutCid` | core/codec/cbor/cbor_encode_stream.cpp:39-49 | appends tag 42 over a byte string that starts with the multibase byte, and keeps the buffer a run of exactly count items |
| `CborEncodeStream.CborEncodeStream.PutStream` | core/codec/cbor/cbor_encode_stream.cpp:72-80 | inserts a finished stream as one list or as its items; the buffer stays a run of exactly count items |
| `CborEncodeStream.CborEncodeStream.PutPairs` | core/codec/cbor/cbor_encode_stream.cpp:104-110 | keys and values are written in the order given and the count is restored |
| `CborEncodeStream.CborEncodeStream.PutMap` | core/codec/cbor/cbor_encode_stream.cpp:89-111 | fails exactly when a value does not count as one item; otherwise appends the head and exactly the given fields, for i < j a shorter key i, or one of the same length with the smaller byte where they first differ, and counts one |
| `CborEncodeStream.CborEncodeStream.PutList` | core/codec/cbor/cbor_encode_stream.hpp:62-73 | the elements raise the count while they are written, the list counts once, and the buffer stays a run of exactly count items |
| `CborEncodeStream.CborEncodeStream.PutEntries` | core/codec/cbor/cbor_encode_stream.hpp:75-83 | a std::map is encoded value by value on streams of their own and inserted as a canonical map; the buffer stays a run of exactly count items |
| `CborEncodeStream.CborEncodeStream.Put` | core/codec/cbor/cbor_encode_stream.hpp:32-95 | appends the encoding of any value, counts one, and keeps the buffer a run of exactly count items |
| `CborEncodeStream.FinishedIsItems` | core/codec/cbor/cbor_encode_stream.cpp:134-145 | the bytes of a finished stream are one list item, or the items it holds |
| `CborDecodeStream.CborDecodeStream.ReadToken` | core/codec/cbor/cbor_decode_stream.hpp:180-187 | succeeds exactly when the stream is at its end or on a token, and then stands on it |
| `CborDecodeStream.CborDecodeStream.Payload` | core/codec/cbor/cbor_decode_stream.cpp:15-42 | takes exactly the announced bytes and stands on what follows, or fails |
| `CborDecodeStream.CborDecodeStream.Nested` | core/codec/cbor/cbor_decode_stream.hpp:188-196 | takes the bytes of the whole current item and stands on what follows, or fails |
| `CborDecodeStream.CborDecodeStream.Get` | core/codec/cbor/cbor_decode_stream.hpp:27-98 | every operator leaves the value and the position that the decoding function says, or its error |
| `CborDecodeStream.CborDecodeStream.GetItems` | core/codec/cbor/cbor_decode_stream.hpp:76-89 | the element loop with its 32-bit number reads what the decoding function reads |
| `CborDecodeStream.CborDecodeStream.Map` | core/codec/cbor/cbor_decode_stream.cpp:86-98 | the entry loop collects keys and nested streams into a map ordered by key, the first of equal keys kept |
| `CborRoundTrip.RoundTrip` | core/codec/cbor/cbor_decode_stream.hpp:27-98 | for every value of every type and every rest, decoding its encoding succeeds if and only if no list has 2^32 elements or more and the rest is there to stand on; it then stands on the rest, and gives the value back if and only if no present optional holds one written as null |
| `CborSound.DecodedIsProper` | core/codec/cbor/cbor_decode_stream.hpp:26-90 | on every input, what decoding gives is a value of the type asked for: integers within their limits, map keys distinct and in order, lists of fewer than 2^32, no present optional around an absent one |
| `CborSound.RewritingIsStable` | core/codec/cbor/cbor_decode_stream.hpp:26-90 | what was read from any input is written in a form that is read back as the same value |
| `CborSound.MapKeepsFirst` | core/codec/cbor/cbor_decode_stream.cpp:86-98 | the fields of a map are those read, the first of each key, each key before the next by its first different byte or as its prefix |
| `CborSound.IntegerReads` | core/codec/cbor/cbor_decode_stream.hpp:49-56 | a signed integer is read if and only if it is within the limits of its type, after wrapping around beyond 63 bits, and refused as an overflow otherwise |
| `CborSound.NaturalReads` | core/codec/cbor/cbor_decode_stream.hpp:39-48 | an unsigned integer is read if and only if it is not negative and within the limit, and refused as an overflow otherwise |
| `CborRoundTrip.EveryValueReadsBack` | core/codec/cbor/cbor_decode_stream.hpp:27-98 | what decoding gives, for every value, is the value with every optional written as null read as absent |
| `CborRoundTrip.ReadAsItself` | core/codec/cbor/cbor_encode_stream.hpp:51-60 | a value is read as itself if and only if no present optional, at any depth, holds one written as null |
| `CborRoundTrip.MapFieldsReadBack` | core/codec/cbor/cbor_decode_stream.cpp:86-98 | the fields of a map sent in canonical order come back as the same map, and the stream stands on what follows |
| `CborRoundTrip.LongListFails` | core/codec/cbor/cbor_decode_stream.hpp:76-89 | no stream can be read as a list of 2^32 elements or more |
| `CborRoundTrip.LongListIsLost` | core/codec/cbor/cbor_decode_stream.hpp:76-89 | a list of exactly 2^32 one-byte numbers, which is written and cannot be read |
| `CborRoundTrip.NestedOptionalIsLost` | core/codec/cbor/cbor_decode_stream.hpp:62-74 | a present optional around an absent one, which is read as absent |
| `RleRuns.RunsMeanTheSet` | core/codec/rle/rle_plus_encoding_stream.cpp:22-45 | the run lengths of a set stand for exactly that set |
| `RleRuns.RunsAreCanonical` | core/codec/rle/rle_plus_encoding_stream.cpp:22-45 | run lengths alternate, none but the first is zero, and they start with the first element |
| `RleRuns.RunsAreUnique` | core/codec/rle/rle_plus_encoding_stream.cpp:22-60 | every canonical list of runs is the run lengths of the set it stands for: the conversions undo each other both ways |
| `RleBits.BlockReadsBack` | core/codec/rle/rle_plus_decoding_stream.hpp:44-60 | wherever the block of a run lies, single bit, small or varint, it reads back as that run and stops at its end |
| `RleFormat.BlockIsShortest` | core/codec/rle/rle_plus_encoding_stream.hpp:36-47 | no block that the decoder accepts says the same run in fewer bits |
| `RleFormat.BlockLengths` | core/codec/rle/rle_plus_config.hpp:27 | a run of 1 takes one bit, of 2 to 15 six bits, of 16 or more two bits and eight for each digit to the base 128 |
| `RleFormat.LongBlockMeans` | core/codec/rle/rle_plus_decoding_stream.hpp:93-110 | a long block of more than ten bytes is refused as an overflow; any other gives the number its seven-bit digits hold, modulo 2^64 |
| `RleFormat.RunsStandFor` | core/codec/rle/rle_plus_decoding_stream.hpp:37-60 | whatever the runs, empty ones and sums beyond 64 bits included, a number is in their set if and only if it is that many places on in a present run |
| `RleFormat.RefusedExactly` | core/codec/rle/rle_plus.hpp:38-57 | over 32768 bytes the size is refused; else the version if and only if the two low bits of the first byte are not zero; else only a block that is too long |
| `RleFormat.OneNumber` | core/codec/rle/rle_plus.hpp:21-30 | the set {8} is the bytes 10 03 |
| `RleBits.BlocksReadBack` | core/codec/rle/rle_plus_decoding_stream.hpp:37-60 | blocks followed by zeros only read back as exactly the runs written, and the loop stops there |
| `RlePlus.PackingKeepsBits` | core/codec/rle/rle_plus_encoding_stream.hpp:52-62 | packing and dropping one zero byte change no bit, as missing bits read as zero |
| `RlePlus.EncodingEndsNonZero` | core/codec/rle/rle_plus_encoding_stream.hpp:52-62 | the encoding of a non-empty set is not empty and does not end in a zero byte |
| `RlePlus.RoundTrip` | core/codec/rle/rle_plus.hpp:21-57 | decoding the encoding of any set gives the set back if and only if the encoding is at most 32 KiB, and is refused for its size otherwise |
| `RleStreams.RLEPlusEncodingStream.PushBlock` | core/codec/rle/rle_plus_encoding_stream.hpp:36-47 | appends the block of the run: one set bit for 1, six bits for 2 to 15, and two bits and a byte per digit to the base 128 for 16 or more |
| `RleStreams.RLEPlusEncodingStream.PushLongBlock` | core/codec/rle/rle_plus_encoding_stream.hpp:92-106 | the loop over seven-bit groups appends the bits of the varint |
| `RleStreams.RLEPlusEncodingStream.Write` | core/codec/rle/rle_plus_encoding_stream.hpp:30-49 | the content is version, polarity and the blocks of the periods |
| `RleStreams.RLEPlusEncodingStream.Data` | core/codec/rle/rle_plus_encoding_stream.hpp:52-62 | the bytes are the packed content without one trailing zero byte |
| `RleStreams.GetPeriods` | core/codec/rle/rle_plus_encoding_stream.hpp:119-137 | the loop over differences yields the run lengths without an empty first one |
| `RleStreams.EncodeSet` | core/codec/rle/rle_plus.hpp:21-30 | the stream operations together are the encoding, which decodes to exactly the set given if it is within 32768 bytes and is refused for its size otherwise |
| `RleStreams.RLEPlusDecodingStream.GetSpan` | core/codec/rle/rle_plus_decoding_stream.hpp:73-85 | the next bits as a number, bits past the end counting as zero |
| `RleStreams.RLEPlusDecodingStream.DecodeLongBlock` | core/codec/rle/rle_plus_decoding_stream.hpp:93-168 | collects the bytes up to the first with a clear top bit and puts their groups together in 64 bits, or reports overflow |
| `RleStreams.RLEPlusDecodingStream.Read` | core/codec/rle/rle_plus_decoding_stream.hpp:37-60 | terminates on every input with the set of the runs read, or the first error |
| `RleStreams.DecodeBytes` | core/codec/rle/rle_plus.hpp:37-57 | size limit, empty input and stream operations together are the decoding of the round trip |
| `RleStreams.ToRuns` | core/codec/rle/rle_plus_encoding_stream.cpp:22-45 | the loop yields the run lengths of the set |
| `RleStreams.FromRunsSet` | core/codec/rle/rle_plus_encoding_stream.cpp:47-60 | the loop yields the set the runs stand for |
| `RleStreams.CounterEndsExactlyOnShortRuns` | core/codec/rle/rle_plus_encoding_stream.cpp:50-56 | the loop over a member run ends, after as many passes as the run is long and with exactly its numbers inserted, if and only if the run is shorter than 2^32; otherwise its guard holds after any number of passes |
| `RleStreams.EndlessRun` | core/codec/rle/rle_plus_encoding_stream.cpp:50-56 | the loop over a run of exactly 2^32 never ends |
| `PaychRuns.StepKeeps` | core/paych/maker.cpp:107-279 | from a state with the invariants, no possible event fails an assert, and the invariants hold after it |
| `PaychRuns.EveryRunIsSafe` | core/paych/maker.cpp:107-279 | over every run: no assert fails, the channel invariants hold, the books balance up to the leak, and no callback is held or answered twice |
| `PaychRuns.ProtocolIsSafe` | core/paych/maker.cpp:63-279 | over every run from nothing: at most one outstanding API call, a waiting CID only with its amount, pending amounts that add up, and every callback invoked at most once |
| `PaychRuns.FundsAreConserved` | core/paych/maker.cpp:184-265 | over every run unused funds are not negative, and confirmed value is acknowledged plus unused if and only if nothing leaked |
| `PaychRuns.BooksBalanceExactly` | core/paych/maker.cpp:213-228 | they balance if and only if no step confirmed a message whose callbacks were lost while funds were unused |
| `PaychRuns.NoDropsConserve` | core/paych/maker.cpp:184-265 | over every run that drops waiting callbacks, by failed wait or restart, only when nothing is unused, confirmed value is acknowledged plus unused |
| `PaychAnswers.AnswersAreTrue` | core/paych/maker.cpp:107-279 | over every run, every callback told of a channel was told the actor stored for the pair, and a message confirmed by then |
| `PaychAnswers.RunsAreTruthful` | core/paych/maker.cpp:107-279 | the same from any state whose answers so far are true |
| `PaychAnswers.ConfirmedTells` | core/paych/maker.cpp:184-265 | a confirmed wait tells the waiting callbacks the actor and the message waited for, raises the total by what the message brought plus what was unused, and serves the pending ones from what is left over or sends for the difference |
| `PaychAnswers.FailureTellsAll` | core/paych/maker.cpp:142-212 | a failure is told to every callback held and to no other, nothing stays outstanding, and the row is kept or forgets its message exactly as the kind of failure says |
| `PaychAnswers.UnservedExactlyWhenStuck` | core/paych/maker.cpp:107-140 | a request is left with no answer and no call that could bring one if and only if, when it came, nothing was outstanding, no message was waited for, and the row had no actor or noted an amount |
| `PaychAnswers.StuckForever` | core/paych/maker.cpp:238-245 | from then on no callback of the pair is ever answered |
| `PaychAnswers.EveryRequestIsServedUnlessStuck` | core/paych/maker.cpp:107-279 | over every run, whoever is held has a call outstanding unless the maker is stuck |
| `PaychAnswers.StuckAfterFailedCreation` | core/paych/maker.cpp:161-171 | the run where it happens: creating the channel fails, and the next request is never answered |
| `PaychRuns.LeakHappens` | core/paych/maker.cpp:213-217 | a run in which 5 of the unused funds are counted twice |
| `PaychMakerObject.Maker.Make` | core/paych/maker.cpp:107-140 | queues the request of one pair, resumes or starts what is needed, and leaves every other pair alone |
| `PaychMakerObject.Maker.OnNetwork` | core/paych/maker.cpp:142-159 | shifts the pending requests and sends the create message, or fails them all |
| `PaychMakerObject.Maker.OnPush` | core/paych/maker.cpp:161-182 | stores the message identity and waits for it, or forgets the amount and fails all requests |
| `PaychMakerObject.Maker.OnWait` | core/paych/maker.cpp:184-236 | books the confirmed message, answers its callbacks and serves what is pending, or fails all requests; every callback answered is told the actor of the channel and the message waited for, or an error |
| `PaychMakerObject.Maker.Next` | core/paych/maker.cpp:238-265 | serves pending requests from unused funds or with another message; a callback answered is told the actor of the channel and the last confirmed message |
| `PaychMakerObject.Maker.ConfirmMessage` | core/paych/maker.cpp:213-232 | books a confirmed message and tells the callbacks that waited the actor and that message |
| `PaychMakerObject.Maker.OnError` | core/paych/maker.cpp:267-279 | fails every callback of the pair once and drops its queue |
| `PaychMakerObject.Maker.ShiftQueue` | core/paych/maker.cpp:63-69 | everything pending becomes what is waited for |
| `PaychMakerObject.Maker.Reload` | core/paych/maker.cpp:104-125 | a new start keeps the stored rows of all pairs and forgets their queues and outstanding calls |
| `PaychPairs.EveryInterleavingIsSafe` | core/paych/maker.cpp:107-279 | in every interleaving of events over all pairs, sharing the last confirmed message, no assert fails and every pair is safe and balances up to its own leak |
| `PaychPairs.EveryInterleavingIsTruthful` | core/paych/maker.cpp:107-279 | in every interleaving over all pairs, every callback told of a channel was told the actor of its own pair, and a message that was confirmed, for whatever pair |
| `PaychPairs.Handle` | core/paych/maker.cpp:107-279 | one possible event on the object meets every assert of its handler and leaves every pair as the specification says |
| `PaychPairs.Drive` | core/paych/maker.cpp:107-279 | driven by any events that can happen, the object goes through no failing assert and holds, pair by pair, what the specification says |
| `PaychLedger.CombineAt` | core/paych/vouchers.cpp:12-60 | every lane of the combined view is its state on chain raised by its own vouchers that count |
| `PaychLedger.CombineAfterUpdate` | core/paych/vouchers.cpp:12-60 | writing one lane moves only that lane of the view, and the total by exactly its growth |
| `PaychLedger.AddKeepsOrder` | core/paych/vouchers.cpp:138-170 | accepting a voucher keeps lanes strictly sorted by identity and vouchers by nonce |
| `PaychLedger.ReceiverAdd` | core/paych/vouchers.cpp:138-170 | an accepted voucher raises the lane total by exactly the value returned, within the balance, and lies beyond every nonce and amount of its lane; 0 is returned only for a voucher already there, and changes nothing |
| `PaychLedger.AddingAgainIsNeutral` | core/paych/vouchers.cpp:145-156 | adding a voucher again returns 0 and changes nothing, whatever was added since |
| `PaychLedger.ReceiverRun` | core/paych/vouchers.cpp:138-170 | over every run of adds the values returned sum to the growth of the total, which stays within the balance |
| `PaychLedger.ReceiverLedger` | core/paych/vouchers.cpp:138-170 | from a new row, the values returned over any run of adds sum to the total beyond what is on chain, within the balance, with strictly increasing nonces and amounts in every lane |
| `PaychLedger.CheckAgreesWithAdd` | core/paych/vouchers.cpp:126-170 | the check accepts, with the same value, if and only if adding would accept the voucher as new |
| `PaychLedger.MakeIsExact` | core/paych/vouchers.cpp:172-202 | a made voucher exceeds every stored and on-chain nonce and amount of its lane, is stored last, keeps the order, and raises the combined total by exactly what it adds, within the balance |
| `PaychLedger.NextLaneIsNew` | core/paych/vouchers.cpp:108-124 | the lane handed out is not in the row if and only if the row does not already reach the last identity or the counter is free |
| `PaychLedger.NextLaneIsLeast` | core/paych/vouchers.cpp:108-124 | below the last identity, the lane handed out is the least one above every lane of the row and not below the counter, which moves past it |
| `PaychAcceptance.AcceptsExactly` | core/paych/vouchers.cpp:138-170 | a voucher is accepted as new if and only if it has no time lock, preimage, extra or merges, is signed and the signature verifies, its nonce is above that on chain and of every accepted voucher of its lane, its amount above the largest of those, what it adds at least the minimum and within the balance together with what all lanes have promised; it is worth what it adds; known vouchers, and other ones with a known nonce, are told apart |
| `PaychAcceptance.RefusedWithReason` | core/paych/vouchers.cpp:138-170 | every error names what is wrong with the voucher |
| `PaychAcceptance.ChecksExactly` | core/paych/vouchers.cpp:126-136 | a check says yes exactly under the same conditions, and says what the voucher adds |
| `PaychAcceptance.AcceptedIsStored` | core/paych/vouchers.cpp:138-170 | an accepted voucher is stored if and only if no other voucher of its lane has its nonce; nothing else is added or lost |
| `PaychAcceptance.MakesExactly` | core/paych/vouchers.cpp:172-202 | a voucher is written if and only if its amount is above the largest promised on the lane, within the balance, the last nonce unused and the wallet signs; it is plain, signed, and has one nonce more than the largest, or zero |
| `PaychAcceptance.TotalIsPromised` | core/paych/vouchers.cpp:12-61 | the total is the sum over all lanes of the largest amount promised on each, on chain or by a voucher that counts |
| `PaychPayments.PaymentArrives` | core/paych/vouchers.cpp:138-202 | a voucher that the payer makes is accepted by a receiver that has accepted all before, for what it adds, unless more is asked for |
| `PaychPayments.PaymentsArrive` | core/paych/vouchers.cpp:138-202 | over every run of payments, everything made is accepted, and both sides agree on every voucher and on the total |
| `PaychPayments.PaymentsFromNothing` | core/paych/vouchers.cpp:138-202 | the same between two new rows |
| `PaychLedger.NextLaneRepeats` | core/paych/vouchers.cpp:108-124 | over a run from a new row, vouchers made on lane 0 and on the last lane lead to lane 0 being handed out although it is in the row |
| `PaychLedger.NextLanesIncrease` | core/paych/vouchers.cpp:108-124 | the next lane handed out is greater if and only if the one before was not the last identity |
| `PaychLedger.EveryRunKeepsOrder` | core/paych/vouchers.cpp:108-202 | every run of add, make and nextLane, whatever chain and wallet answer, keeps the row strictly sorted; the lanes handed out strictly increase if and only if the last identity was not handed out before another one |
| `PaychVouchersObject.LaneStates` | core/paych/vouchers.cpp:12-60 | the loops yield the combined lane states and the sum of what they redeem |
| `PaychVouchersObject.FindVoucher` | core/paych/vouchers.cpp:70-90 | the lane is added where it belongs if missing; the place and presence of the voucher are those of the sorted order |
| `PaychVouchersObject.Vouchers.CheckVoucher` | core/paych/vouchers.cpp:222-265 | the value a voucher adds to its lane if and only if it is plain, signed and verified, with a new nonce and a larger amount; else the first reason to refuse it |
| `PaychVouchersObject.Vouchers.CheckOnly` | core/paych/vouchers.cpp:126-136 | says yes exactly for a good voucher, with what it adds, without changing the row |
| `PaychVouchersObject.Vouchers.Add` | core/paych/vouchers.cpp:138-170 | the stored row and the result are those of the ledger: a new voucher is accepted exactly when it is good, for what it adds, and refused for a reason that holds of it; a refusal changes nothing, and no other channel is touched |
| `PaychVouchersObject.Vouchers.Make` | core/paych/vouchers.cpp:172-202 | the stored row and the voucher are those of the ledger: written exactly when it adds value within the balance, with the next nonce; a refusal changes nothing |
| `PaychVouchersObject.Vouchers.NextLane` | core/paych/vouchers.cpp:108-124 | the stored row and the lane are those of the ledger |
| `Blocksync.VisitMessages` | core/node/blocksync_server.cpp:62-79 | succeeds exactly when all messages load; the indices resolve to the message list of the block, and a message is sent once per block |
| `Blocksync.PackMessages` | core/node/blocksync_server.cpp:96-112 | for every block the index lists resolve to its BLS and secp lists |
| `Blocksync.ServeWalk` | core/node/blocksync_server.cpp:92-128 | the chain represents, tipset by tipset, the ancestor walk up to the depth, height 0 or a failed load |
| `Blocksync.GetChain` | core/node/blocksync_server.cpp:81-140 | serves the first min(depth, 800) tipsets of the walk; "not found" and "partial" are reported exactly when they apply |
| `BlocksyncMeaning.WalkIsTheWalk` | core/node/blocksync_server.cpp:91-130 | what is served is the one sequence in which each tipset is stored under the parents of the one before, only the last is at height 0, and which ends early only there or where a tipset cannot be served |
| `BlocksyncClient.UnpackingIsLossless` | core/node/blocksync_request.cpp:196-221 | for any tipset, unpacking what was packed rebuilds every message list in order, within range, and every list hashes to what its header says |
| `BlocksyncClient.BundleIsStored` | core/node/blocksync_request.cpp:149-225 | every block of a bundle packed by the server is stored |
| `BlocksyncClient.CollectKeepsTipset` | core/primitives/tipset/tipset.cpp:116-211 | the blocks of a valid tipset are collected as they stand |
| `BlocksyncRequest.ParentsAreLinked` | core/node/blocksync_request.cpp:474-526 | whatever the response, the parents kept are a hash-linked chain from the key expected |
| `BlocksyncRequest.AbortNeedsEmptyKey` | core/node/blocksync_request.cpp:480-526 | whatever the bundles, a tipset without blocks is read if and only if the bundle after the parents kept stores nothing and the last of them names no parents |
| `BlocksyncRequest.ResponseAbortsExactly` | core/node/blocksync_request.cpp:436-526 | the same for a whole response and the parents it delivers |
| `BlocksyncRequest.EmptyBundleAborts` | core/node/blocksync_request.cpp:503-514 | a requested block without parents followed by a bundle without blocks: an empty tipset is read and no error is recorded |
| `BlocksyncRequest.HonestParents` | core/node/blocksync_request.cpp:474-526 | against bundles that carry a linked walk of valid tipsets, the parents are exactly that walk |
| `BlocksyncRequest.ArrivedAreCrossedOff` | core/node/blocksync_request.cpp:452-461 | exactly the blocks crossed off the waiting list are kept |
| `BlocksyncRequest.NoErrorIsComplete` | core/node/blocksync_request.cpp:436-526 | for a request that is not messages-only, no error implies that every requested block is available, whatever the response |
| `BlocksyncRequest.MessagesOnlyDeliversWaited` | core/node/blocksync_request.cpp:444-461 | a messages-only request without error delivers exactly what it waited for, so all blocks if and only if all were waited for |
| `BlocksyncRequest.FoundBlockIsDropped` | core/node/blocksync_request.cpp:268-278 | a block found at hand is missing from a messages-only result that reports no error |
| `BlocksyncRequest.DeliveredParentsAreLinked` | core/node/blocksync_request.cpp:436-526 | whatever the response, the parents delivered are linked and start at the parents of a requested block |
| `BlocksyncRequest.HonestExchange` | core/node/blocksync_request.cpp:436-526 | against the server's walk, the exchange ends without error, with the blocks of the tipset and exactly the rest of the walk as parents |
| `BlocksyncRequest.WholeExchange` | core/node/blocksync_server.cpp:81-140 | the same from the request as sent: distinct block CIDs in, the tipset and its ancestors out |
| `BlocksyncMeaning.CollectsExactly` | core/primitives/tipset/tipset.cpp:116-200 | blocks are collected if and only if they have tickets, one height, the same parents and different miners; what is collected are the same blocks by ticket, then by CID |
| `BlocksyncMeaning.RefusedExactly` | core/node/blocksync_request.cpp:197-222 | a block is refused as inconsistent if and only if an index is beyond the messages sent, as a mismatch if and only if its lists do not hash to what its header says |
| `BlocksyncMeaning.StoresUpToFirstRefused` | core/node/blocksync_request.cpp:149-225 | the blocks stored of a bundle are those before the first one refused, which gives the error; lists of the wrong length store nothing |
| `BlocksyncMeaning.ArrivesExactly` | core/node/blocksync_request.cpp:447-462 | what is still waited for are the blocks that did not come; the parents expected are those of the first block that was waited for |
| `BlocksyncMeaning.ParentsEndExactly` | core/node/blocksync_request.cpp:480-527 | the parents end with an error if and only if the next bundle holds blocks that are not of one tipset, or a tipset other than the one expected; one with a refused block ends them without |
| `BlocksyncMeaning.ResponseErrorExactly` | core/node/blocksync_request.cpp:436-528 | a response ends with an error if and only if its parents contradict what is expected, a block of its first bundle is refused, or a block waited for did not come, reported in that order |
| `BlocksyncStore.FoundExactly` | core/node/blocksync_request.cpp:70-120 | where messages matter, a block is found if and only if its header, its list and every message on it are there |
| `BlocksyncStore.StoredIsFound` | core/node/blocksync_request.cpp:149-225 | a block that was accepted is found afterwards; with its messages if and only if the bundle carried messages or they were known before |
| `BlocksyncStore.WriteBundleGrows` | core/node/blocksync_request.cpp:149-225 | storing a bundle, accepted or refused, loses nothing that was stored and keeps everything under its own address |
| `BlocksyncStore.DeliveredIsFound` | core/node/blocksync_request.cpp:70-146 | after a whole response every delivered block is found at hand, with its messages if the first bundle carried them, so it is not asked for again |
| `BlocksyncStore.MessagesMayBeMissing` | core/node/blocksync_request.cpp:196-222 | messages asked for and not sent: the block is delivered without error and without its messages |
| `BlocksyncRequestObject.SplitIsExact` | core/node/blocksync_request.cpp:129-146 | every requested block is asked for or its header is at hand, and only one of the two |
| `BlocksyncRequestObject.SplitIsInOrder` | core/node/blocksync_request.cpp:129-146 | what is asked for and what is at hand both keep the order of the request |
| `BlocksyncRequestObject.TryReduceRequest` | core/node/blocksync_request.cpp:129-146 | splits the blocks exactly into those to ask for and the stored headers at hand, each in the order given |
| `BlocksyncRequestObject.TipsetCreator.ExpandTipset` | core/primitives/tipset/tipset.cpp:152-200 | puts the block after every block it does not precede by ticket and CID, or fails without a ticket |
| `BlocksyncRequestObject.StoreTipsetBundle` | core/node/blocksync_request.cpp:149-225 | stores messages, headers and message lists up to the first block refused, with the reason; what is written before a refusal stays written |
| `BlocksyncRequestObject.CollectTipset` | core/node/blocksync_request.cpp:486-504 | expands a tipset block by block; succeeds if and only if the blocks are compatible, and gives the same blocks in ticket order |
| `BlocksyncRequestObject.Request.MakeRequest` | core/node/blocksync_request.cpp:244-303 | asks for exactly what is missing, within the depth limits; answers at once exactly when nothing is missing or a header is; everything requested is accounted for; a messages-only request that misses a header leaves the ones loaded before it |
| `BlocksyncRequestObject.Request.ScheduleResult` | core/node/blocksync_request.cpp:340-362 | the caller hears of the request once, whatever comes after |
| `BlocksyncRequestObject.Request.Fail` | core/node/blocksync_request.cpp:318-326 | a timeout or a failed connection is answered with its error, unless an answer was given before |
| `BlocksyncRequestObject.Request.StoreChain` | core/node/blocksync_request.cpp:436-526 | the new waiting list, result and block store are those of the response functions |
| `BlocksyncRequestObject.Request.StoreParents` | core/node/blocksync_request.cpp:474-526 | appends the linked parents, reports what ended them, and writes the bundles up to that one |
| `BlocksyncRequestObject.Request.OnResponseRead` | core/node/blocksync_request.cpp:410-434 | stores a response or records why there is none, and answers, unless an answer was given before |
| `BlocksyncRequestObject.Exchange` | core/node/blocksync_request.cpp:244-526 | client and server objects together: the caller hears once and gets the headers at hand, the tipset of the missing blocks and exactly its ancestors as far as the server has them, or that the response is incomplete when the server does not have it |
| `FsmRules.Transition.From` | core/fsm/fsm.hpp:94-102 | accepted exactly when no source state is waiting and the rule is not from any state |
| `FsmRules.Transition.FromMany` | core/fsm/fsm.hpp:105-114 | the same for several source states |
| `FsmRules.Transition.FromAny` | core/fsm/fsm.hpp:117-125 | accepted exactly when no transition was set, so a rule from any state never has transitions |
| `FsmRules.Transition.To` | core/fsm/fsm.hpp:128-151 | accepted exactly when sources are waiting and none has a destination yet, and then all of them get it; a refusal leaves the sources below the first conflict written |
| `FsmRules.Transition.ToSameState` | core/fsm/fsm.hpp:154-161 | accepted exactly for one new source state, which becomes its own destination |
| `FsmRules.ValidateTransitionRules` | core/fsm/fsm.hpp:458-495 | a list of rules is accepted if and only if no two rules for one event conflict |
| `FsmRules.AtMostOneRule` | core/fsm/fsm.hpp:212-244 | of an accepted list, at most one rule for an event applies to a state |
| `FsmRules.HandledByTheOne` | core/fsm/fsm.hpp:535-561 | the rule that handles an event is the one that applies, wherever it stands; where it leads is `HandledAsBuilt` |
| `FsmRules.HandledAsBuilt` | core/fsm/fsm.hpp:535-561 | with accepted rules, an event takes a state to another if and only if some rule for it maps that state there, or is from any state with that one destination; and is without a rule if and only if none applies |
| `FsmRules.OrderIsIrrelevant` | core/fsm/fsm.hpp:458-561 | the outcome of an event does not depend on the order of the rules |
| `FsmRules.OrderKeepsUnambiguous` | core/fsm/fsm.hpp:458-495 | whether a list is accepted does not depend on the order of the rules |
| `FsmRules.HandleEvent` | core/fsm/fsm.hpp:535-561 | the loop finds the first rule that says something about the state; with accepted rules, the destination a rule was built with |
| `FsmRuns.EveryRunIsSafe` | core/fsm/fsm.hpp:358-372 | in every interleaving of sends, begins, forces, stops and tick steps, no tick starts on an empty queue, and nothing accepted is lost or doubled |
| `FsmRuns.EveryDiscardingRunIsFifo` | core/fsm/fsm.hpp:505-567 | when events without a rule are discarded, exactly one tick is due if and only if the queue is not empty, and events are dealt with in the order accepted |
| `FsmRuns.StatesAreReplayed` | core/fsm/fsm.hpp:510-567 | while no other thread sets states, they are those of handling the accepted events one after the other; all of them once the machine is idle |
| `FsmRuns.ReplayIgnoresRuleOrder` | core/fsm/fsm.hpp:535-561 | the states reached do not depend on the order of the rules |
| `FsmRuns.StallsExactlyOnRequeue` | core/fsm/fsm.hpp:358-567 | over every run that is still running, exactly one tick is due for a non-empty queue if and only if no step put an event without a rule back behind an empty queue, and the machine is stalled if and only if one did |
| `FsmRuns.StalledForever` | core/fsm/fsm.hpp:358-372 | a stalled machine handles nothing ever again, whatever is sent |
| `FsmRuns.OneEventStalls` | core/fsm/fsm.hpp:562-567 | one event without a rule stalls a machine that keeps such events |
| `FsmObject.FSM.Begin` | core/fsm/fsm.hpp:329-338 | tracks an entity exactly when it was not tracked, in the state given |
| `FsmObject.FSM.Force` | core/fsm/fsm.hpp:346-355 | sets the state of an entity exactly when it is tracked |
| `FsmObject.FSM.Send` | core/fsm/fsm.hpp:358-372 | queues an event on a running machine, posting a tick only for an empty queue |
| `FsmObject.FSM.RunPosted` | core/fsm/fsm.hpp:505-567 | a tick is pop, look and apply in a row; where a rule leads from the state of the entity to another, the entity is moved there and (entity, event, from, to) is reported once; without a rule the event is dropped or put back; a stopped machine ignores the tick |
| `FsmObject.OneTransition` | test/core/fsm/fsm_test.cpp:42-76 | a rule built with From(a) and To(b): sending its event moves an entity from a to b and reports exactly that |
| `FsmObject.CreateFsm` | core/fsm/fsm.hpp:305-321 | a machine is made exactly for rules without conflicts |
| `Channels.EveryRunIsOrderly` | core/adt/channel.hpp:40-122 | the invariant of queue, handler and closed state holds over every run and every pattern of answers |
| `Channels.DeliveryIsFifo` | core/adt/channel.hpp:40-122 | the handler gets a prefix of the accepted writes in order; the end marker at most once, last, and only after all of them; and no call after answering false or the end marker |
| `Channels.OperationsAddUp` | core/adt/channel.hpp:40-122 | whatever the order of operations, the channel is a queue if and only if neither a read nor a close of the reader was among them, and hands values over if and only if there was a read, no close and no refusal; the writes accepted are the first of those made, and all of them while it can be written to |
| `Channels.AcceptedExactly` | core/adt/channel.hpp:40-122 | a write is accepted if and only if neither side was closed before and no value was refused; a read if and only if it is the first and the reader was not closed |
| `Channels.ReaderIsTold` | core/adt/channel.hpp:84-122 | a reader that was accepted is told of the end when the channel is closed, unless it has refused a value |
| `Channels.ClosedIsFinal` | core/adt/channel.hpp:49-122 | a closed channel never changes again |
| `Channels.ChannelObject.CanWrite` | core/adt/channel.hpp:40-47 | true exactly when a write, or closing for writing, would be accepted |
| `Channels.ChannelObject.Write` | core/adt/channel.hpp:49-65 | queues the value, hands it over, or refuses it |
| `Channels.ChannelObject.CloseWrite` | core/adt/channel.hpp:67-82 | marks the queue closed or sends the end marker, or refuses |
| `Channels.ChannelObject.Read` | core/adt/channel.hpp:84-106 | hands the queued values over until one is refused, then the end marker if the writer closed |
| `Channels.ChannelObject.CloseRead` | core/adt/channel.hpp:108-122 | closes the channel, telling the handler |
| `AsyncAll.EveryRunIsCounted` | core/common/async.hpp:27-40 | in every interleaving the counter is the number of slots left, or negative after a failure, and the final callback is due or made exactly when it came to its end |
| `AsyncAll.FiresOnce` | core/common/async.hpp:18-45 | the final callback is called at most once, and once when all slots ran; it reports values only if all succeeded, value i at index i, and an error only if a slot was given it; the counter stays between -n and n |
| `AsyncAll.AsyncAllObject.On` | core/common/async.hpp:27-40 | the callback of a slot is its atomic steps in a row |
| `ChainPath.ChainGetPath` | core/api/full_node/make.cpp:160-180 | a path is found if and only if there is a common ancestor within 900 steps either way, or 901 as the very last; it reverts down to the highest one and applies from there; replaying it moves the head; the search always ends, and says the limit was met only with 901 ancestors on one side |
| `ChainPath.PathMovesHead` | core/api/full_node/make.cpp:166-179 | replaying reverts and applies that meet in a common ancestor moves the head from one end to the other |
| `ChainPath.OverLimit` | core/api/full_node/make.cpp:167-169 | when the limit stops the search, no common ancestor lies within the limit |
| `ChainPath.MeetingIsUnique` | core/api/full_node/make.cpp:166-177 | the highest common ancestor is one |
| `Padding.CountSetBits` | core/common/bitsutil.hpp:22-29 | the number of ones |
| `Padding.CountTrailingZeros` | core/common/bitsutil.hpp:11-20 | the zeros below the lowest one, 64 for zero |
| `Padding.LowestOne` | core/proofs/proof_engine.hpp:121-126 | the lowest one is a factor of the number; without it one bit less is left, a multiple of the next power |
| `Padding.FillIsLeast` | core/proofs/proof_engine.hpp:117-117 | for every divisor of 2^64 the 64-bit expression is the least amount that makes the old length a multiple of the new one |
| `Padding.FillCompletes` | core/proofs/proof_engine.hpp:117-117 | it makes a non-zero old length a multiple of the new one if and only if the new one divides 2^64 |
| `Padding.FillIsExact` | core/proofs/proof_engine.hpp:117-117 | the expression is the least amount that completes if the new length is a power of two, and does not complete a non-empty old length if it is not |
| `Padding.DivisorIsPower` | core/proofs/proof_engine.hpp:117-117 | a divisor of a power of two is a power of two, so these are the lengths for which 64-bit negation is harmless |
| `Padding.FillFailsForThree` | core/proofs/proof_engine.hpp:117-117 | for a new length of 3 and an old length of 1 nothing is filled |
| `Padding.GetRequiredPadding` | core/proofs/proof_engine.hpp:113-134 | for every new length the pads are increasing powers of two below it that add up to the expression; for a power of two each starts at a multiple of its own size and together they are the least amount that completes; for any other length they do not complete a non-empty old length |

## Left out

- RleStreams.FromRunsSet: requires member runs below 2^32, because the source loops for ever on longer ones (`CounterEndsExactlyOnShortRuns`).
- RleStreams.GetPeriods: requires fewer than 2^64 elements, which leaves out only the set of all 64-bit numbers.
- CborBuffering.Decoder.Consume: a length of 2^63 or more, or a map of 2^62 or more, overflows a signed number in the source; the model reports it as an outcome of its own and says nothing of the state after it.
- CborFraming.ConsumeFindsItem: inputs below 2^63 bytes, the range of the signed size the source uses.
- CborRoundTrip.RoundTrip: values whose encoding and rest stay below 2^63 bytes; an enumeration is its underlying integer.
- CborEncodeStream.CborEncodeStream.PutCid: a CID is its bytes; the two CID classes are one case, and the special form of the first block's parents is not modelled.
- CborSound.DecodedIsProper: inputs below 2^63 bytes, and signed types of at most 64 bits.
- PaychAcceptance.AcceptsExactly: requires lanes and vouchers in order, which every operation keeps (`EveryRunKeepsOrder`).
- Blocksync.GetChain: requires a depth above 0, which the server checks before, and tipsets stored under their own key.
- BlocksyncRequest.ResponseAbortsExactly: the hash of a tipset key is total here; the source takes at most 254 CIDs, which it asserts, so tipsets, parent lists and requests of more blocks are not covered, on either side of the exchange.
- BlocksyncClient.CollectKeepsTipset: tickets and CIDs are numbers with their order; the hash of a tipset key is the multiset of its CIDs.
- BlocksyncRequestObject.StoreTipsetBundle: a message list is written as a whole; the inner nodes of the array it is kept in are not modelled.
- BlocksyncRequestObject.Request.StoreChain: a moved-from list of blocks is taken to be empty.
- ChainPath.ChainGetPath: requires a store in which parents are strictly lower than their children.
- Padding.GetRequiredPadding: requires a new length above 0, by which the source divides.
- AsyncAll.FiresOnce: requires at least one slot, which the source asserts; every slot callback runs at most once.
- Channels.DeliveryIsFifo: handlers do not call back into the channel and do not throw.
- Networking, libp2p, RPC, timers, logging and storage engines: input and output.
- JSON coding, CBOR annotations of structures, and the ordered map variant of the encode stream: field by field, or the same loop without the sort.
- HAMT and AMT, chain store and sync jobs, actors, proofs, wallets and signatures: rest on code that is only named here; their answers are parameters.
- `AsyncWaiter`, `skipNested`, CBOR token accessors and light readers: easy members beside the ones modelled.
- Uvarint decoding and data transfer requests with restart: the code does not determine a round trip.
- Liveness of payment channel funding beyond `EveryRequestIsServedUnlessStuck`: whether API calls come back is up to the node.
- Calls back into the payment channel maker from its own callbacks while it holds its lock.
