# Synchronised caches of the nxcomp proxies

An encoding proxy and a decoding proxy of nxcomp stand at the two ends of a slow link and carry X
protocol requests across it. Both keep caches, and only positions, differences and the fields that
vary cross the link. The two sides must never drift apart, and the X server must be told what the
client said. This project models that machinery, from single bits up to whole sessions, and proves
that it works, together with the caches, parsers and buffers beside it.

The main result is `Sessions.SessionArrives` (and `Proxy.NewProxiesArrive`, the same for the real
message classes and a new pair of proxies). Any number of channels are opened and closed as it goes
on; their frames share the stores, the prediction caches and the splits of the proxies. For every run
of requests, every choice the encoding side may make about cleaning, replacing and splitting, every
setting of the stores' switches and every contents of the write buffer, frame by frame, the decoding
side reads each frame exactly to its end, writes out for each request what the X server is to be told
by it, and ends with its stores and prediction caches in step. There is one exception, and the
theorem says exactly when it happens: a packet of a split without data. It needs a store whose split
switch is on. All stores of the sources leave that switch off, and `Proxy.UnsplitArrives` is the
theorem for the proxies as they are set: every session is read, without exception.

What the X server is told is stated of the bytes that are written out, with nothing applied to them:
each field holds what arrives of the field of the request, and so do the values behind the identity
(`Coherence.Presents`). Which requests come out byte for byte as the client sent them is a theorem of
its own (`Fidelity.UnharmedExactly`, in numbers `Losses.UnharmedRequests`). Which of the choices open
to it the encoding side takes is what the contract of `Encoding.EncodingChannel.HandleEncodeCached`
says.

## How it is built

- `Words`, `Buffers`, `BitCodec`: 32-bit arithmetic, fields of a request, the variable-length code.
- `SelfOrganising`, `Shifting`, `CharCache`, `IntCache`, `BlockCache`, `BlockCacheSet`: the caches
  that move entries in place, as classes over arrays, proved against one small specification.
- `ClientCache`, `Tokens`, `LockStep`, `Streams`, `CodeBuffers`: the prediction caches of a channel,
  the typed values that cross the link, and the loops that write and read them.
- `Messages`, `Classes`, `Fingerprints`, `Rebuilding`, `Parsing`, `Requests`: message classes as tables (the
  virtual methods of a store), the seven classes CreateGC, ChangeGC, ConfigureWindow, CopyArea,
  ChangeProperty, CreatePixmap and PutImage, what a checksum knows, what a hit restores, and the
  normalisation of requests in the buffer; in numbers of the X protocol, which requests are handled
  and which are one message to a cache.
- `Exchange`, `Arrivals`, `Coherence`: one request through one message store, on both sides.
- `Splits`, `Channel`, `Runs`, `Sessions`, `Proxy`: split requests, all items of a channel, the
  invariant over runs, frames and sessions of proxies, and the instance with the real classes.
- `Fidelity`, `Losses`: which requests come out unharmed, for any class and for each of the seven.
- `Ratings`, `MessageStore`, `Encoding`, `Decoding`, `Transfer`: the message store as a class with its ratings,
  sizes and table of checksums, and the methods of both sides of a channel that work on it. Their
  postconditions are the functions and predicates that the theorems above are about; `Transfer` puts
  the two sides together.
- `Framing`, `Pixels`, `EndPoint`, `Congestion`: framing of what a client sends, image unpacking,
  endpoint specifications, congestion control.

Two conventions. A checksum is represented by the bytes it is computed from, so that equal checksums
mean equal bytes. And a few definitions stand under a quantifier over a marker (`Looking`,
`Opening`) only so that the verifier does not unfold them where they are not needed.

## What was found

- Bits for which a code has no room are lost: the top three of an identifier, those of a mask that
  stand for no value, those of a value beyond its width. Unused bytes of a request come out as what
  the write buffer held before, and so does the padding of a request that is not cached.
  `Fidelity.UnharmedExactly` says exactly when a request comes out as it was, `Losses.UnharmedRequests`
  says it in numbers for each class (`IdentityFits` and `ValuesFit` hold the numbers), `Losses.StrayMaskBitLost` and `Losses.UnusedByteChanged` give
  requests that do not.
- `decodeCachedValue` checks a position with `>` where `>=` is needed: the position just behind the
  entries of a cache is read, as `Tokens.PositionRead` says exactly, and for a full cache that is
  memory behind the buffer. `Tokens.FreshCacheStrays` shows it at a stream that starts with a one;
  `LockStep.SentNeverStrays` shows that a sender of this program writes no such position.
- Splitting is switched off in every store (`PutImage.h:63`, `CreatePixmap.h:47`, `Message.h:79` and
  the like), so no request of this version is split. Switched on, it would not be safe for a request
  that is all identity: while a split is pending for a resource, `mustSplitMessage` has the next one
  split too, whatever its size, and `SplitStore::start` writes the two bytes of its pattern into data of
  no bytes. `Splits.OverrunsExactly` says for which requests, `Splits.SplitArrives` and
  `Sessions.FrameArrives` that it happens for these and no others, `Losses.SplitWithoutDataOverruns`
  gives the run. `Proxy.UnsplitArrives` says that it cannot happen as long as no store splits data
  parts.
- `findOrAdd` looks at the slot that a new message would take before it looks for the checksum. While
  that slot holds a locked message, a request is discarded even if its message is cached and could be
  hit: `Encoding.EncodingChannel.HandleEncodeCached` says for which requests.
- `ChannelEndPoint::setSpec` for a host and port 1 sets a flag that parsing contradicts, unless there
  is a default port: `EndPoint.RunAgreed` states the exact condition for every sequence of setters.
- The first message of a client with an unlikely length is framed by the reads: the messages depend on
  nothing but what the client sends exactly if that is steady (`Framing.ChunkingExactly`).
- The 32-bit checksum of a block is its exact sum for blocks of a length up to 528410 and no more:
  `BlockCache.ChecksumExact`.
- `MessageStore` starts with 6000 as the last position used, whatever its number of slots. The search
  for a slot ends all the same, because nothing is in the store as long as that is so.

## Model

| member | source | states |
|---|---|---|
| Words.LowOfDifference | nxcomp/src/Misc.cpp:480-515 | adding a masked difference to a masked old value gives the masked new value |
| Words.FromBitsOf | nxcomp/src/Misc.cpp:480-515 | writing bits and reading them back is masking |
| Words.BitsOfAt | nxcomp/src/EncodeBuffer.cpp:137-172 | the bits of a value are sent in ascending order: the one at index i counts 2 to the i |
| Buffers.ValueOfBytes | nxcomp/src/Misc.cpp:517-670 | what is stored in a field is loaded again, up to the room there is, in both byte orders |
| Buffers.GetIs | nxcomp/src/Misc.cpp:517-670 | what is loaded from one, two or four bytes in either byte order, in numbers |
| Buffers.GetPutAll | nxcomp/src/Misc.cpp:517-670 | fields written together and apart from each other are all read back |
| BitCodec.DecodeEncode | nxcomp/src/EncodeBuffer.cpp:131-225 | reading at the code of a value gives the value and stops just behind the code, whatever surrounds it |
| BitCodec.EncodeLength | nxcomp/src/EncodeBuffer.cpp:131-225 | a code costs at most three bits more than the plain value |
| BitCodec.EncodeIs | nxcomp/src/EncodeBuffer.cpp:131-225 | the code of a value in numbers: blocks of b, b / 2 and b / 4 bits, the last two of two bits at least, and the rest; a block ends the code as soon as all bits behind it equal its last one |
| BitCodec.CountZerosPadding | nxcomp/src/DecodeBuffer.cpp:337-457 | zeros that fill up a frame hold no further code |
| CodeBuffers.EncodeBuffer.EncodeValue | nxcomp/src/EncodeBuffer.cpp:131-225 | the loop over blocks writes the code of the value |
| CodeBuffers.EncodeBuffer.EncodeCachedValue | nxcomp/src/EncodeBuffer.cpp:227-300 | writes the position of a known value or the code of its difference, and steps the cache |
| CodeBuffers.EncodeBuffer.EncodeCachedChar | nxcomp/src/EncodeBuffer.cpp:302-366 | the same for bytes, which are masked first |
| CodeBuffers.EncodeBuffer.EncodeMemory | nxcomp/src/EncodeBuffer.cpp:368-440 | aligns the stream and writes whole bytes |
| CodeBuffers.DecodeBuffer.DecodeValue | nxcomp/src/DecodeBuffer.cpp:53-210 | the loop over blocks reads a value or runs into the end of the buffer, exactly where the specification does |
| CodeBuffers.DecodeBuffer.DecodeCachedValue | nxcomp/src/DecodeBuffer.cpp:212-335 | reads a position or a difference and steps the cache; aborts or strays exactly where the specification does; where it strays within the buffer, the unused element joins the entries and pushes the last one out |
| CodeBuffers.DecodeBuffer.DecodeCachedChar | nxcomp/src/DecodeBuffer.cpp:337-457 | the same for bytes; finds the end of a frame, and aborts in the middle of the zeros unless the end is allowed there |
| SelfOrganising.LockStep | nxcomp/src/BlockCacheSet.cpp:64-147 | over every run of values the side that looks up and the side that replays keep the same entries in the same order, every value is recovered and no two entries are equal |
| SelfOrganising.FrontProtected | nxcomp/src/CharCache.cpp:55-73 | no run of misses moves or drops one of the first two entries, or of the first half where the middle is the place to insert |
| SelfOrganising.FrontExact | nxcomp/src/BlockCacheSet.cpp:90-103 | the first miss displaces the third entry, or the first one of the second half: the bound is exact |
| SelfOrganising.MissLeaves | nxcomp/src/CharCache.cpp:55-73 | every entry after a miss: two entries or the first half stay, the new value follows, the others move up by one, the last of a full cache goes |
| SelfOrganising.HitsReachFront | nxcomp/src/CharCache.cpp:36-50 | an entry hit n times in a row is in front exactly when n has reached the integer part of log2 of its index, plus one |
| CharCache.CharCache.Lookup | nxcomp/src/CharCache.cpp:32-53 | finds the first entry with the value and moves it to half its index, or inserts the value |
| CharCache.CharCache.Insert | nxcomp/src/CharCache.cpp:55-73 | the first two entries stay, the value follows them, the others follow it, no more than seven in all |
| CharCache.CharCache.Get | nxcomp/src/CharCache.h:59-80 | gives an entry and moves it as the lookup does |
| IntCache.IntCache.Lookup | nxcomp/src/IntCache.cpp:48-124 | hit, miss, difference, predicted block size |
| IntCache.IntCache.Insert | nxcomp/src/IntCache.cpp:126-178 | recovers a missed value from its difference and records it behind two entries |
| IntCache.IntCache.Push | nxcomp/src/IntCache.cpp:180-215 | puts a value in front |
| IntCache.InsertFollowsLookup | nxcomp/src/IntCache.cpp:126-178 | after a miss the decoding cache has the value and the state of the encoding cache |
| IntCache.MissRecords | nxcomp/src/IntCache.cpp:88-121 | after a miss the cache knows the value, its difference from the last one missed and, unless that was the difference before, a new block size |
| Tokens.HitCodeIs | nxcomp/src/EncodeBuffer.cpp:255-275 | a cached value costs as many zeros as its position, with one more from position 2 on, and a one |
| Tokens.MissCodeIs | nxcomp/src/EncodeBuffer.cpp:282-299 | another value costs two zeros, a one and the code of its difference from the last one missed, with the block size predicted or asked for, whichever is less |
| Tokens.PredictionExact | nxcomp/src/IntCache.cpp:88-121 | the block size predicted from a difference is the least one, from two on, that leaves behind it only repetitions of its last bit |
| Tokens.PredictionServes | nxcomp/src/IntCache.cpp:88-121 | a difference coded with the block size that it predicts takes that block and one bit |
| Tokens.ByteBitsAre | nxcomp/src/EncodeBuffer.cpp:368-440 | whole bytes are sent with their highest bit first |
| Tokens.IntLockStep | nxcomp/src/DecodeBuffer.cpp:212-335 | a cached value is read as it was written and both caches take the same step |
| Tokens.CharLockStep | nxcomp/src/DecodeBuffer.cpp:337-457 | the same for bytes |
| Tokens.PositionRead | nxcomp/src/DecodeBuffer.cpp:310-332 | the code of any position: an entry is found exactly if there is one, the read strays exactly if the position is the number of entries, and aborts exactly if it is greater |
| Tokens.BytePositionRead | nxcomp/src/DecodeBuffer.cpp:432-454 | the same for bytes |
| Tokens.FreshCacheStrays | nxcomp/src/DecodeBuffer.cpp:317-317 | a stream that starts with a one makes a new cache stray |
| Tokens.SlottedFollows | nxcomp/src/EncodeBuffer.cpp:618-633 | behind an identifier or an action, the next one is coded as the difference from it, with the cache that its low byte chooses |
| Tokens.NewXidFollows | nxcomp/src/EncodeBuffer.cpp:580-616 | behind a new identifier, the next new one is coded as the difference from the one after it |
| Tokens.OpcodeFollows | nxcomp/src/EncodeBuffer.h:96-101 | behind an opcode, the next one is coded with the cache that it chooses |
| LockStep.SlottedArrives | nxcomp/src/DecodeBuffer.cpp:609-633 | an identifier, or an action and a position, arrives though the two sides remember different numbers of bits |
| LockStep.NewXidArrives | nxcomp/src/DecodeBuffer.cpp:576-607 | a new identifier arrives and is recorded by both sides |
| LockStep.SinceArrives | nxcomp/src/PutImage.cpp:187-196 | a coordinate sent as the difference from the last one arrives |
| LockStep.TokenArrives | nxcomp/src/EncodeBuffer.cpp:131-633 | every kind of value arrives, reduced to the bits of its code, and the prediction caches stay in step |
| LockStep.SentNeverStrays | nxcomp/src/DecodeBuffer.cpp:212-457 | nothing that a sender writes lets the read stray or abort |
| Streams.AllArrive | nxcomp/src/DecodeBuffer.cpp:53-633 | every run of values arrives, nothing is left over and nothing too much is read |
| Classes.ClassSound | nxcomp/src/ChannelCache.cpp:32-68 | each of the seven classes meets what coding relies on: layout, codes, updates, coverage, data part |
| Classes.CoveredAll | nxcomp/src/PutImage.cpp:291-357 | every identity field is in the fingerprint, is sent again on a hit, or is the length |
| Classes.SetBitsComplete | nxcomp/src/CreateGC.cpp:79-97 | every set bit of a mask has a value |
| Classes.SetBitsAscend | nxcomp/src/CreateGC.cpp:79-97 | values follow the order of the bits |
| Requests.HandledExactly | nxcomp/src/CreateGC.cpp:70-98 | for each class, in numbers of the X protocol: the opcode and size of exactly the requests that its store can handle |
| Requests.SameMessageExactly | nxcomp/src/CreateGC.cpp:141-150 | for each class: two requests are one message to a cache exactly if their data parts are equal, and their identities but for the listed fields, which a hit sends again |
| Requests.VaryingAre | nxcomp/src/PutImage.cpp:303-357 | for each class, the identity fields that a hit sends again |
| Fingerprints.ChecksumDetermines | nxcomp/src/Message.cpp:224-235 | equal checksums mean equal data parts and equal fingerprint fields |
| Fingerprints.SameFields | nxcomp/src/ChangeGC.cpp:139-184 | with equal checksums the fields that a hit does not send are equal |
| Fingerprints.HitRestores | nxcomp/src/PutImage.cpp:303-411 | after a hit the encoding side has the identity of the new request and the decoding side what it would have been sent of it in full, relative fields included |
| Rebuilding.RebuiltData | nxcomp/src/Channel.cpp:1140-1150 | a rebuilt request is parsed into the data part of the original |
| Rebuilding.RebuiltCanonical | nxcomp/src/ServerChannel.cpp:4417-4425 | a rebuilt request has in every field, as it stands in its bytes, what arrived of the original, and the body of the data part; so it has the same canonical form |
| Rebuilding.CanonicalTwice | nxcomp/src/ServerChannel.cpp:4417-4425 | the canonical form is one |
| Rebuilding.HeadExactly | nxcomp/src/CopyArea.cpp:75-101 | the identity part comes out as it was exactly if every field arrives whole and the write buffer held the unused bytes of the request |
| Rebuilding.BodyExactly | nxcomp/src/ServerChannel.cpp:2235-2262 | the values behind it come out as they were exactly if each has room in its code |
| Rebuilding.NormalisedTwice | nxcomp/src/CreateGC.cpp:70-98 | normalising is idempotent |
| Rebuilding.NormalisedEqualExactly | nxcomp/src/ConfigureWindow.cpp:69-95 | requests with the same identity become equal exactly if their values agree in every bit that is sent |
| Parsing.MaskWordsServe | nxcomp/src/CreateGC.cpp:79-97 | the loop over the mask leaves each value reduced to its width, in the order of the bits, and touches nothing else |
| Parsing.ParseCreateGC | nxcomp/src/CreateGC.cpp:51-106 | parsing normalises the buffer in place and gives the identity |
| Parsing.ParseChangeGC | nxcomp/src/ChangeGC.cpp:51-105 | the same for ChangeGC |
| Parsing.ParseConfigureWindow | nxcomp/src/ConfigureWindow.cpp:51-102 | the same for ConfigureWindow |
| Parsing.ParseChangeProperty | nxcomp/src/ChangeProperty.cpp:51-104 | the same for ChangeProperty, whose padding is cleared |
| Arrivals.CompressArrives | nxcomp/src/StaticCompressor.cpp:302-375 | a data part arrives, compressed or not, in the form that is kept |
| Arrivals.DataArrives | nxcomp/src/Channel.cpp:480-520 | the data part arrives for every setting of the switches |
| Coherence.ActionsArrive | nxcomp/src/Channel.cpp:955-990 | the decoding side replays exactly the removals and learns the decision |
| Exchange.RemovalChecked | nxcomp/src/Channel.cpp:955-990 | an action to remove empties the slot it names, or the request fails if there is no message |
| Exchange.DecisionChecked | nxcomp/src/Channel.cpp:990-1080 | any other action is a hit, an addition or a discard, by its top two bits, and leaves the slots alone |
| Exchange.PositionChecked | nxcomp/src/Channel.cpp:995-1060 | a hit of an empty slot fails, and so does any position beyond the slots |
| Coherence.HitArrives | nxcomp/src/Channel.cpp:1000-1060 | a hit is read and written out with the identity and the data part of the new request |
| Coherence.SavedCoherent | nxcomp/src/Channel.cpp:1092-1194 | what is saved is the counterpart of what the encoding side keeps |
| Coherence.RequestArrives | nxcomp/src/Channel.cpp:380-541 | one request from coherent stores, for every choice and setting: read exactly, decided alike, written out, stores coherent again |
| Fidelity.UnharmedExactly | nxcomp/src/Channel.cpp:380-541 | a decoded request is, byte for byte, the one that was encoded exactly if its values have room in their codes, the write buffer held its unused bytes, and its padding is clear, or for a discarded one what the write buffer held |
| Fidelity.CommittedExactly | nxcomp/src/Split.cpp:1657-1739 | the same for a request put together from packets |
| Splits.SplitArrives | nxcomp/src/Split.cpp:831-1012 | packets of any size put the data together, compressed or not, and both sides see it complete at the same packet; if and only if there is no data, the first packet writes past its end |
| Splits.OverrunsExactly | nxcomp/src/Split.cpp:790-802 | a request taken by a split has no data exactly if it is no hit and no longer than its identity |
| Splits.SentAfter | nxcomp/src/Split.cpp:502-620 | each packet but the last carries as many bytes as its limit allows |
| Runs.ExpandedPresents | nxcomp/src/Split.cpp:1657-1739 | a committed split is written out with what arrives of the request it was made for in every field and value |
| Runs.UnlockedCoherent | nxcomp/src/Split.cpp:1741-1797 | a message that a split completes is coherent again |
| Runs.RequestHandled | nxcomp/src/Channel.cpp:157-378 | a request keeps the invariant, split or not, with data or without, and what is written out has what arrives of it in every field and value |
| Runs.DataHandled | nxcomp/src/ServerChannel.cpp:4647-4810 | a packet keeps the invariant, unless its split has no data: then memory is written past its end |
| Runs.CommitHandled | nxcomp/src/ServerChannel.cpp:5037-5154 | a commit keeps the invariant and writes out the request |
| Sessions.ItemArrives | nxcomp/src/ServerChannel.cpp:2083-2113 | the next item is read as it was written and leads to what is expected of it, or overruns, exactly if it is a packet of a split without data |
| Sessions.FrameArrives | nxcomp/src/ServerChannel.cpp:2083-4464 | a frame is read exactly to its end, and every item leads to what is expected of it; or it overruns, exactly if an item does |
| Sessions.EventArrives | nxcomp/src/Proxy.cpp:1105-1180 | one event of any channel keeps the proxies linked |
| Sessions.SessionArrives | nxcomp/src/Channel.cpp:543-1090 | over whole sessions of any number of channels the proxies agree and every request reaches the X server as it was meant; or the session overruns, exactly if a packet of a split without data is sent |
| Sessions.FreshLinked | nxcomp/src/Proxy.cpp:235-257 | a new pair of proxies starts in agreement |
| Sessions.LinkedServing | nxcomp/src/ClientProxy.cpp:293-309 | proxies that agree do so for every channel, whatever its own state is |
| Sessions.HitsAreServed | nxcomp/src/Channel.cpp:746-790 | a hit names a message that the decoding side has, unlocked and with its data |
| Proxy.NewProxiesArrive | nxcomp/src/Channel.cpp:157-541 | the session theorem for the real classes and a new pair of proxies |
| Proxy.UnsplitArrives | nxcomp/src/PutImage.cpp:60-71 | with the split switches as they are set, every session of a new pair of proxies is read and leads to what is expected of it, without exception |
| Losses.IdentityRoom | nxcomp/src/ClientChannel.cpp:814-890 | for each class, which identities arrive whole |
| Losses.ValuesRoom | nxcomp/src/ChannelCache.cpp:32-68 | for each class, which values behind the identity arrive whole: those of each field of a GC and of ConfigureWindow below a bound given in numbers, all of the others |
| Losses.ValuesPresented | nxcomp/src/ClientChannel.cpp:872-885 | what tells the X server a request has the values behind the identity as the client sent them, byte for byte, exactly if each is within its bound |
| Losses.IdentityPresented | nxcomp/src/ClientChannel.cpp:814-890 | and it has the identity of the request exactly if that is within the bounds of its class |
| Losses.UnusedAre | nxcomp/src/PutImage.cpp:244-272 | for each class, the unused bytes |
| Losses.UnharmedRequests | nxcomp/src/ClientChannel.cpp:814-890 | for each class, which requests come out as they were |
| Losses.SplitWithoutDataOverruns | nxcomp/src/ClientChannel.h:218-222 | with a split switch on, which no store of the sources has: a run in which a request without data is taken by a split, while another one is pending, and overruns |
| Losses.EmptyImageGood | nxcomp/src/PutImage.cpp:198-242 | an image request of 24 bytes is such a request |
| Losses.StrayMaskBitLost | nxcomp/src/ClientChannel.cpp:863-868 | a mask with bit 23 set and no values is written out as 0 |
| Losses.UnusedByteChanged | nxcomp/src/ServerChannel.cpp:2443-2474 | the unused byte of a CopyArea request is written out as what the write buffer held |
| Ratings.CoherentSizes | nxcomp/src/Message.cpp:2279-2321 | each side's idea of the other's storage size is right |
| Ratings.MessageCosts | nxcomp/src/Message.cpp:2279-2321 | what a message costs either side, in numbers |
| Ratings.FullExactly | nxcomp/src/Message.cpp:1454-1456 | the table of checksums is as large as the store exactly if no slot is free |
| Ratings.IndexFinds | nxcomp/src/Message.cpp:760-860 | a checksum is in the table exactly when a message with it is in the store |
| Ratings.ChecksumsUnique | nxcomp/src/Message.cpp:760-860 | no two messages have the same checksum |
| MessageStore.MessageStore.Clean | nxcomp/src/Message.cpp:565-648 | gives the first message behind the last one removed that can go, else the next slot if nobody holds its message, else nothing; the messages passed over lose hits, but not below 0, and nothing else changes |
| MessageStore.CleansWhat | nxcomp/src/Message.cpp:1442-1522 | what goes was held by nobody and was hit no more than a loaded message counts, or never, or was not used for the time limit; or no message but the last one looked at could go so |
| MessageStore.MessageStore.FindSlot | nxcomp/src/Message.cpp:690-765 | gives the slot of an earlier search, or the first one behind the last position used that is free or can be replaced, or the next one; the messages passed over lose hits |
| MessageStore.ChoosesWhat | nxcomp/src/Message.cpp:1442-1522 | a new message takes a free slot, or that of a message held by nobody and never hit, or in a full store hit no more than a loaded message counts; or there is no such slot but the last one used |
| MessageStore.MessageStore.Touch | nxcomp/src/Message.cpp:1524-1542 | a hit is dated and counts, up to the limit; nothing else changes |
| MessageStore.MessageStore.FindOrAdd | nxcomp/src/Message.cpp:657-994 | gives nothing exactly if somebody holds the message in the slot that was chosen; otherwise adds to that slot exactly if no message has the checksum, and gives the message that has it if there is one |
| MessageStore.MessageStore.Remove | nxcomp/src/Message.cpp:1305-1432 | empties a slot; sizes and checksums follow |
| MessageStore.MessageStore.Add | nxcomp/src/Message.cpp:1003-1095 | puts a message into a slot of the decoding side |
| MessageStore.MessageStore.UpdateData | nxcomp/src/Message.cpp:1103-1160 | records a compressed size, unless it is 0, and accounts for it |
| Encoding.CleanedStore | nxcomp/src/Channel.h:496-514 | where the cleaning loop ends by its condition, the store keeps to its share on both sides, and either all stores keep to their totals or this one to its lower share |
| Encoding.OverIs | nxcomp/src/Channel.h:496-514 | the condition of the cleaning loop, in numbers |
| Encoding.NormalisedSame | nxcomp/src/Message.cpp:207-244 | normalising changes nothing that the stores know, and neither what counts as telling the X server the request |
| Encoding.EncodingChannel.CleanStore | nxcomp/src/Channel.cpp:573-634 | the loop ends; what it removed is what clean gave, round by round, while the store was over its limits; each removal is told exactly once, and the store keeps to its share unless nothing could be removed |
| Encoding.EncodingChannel.HandleEncodeCached | nxcomp/src/Channel.cpp:543-876 | with caching on and the size within bounds, a request is hit exactly if a message that nobody holds has its checksum, added to the slot that was chosen exactly if no message has it, discarded otherwise, and in any case if the message in that slot is held; what is removed before is what the cleaning removes; what is written and what becomes of the store follow from that |
| Encoding.AddedThenHit | nxcomp/src/Channel.cpp:823-870 | a request that was added is hit when it comes again, unless its message was removed or the slot of a new message is held |
| Encoding.EncodingChannel.HandleEncode | nxcomp/src/Channel.cpp:157-378 | writes exactly the tokens of the request and leaves exactly the slots that the theorems are about, with the removals and the decision of handleEncodeCached |
| Encoding.EncodingChannel.UpdateCommitted | nxcomp/src/Split.cpp:1741-1797 | a message completed by a split gets its size and is unlocked |
| Decoding.DecodingChannel.HandleActions | nxcomp/src/Channel.cpp:955-990 | the loop over removals |
| Decoding.DecodingChannel.HandleDecode | nxcomp/src/Channel.cpp:380-541 | does to the store and the stream what the decoding function says, and aborts when it does |
| Decoding.DecodingChannel.UpdateCommitted | nxcomp/src/Split.cpp:1741-1797 | the same at the decoding side, where it gets its data |
| Transfer.Carry | nxcomp/src/Channel.cpp:157-541 | two stores that hold counterparts do so again after a request was encoded, with the removals and the decision that the store asks for, carried and decoded, and it is told to the X server |
| Transfer.Commit | nxcomp/src/Split.cpp:1741-1797 | and after a split was committed |
| BlockCache.ChecksumOf | nxcomp/src/BlockCache.cpp:67-81 | the loop computes the shifted sum in 32-bit arithmetic |
| BlockCache.ChecksumExact | nxcomp/src/BlockCache.cpp:67-81 | the sum is exact for all blocks of a length if and only if the length is at most 528410 |
| BlockCache.BlockCache.Compare | nxcomp/src/BlockCache.cpp:34-51 | compares byte by byte and overwrites on demand |
| BlockCache.BlockCache.Set | nxcomp/src/BlockCache.cpp:54-64 | takes over the data; the buffer is large enough and the checksum right |
| BlockCacheSet.BlockCacheSet.Search | nxcomp/src/BlockCacheSet.cpp:68-72 | the search filtered by checksums finds the index that a plain search finds |
| BlockCacheSet.BlockCacheSet.Lookup | nxcomp/src/BlockCacheSet.cpp:64-105 | a block found moves to half its index, another one is inserted in the middle; the blocks are a permutation of themselves, each with a buffer of its own |
| BlockCacheSet.BlockCacheSet.Get | nxcomp/src/BlockCacheSet.cpp:108-126 | gives a block and moves it as the lookup does |
| BlockCacheSet.BlockCacheSet.Set | nxcomp/src/BlockCacheSet.cpp:130-147 | the first half of the blocks stays, the new one follows, the others follow it, none in excess of the capacity; the block objects are a permutation of themselves |
| Framing.ClientReadBuffer.LocateMessage | nxcomp/src/ClientReadBuffer.cpp:58-178 | a request takes four times the number in its bytes 2 and 3, a setup twelve bytes and the lengths in bytes 6 to 9, filled up to whole words; what is missing is noted |
| Framing.ClientReadBuffer.ReadMessages | nxcomp/src/ClientReadBuffer.cpp:58-178 | a read gives all complete messages and leaves the rest |
| Framing.RequestsFound | nxcomp/src/ClientReadBuffer.cpp:130-141 | requests as long as their length field tells in words of four bytes are found as they were sent, and an incomplete one stays |
| Framing.ClientFramed | nxcomp/src/ClientReadBuffer.cpp:58-178 | a setup of up to 4096 bytes and the requests behind it are found as they were sent, however their bytes are cut into reads |
| Framing.UnlikelyPassed | nxcomp/src/ClientReadBuffer.cpp:99-108 | a first message that tells more than 4096 bytes is passed on with whatever was read of it |
| Framing.WellFormedSized | nxcomp/src/ClientReadBuffer.cpp:130-141 | every request that a store can handle is one of those |
| Framing.ChunksDoNotMatter | nxcomp/src/ClientReadBuffer.cpp:58-178 | however a steady stream is cut into reads, the same messages are found |
| Framing.ChunksMatter | nxcomp/src/ClientReadBuffer.cpp:99-108 | a setup that tells an unlikely length and is longer than its header is found where the reads put it |
| Framing.ChunkingExactly | nxcomp/src/ClientReadBuffer.cpp:58-178 | the messages depend on nothing but the stream if and only if it is steady |
| Framing.NothingLost | nxcomp/src/ClientReadBuffer.cpp:58-178 | the messages and the rest are the stream |
| Framing.MessagesLong | nxcomp/src/ClientReadBuffer.cpp:130-141 | every message has four bytes at least |
| Framing.RemainingExact | nxcomp/src/ClientReadBuffer.cpp:39-56 | no shorter read completes a message, and once the header is there the one asked for does |
| Pixels.UnpackBitmap | nxcomp/src/Bitmap.cpp:38-119 | each colour byte goes to its place, the fourth bytes stay, sizes that do not match are refused |
| Pixels.UnpackAlpha | nxcomp/src/Alpha.cpp:108-138 | each alpha value goes to the fourth byte of its pixel, nothing else changes |
| Pixels.ImageFilled | nxcomp/src/Alpha.cpp:108-138 | with the same byte order the two fill the image completely |
| Pixels.OtherOrderLosesColour | nxcomp/src/Alpha.cpp:126-135 | with another byte order a colour is lost and a byte is left |
| EndPoint.NumberPrinted | nxcomp/src/ChannelEndPoint.cpp:192-204 | a printed port is read back |
| EndPoint.SignRead | nxcomp/src/ChannelEndPoint.cpp:192-204 | a sign counts |
| EndPoint.SpaceSkipped | nxcomp/src/ChannelEndPoint.cpp:192-204 | leading white space does not |
| EndPoint.RestRefused | nxcomp/src/ChannelEndPoint.cpp:192-204 | nothing may follow the digits, and there must be some |
| EndPoint.DecimalBy | nxcomp/src/ChannelEndPoint.cpp:192-204 | a digit behind a number counts ones, and the number counts tens |
| EndPoint.Spelt | nxcomp/src/ChannelEndPoint.cpp:113-164 | how specifications are spelt |
| EndPoint.AddressPrinted | nxcomp/src/ChannelEndPoint.cpp:270-314 | a printed address is parsed into the host and the port, colons in the host or not |
| EndPoint.PathPrinted | nxcomp/src/ChannelEndPoint.cpp:207-236 | a printed path is parsed into the path |
| EndPoint.DefaultsServe | nxcomp/src/ChannelEndPoint.cpp:207-314 | a specification without a port, or without a path, stands for the default one |
| EndPoint.SpecIdempotent | nxcomp/src/ChannelEndPoint.cpp:113-164 | printing what was parsed from a printed specification gives it again |
| EndPoint.RunAgreed | nxcomp/src/ChannelEndPoint.cpp:64-111 | over every sequence of setters the Unix flag is right, and both are exactly if the last setter that has to do with the TCP flag was not a host with port 1 without a default port |
| EndPoint.ChannelEndPoint.SetSpecHost | nxcomp/src/ChannelEndPoint.cpp:94-111 | the flags agree with parsing exactly if the port is not 1 or has a default |
| EndPoint.ChannelEndPoint.SetSpecPort | nxcomp/src/ChannelEndPoint.cpp:82-92 | a port from 2 on is parsed back, one below 1 disables the endpoint |
| EndPoint.ChannelEndPoint.GetSpec | nxcomp/src/ChannelEndPoint.cpp:113-164 | printing by the flag is printing by what was parsed |
| Congestion.CodesAlternate | nxcomp/src/Channel.cpp:1395-1472 | over every run the codes alternate and the last one tells the state |
| Congestion.Channel.HandleCongestion | nxcomp/src/Channel.cpp:1395-1472 | a code is issued exactly when the state changes, and noted even when sending fails |

## Left out

- The prediction caches of a proxy are values where whole streams are concerned: there are hundreds of them, and the classes IntCache and CharCache are proved equal to these values one by one.
- What a read that strays finds behind a full cache, and what follows once memory was read or written past its end: the model stops there.
- XidCache, ActionCache, OpcodeCache and FreeCache are values in the same way; their updates are those of the tokens that use them.
- The split and commit stores are sequences of values; the lists of all resources are one list, of which a resource uses the entries with its number.
- Messages are stored in the array of a store by value, so the aliasing of a cached message and the recycling of temporary ones are not modelled.
- Packing bits into bytes and growing the encode buffer: a frame is the sequence of its bits, and the byte behind it is part of the zeros that fill it.
- The persistent image cache: no checksum is sent with a split, and no split is found on disk.
- Aborting and finishing splits at the agent's request, and the thresholds by which a split is refused: any answer of the split store is allowed.
- Control codes other than those that open and close a channel, and frames that are not yet complete.
- Requests that are not well formed: formats of a property other than 8, 16 and 32, lengths that do not fit the identity, and BIG-REQUESTS.
- Channels of different byte order that share a store.
- ClearArea and the other message classes: they would add tables of the same kind.
- Compression is a pair of functions with an inverse law; an error of the library ends the connection in the sources.
- Loading and saving stores, taint and packed-image handling, the image handling behind a decoded PutImage.
- Sockets, timeouts, alerts, process control and logging.
- setDefaultTCPInterface: it chooses between two spellings of the local host on Windows only.
