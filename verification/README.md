# libcornrow: a verified model of its codecs, filters and protocols

This project models the parts of libcornrow whose correctness is not visible from one function,
and proves what they do for every input, every run or every reachable state.

- **ALAC decoding** (`Arith`, `Bits`, `BitReader`, `Rice*`, `Predictor`, `Interlace`, `Alac*`).
  The decoder's four layers are written in the source's form: the bit reader as a byte pointer with
  an accumulator, the adaptive Rice decoder, the sign-adaptive predictor with its sliding base
  pointer, and the de-interlacing loops. Each method is proved equal to a function on bit strings
  and sample sequences. The format is lossless, so a mirror encoder is defined for every layer
  (`RiceEncoder`, `Predictor.Residuals`, `Interlace.Mix`, `AlacEncoder`, `AlacMono`), and the main theorem is
  that the decoder restores, sample by sample and byte by byte, what the encoder wrote. Where its
  arithmetic, which wraps around at 32 bits, does not allow it, the exact conditions are proved.
- **IL client events and buffers** (`EventPool`, `IlClient`, `IlWaiting`, `BufferQueue`, `Sequences`). The pool of 100 event
  records is a state machine whose actions are the lock-held sections. Conservation, separation of
  the lists and near-uniqueness hold after any interleaving; the linked-list code (a record pointer
  is an index into the array that holds the records) is proved to perform the actions.
- **Biquad filters** (`Biquad`, `BiquadDesign`, `BiquadDecay`, `BiquadCascade`, `BiquadUnstable`,
  `BiquadResponse`, `BiquadProcess`, `Strided`). The strided in-place loops are proved equal to the cascade, and
  the coefficient formulas stable under an exact condition. Signals that die out at the input of a stable
  cascade die out at its output, and the gains of the filter types are proved over runs of any length.
- **Re-chunking** (`Rechunk`), **source arbitration** (`SourceSelector`), **Base64** (`Base64`, section 4 of
  RFC 4648) and the **processing buffer** (`ByteBuffer`).

`dafny verify dfyconfig.toml` checks the project.

## How the source is rendered

- Shifts and masks are multiplications, divisions and remainders by powers of two; `/` and `%` with a
  positive divisor round down, as an arithmetic right shift does. A mask of the form 2^j - 1 is given
  by j. Bytes are numbers from 0 to 255, most significant bit first in a stream.
- 32-bit arithmetic wraps around everywhere, as on the machines the program is built for. Where that
  can take effect it is written out: the product and the sum of the history, the predictor's sum and
  the product of the de-interlacing (`Wrap32`), the predictor's coefficients and the 16-bit samples
  (`Wrap16`), the sample count and the size of a frame, the `size_t` subtraction in `acquire`. Larger
  intermediate values are truncated later in the source by an operation that gives the same result.
- The spec functions of the decoder return an optional value. None marks streams on which the
  source would read or write outside its buffers, shift by an impossible amount, or take the Rice
  parameter of a zero run from a history that is not positive; the methods require that the stream
  is not one of these. `readbits_16` always loads three bytes, hence the two padding bytes in
  `RiceEncoder.Padded`.
- Sine, cosine, amplitude and its root enter the filter design as real numbers with their defining
  identities; samples and histories are real numbers.
- A semaphore-protected section is one step. Waiting, event flags, callbacks into the application and
  log output are not part of the model.

Some intentions do not hold without a condition, and the model follows the code:

- The decoder is lossless only while `history * rice_historymult` does not wrap around and the
  weighted 24-bit product loses nothing visible. `RiceHistory.FitsExactly`,
  `AlacLimits.ChannelExactly`, `AlacLimits.MonoRestoredExactly`, `AlacLimits.FramesRestoredExactly`,
  `Interlace.MixExactly` and `AlacEncoder.LosslessExactly` give the exact conditions.
- `acquire` rounds the start of the room up by `end % 4` and subtracts sizes unsigned, so the room
  lies in the store only under the condition of `ByteBuffer.AcquireExactly`.
- The selector starts every ready source, so exclusivity needs the condition of
  `SourceSelector.StepExclusive`.
- A blocking get keeps its predecessor pointer between passes, which can leave a buffer in the list
  that was handed out; `BufferQueue.FifoExactly` says exactly when the ports stay queues.
- Filters at or above half the rate are accepted; `BiquadDesign.StableExactly` and
  `BiquadUnstable.FadesExactly` say which of them die out.
- Unpadded Base64 text is encoded but not always decoded back; see `Base64.DecodeUnpadded`.

## Model

| member | source | states |
|---|---|---|
| `BitReader.Reader.ReadBits16` | src/airplay/alac.c:139-168 | at position 8*pointer + accumulator the next 1 to 16 bits are returned as a big-endian number, the position advances by that many and the accumulator stays in 0..7 |
| `BitReader.Reader.ReadBits` | src/airplay/alac.c:171-184 | the same for 1 to 32 bits |
| `BitReader.Reader.ReadBit` | src/airplay/alac.c:187-205 | the next bit of the stream is returned and the position advances by one |
| `BitReader.Reader.UnreadBits` | src/airplay/alac.c:207-216 | moves the position back by any number of bits, across byte borders |
| `BitReader.ReadSplit` | src/airplay/alac.c:170-184 | reading a+b bits gives the value of reading a bits and then b bits |
| `BitReader.ReadWindow` | src/airplay/alac.c:144-157 | load three bytes, shift left, mask, shift right yields exactly the wanted bits |
| `BitReader.PaddingExactly` | src/airplay/alac.c:144-146 | the three-byte load stays inside the input at all positions of a stream if and only if two whole bytes follow the byte of its last bit |
| `Rice.SampleK` | src/airplay/alac.c:373-376 | for every history in its bound the Rice parameter lies in 1..min(16, k-modifier), for every other 32-bit history in 1..22, and the counted number is not zero |
| `Rice.RunK` | src/airplay/alac.c:405-405 | the parameter of a zero run lies in 2..7 for histories 1..127 |
| `RiceCode.SampleKThresholds` | src/airplay/alac.c:373-376 | the parameter of a sample is at least j, up to the k-modifier, if and only if the history is at least 512 * (2^j - 3) |
| `RiceCode.RunKIntervals` | src/airplay/alac.c:405-405 | the parameter of a zero run on each of the nine intervals of histories 1..127 |
| `RiceCode.HistoryMoves` | src/airplay/alac.c:391-396 | while the product fits, the history moves by the multiplier's share of the way to 512 times the value, rounded up to a 512th; a value of more than sixteen bits sets it to 2^16 - 1 |
| `RiceCode.FactorBits` | src/airplay/alac.c:343-343 | bit j of the quotient's factor is set if and only if j is below the parameter and below the width of the mask |
| `Rice.DecodeValue` | src/airplay/alac.c:311-353 | a decoded value fits the raw size or nine times the short-code range, and decoding never moves backwards |
| `RiceCode.EscapeRaw` | src/airplay/alac.c:318-334 | behind nine set bits the value is the raw number in the next bits |
| `RiceCode.CanonicalExactly` | src/airplay/alac.c:311-353 | on every bit stream, with a full mask, what the decoder reads is the code the encoder writes for the value if and only if one of the first nine bits is not set or the value is at least 9 * (2^k - 1): no value has two short codes and no short code is redundant |
| `Rice.NextHistory` | src/airplay/alac.c:391-396 | the update in 32-bit arithmetic stays a 32-bit number |
| `Rice.NextIsIdeal` | src/airplay/alac.c:391-396 | while the product of history and multiplier fits 32 bits, the update is the one that is meant |
| `Rice.IdealHistory` | src/airplay/alac.c:391-396 | the update as it is meant keeps the history in 0..2^25-1, and positive when it was or when the value is |
| `Rice.SmallStays` | src/airplay/alac.c:391-396 | a multiplier of at most 64 keeps the product in 32 bits and the history in its bound, in every state that any stream leads to |
| `Rice.RunFits16` | src/airplay/alac.c:407-418 | on every bit stream a zero-run length has at most 16 bits |
| `Rice.Step` | src/airplay/alac.c:367-422 | every turn on every stream keeps the invariant, or is undefined in the source: 32-bit history, sign modifier 0 or 1; with a multiplier of at most 64 also the history bound, and zero only with sign modifier 1; output only grows |
| `Rice.AfterTurns` | src/airplay/alac.c:364-422 | after any number of turns on any stream the invariants hold, and with a multiplier of at most 64 the product fits 32 bits |
| `RiceDecoder.EntropyDecodeValue` | src/airplay/alac.c:311-353 | the loop with prefix, escape and one-bit unread computes DecodeValue and leaves the reader behind it |
| `RiceDecoder.EntropyRiceDecode` | src/airplay/alac.c:355-423 | the decoder fills its buffer with exactly the decoded residuals, keeps the rest and stops at the decoded position |
| `RiceEncoder.DecodeEncoded` | src/airplay/alac.c:311-353 | every value that fits its raw size is decoded from its code, short or escaped, with exactly its bits consumed |
| `RiceEncoder.RoundTrip` | src/airplay/alac.c:355-423 | where the multiplier fits, from every loop state that values of this size reach, every residual sequence of up to 65536 values that fit is restored exactly and exactly its code is consumed |
| `RiceEncoder.StaysReached` | src/airplay/alac.c:391-396 | where multiplier times value range is at most 2^22, every value that fits keeps the product of history and multiplier in 32 bits |
| `RiceHistory.Approach` | src/airplay/alac.c:391-393 | one value takes the share multiplier/512 of the distance between the history and its balance point, rounded up |
| `RiceHistory.Balanced` | src/airplay/alac.c:391-393 | for multipliers of at least 64, 54 equal values bring the history to within one part in 512 of the balance point, from any history |
| `RiceHistory.StuckStays` | src/airplay/alac.c:391-396 | once the product has wrapped into its second range, zeros no longer bring the decoder's history down |
| `RiceHistory.SilentCode` | src/airplay/alac.c:355-423 | there are residual sequences of every length whose code has no set bit |
| `RiceHistory.StuckDecodes` | src/airplay/alac.c:355-423 | a decoder in that state reads nothing but zeros from a stream without set bits, or reads behind its end |
| `RiceHistory.Breaks` | src/airplay/alac.c:355-423 | for every multiplier that does not fit, some sequence of at most 164 16-bit residuals is not restored, wherever its code lies in front of silence |
| `RiceHistory.FitsExactly` | src/airplay/alac.c:355-423 | all residual sequences of the sample size, with any limit on their length from 164 on, are restored from their codes if and only if multiplier times value range is at most 2^22 |
| `RiceHistory.FitsIs64` | src/airplay/alac.c:391-393 | for values of 16 bits and more that means a multiplier of at most 64 |
| `Predictor.AdaptLoop` | src/airplay/alac.c:524-561 | the downward scan over the coefficients, for either sign, computes the adaptation function on the table |
| `Predictor.PredictRounds` | src/airplay/alac.c:505-523 | the prediction is the sum of the taps weighted with the table, divided by 2^q and rounded to the nearest number, on top of the base sample; modulo 2^32, and exactly if and only if the sum fits |
| `Predictor.AdaptReaches` | src/airplay/alac.c:524-561 | which coefficients adaptation changes, and how: from the oldest tap on, those in front of which the taps have not taken the whole residual, each by one along its tap and the residual |
| `Predictor.PredictOne` | src/airplay/alac.c:503-565 | one turn relative to the moving base pointer is one step of the absolutely indexed recurrence |
| `Predictor.FirAdapt` | src/airplay/alac.c:432-570 | for every order 0..31 the in-place decoder computes the recurrence, samples and coefficient table, and leaves the rest of its arrays |
| `Predictor.ExtendInverts` | src/airplay/alac.c:500-568 | the decoder follows the encoder sample by sample with equal coefficient tables |
| `Predictor.RoundTrip` | src/airplay/alac.c:432-570 | for every order and every sample sequence in range the samples are rebuilt from residuals reduced modulo 2^n, with the encoder's final table |
| `Predictor.RebuiltInverts` | src/airplay/alac.c:432-570 | decoding is onto: for every order and table, every residual sequence in range is that of some samples in range |
| `Predictor.DecodeDiffers` | src/airplay/alac.c:432-570 | decoding is one to one: other residuals in range give other samples |
| `Predictor.AdaptsTowards` | src/airplay/alac.c:524-561 | adaptation moves the weighted sum of the taps in the direction of the residual: the new table weighs the taps no less than the old one after a positive residual and no more after a negative one, with no coefficient at an end of the 16-bit range |
| `Predictor.NextTowards` | src/airplay/alac.c:503-565 | the same for one decoded sample, and a zero residual leaves the table as it was |
| `Predictor.PredictionTowards` | src/airplay/alac.c:503-565 | where the sums fit, the adapted table predicts no less after a positive residual and no more after a negative one |
| `Arith.SignExtendResidual` | src/airplay/alac.c:425-425 | prediction plus the truncated difference truncates to the value |
| `Interlace.Deinterlace16` | src/airplay/alac.c:572-629 | the output is the old output with every unmixed 16-bit frame stored in its place |
| `Interlace.Deinterlace24` | src/airplay/alac.c:631-707 | the same for 24-bit frames with uncompressed low bytes, as little-endian triples, the weighted product truncated to 32 bits |
| `Interlace.Unmix16Inverts` | src/airplay/alac.c:583-605 | weighted or plain, de-interlacing restores left and right from the encoder's pair, the 32-bit product included |
| `Interlace.ShareLoss` | src/airplay/alac.c:654-655 | truncating the product to 32 bits changes the share by -1, 0 or 1 times 2^(32-shift), and by 0 exactly if the product fits |
| `Interlace.Unmix24Exactly` | src/airplay/alac.c:643-703 | the stored bytes of a 24-bit frame are those of its samples if and only if the product fits, the shift is at most 8, or the frame is plain |
| `Interlace.MixExactly` | src/airplay/alac.c:643-703 | a shift and a weight restore all 24-bit samples if and only if the weight is at most 128, the shift at most 8, or low bytes are kept aside |
| `Interlace.WeightedLoss` | src/airplay/alac.c:654-655 | a loud pair whose right sample comes out as zero |
| `Interlace.MixInRange` | src/airplay/alac.c:942-952 | with a weight of at most one the mixed values need one bit more than the samples |
| `Interlace.LayoutPlaces` | src/airplay/alac.c:603-605 | every frame lies at its interleaved place |
| `Interlace.LayoutKeeps` | src/airplay/alac.c:603-605 | bytes between and behind the frames are untouched |
| `Interlace.LayoutInjective` | src/airplay/alac.c:603-605 | different frames leave different outputs |
| `Interlace.StoreMono` | src/airplay/alac.c:857-891 | the output loops of a mono frame store every sample in the place of its first channel |
| `Interlace.SampleFromBytes` | src/airplay/alac.c:668-674 | the stored bytes determine the sample |
| `AlacFile.Decoder.constructor` | src/airplay/alac.c:77-87 | the decoder starts with its buffers allocated and separate |
| `AlacFile.Decoder.ReadHeader` | src/airplay/alac.c:915-934 | the header fields are those of the bit string |
| `AlacFile.ReadChannel` | src/airplay/alac.c:955-965 | a channel's parameters and coefficient table are those of the bit string |
| `AlacFile.DecodeInto` | src/airplay/alac.c:991-1014 | entropy decoding followed by prediction leaves both buffers as the channel function says |
| `AlacFrame.OtherTypes` | src/airplay/alac.c:1001-1014 | a channel of another prediction type is entropy decoded and its samples stay as they were |
| `AlacFrame.OtherTags` | src/airplay/alac.c:709-725 | frames that are neither mono nor stereo change nothing and report the size of a full frame |
| `AlacFile.Decoder.DecodeCompressedFrame` | src/airplay/alac.c:938-1040 | the compressed branch leaves all six buffers, the shift and the weight as specified |
| `AlacFile.Decoder.DecodeRawFrame` | src/airplay/alac.c:1041-1084 | the uncompressed branch leaves the sample buffers as specified |
| `AlacFile.Decoder.DecodeStereoFrame` | src/airplay/alac.c:901-1122 | header, branch and output stage of a stereo frame computed in this order |
| `AlacFile.Decoder.DecodeCompressedMonoFrame` | src/airplay/alac.c:758-822 | the compressed branch of a mono frame leaves the buffers as specified |
| `AlacFile.Decoder.DecodeRawMonoFrame` | src/airplay/alac.c:823-855 | the uncompressed branch of a mono frame leaves the sample buffer as specified |
| `AlacFile.Decoder.DecodeMonoFrame` | src/airplay/alac.c:726-899 | header, branch and output stage of a mono frame computed in this order |
| `AlacFile.Decoder.DecodeFrame` | src/airplay/alac.c:709-1124 | on every stream for which the frame function is defined, mono, stereo or with another tag, the buffers, the output and the reported size are those of the function |
| `AlacEncoder.ChannelTrip` | src/airplay/alac.c:991-1014 | where the multiplier fits, a channel's samples are restored whatever the buffers held before |
| `AlacEncoder.LosslessFrame` | src/airplay/alac.c:901-1122 | every compressed stereo frame, 16-bit or 24-bit with 0 to 2 uncompressed bytes, any orders, tables and weights, whose multipliers fit and whose weighted products lose nothing visible, is restored exactly with its output size |
| `AlacEncoder.LosslessExactly` | src/airplay/alac.c:901-1122 | a frame that the entropy decoder gets through is restored if and only if the shift is below 32 and no weighted product loses stored bits, or the frame is plain |
| `AlacLimits.ChannelExactly` | src/airplay/alac.c:991-1014 | with every predictor table, a channel's samples, with any limit on their length from 164 on, are all restored if and only if the multiplier fits |
| `AlacLimits.FramesRestoredExactly` | src/airplay/alac.c:901-1122 | unweighted stereo frames without predictor tables, with any such limit, are all restored from their bytes if and only if the multiplier of both channels fits |
| `AlacLimits.MonoRestoredExactly` | src/airplay/alac.c:726-899 | mono frames with every predictor table, with any such limit, are all restored from their bytes if and only if the multiplier fits |
| `AlacMono.LosslessMonoFrame` | src/airplay/alac.c:726-899 | every compressed mono frame whose multiplier fits is restored exactly with its output size |
| `AlacMono.LosslessRawMonoFrame` | src/airplay/alac.c:823-899 | every uncompressed mono frame is restored exactly |
| `AlacEncoder.LosslessRawFrame` | src/airplay/alac.c:1041-1122 | every uncompressed stereo frame is restored exactly |
| `AlacEncoder.SamplesInPlace` | src/airplay/alac.c:572-707 | each stored sample can be read back from its place in the output |
| `AlacRoundTrip.DecodeEncoded` | src/airplay/alac.c:709-1124 | the decoder run on the bytes of an encoded frame leaves every sample of both channels in the output, under the conditions of the lossless theorem |
| `AlacRoundTrip.EveryFrameEncodable` | src/airplay/alac.h:42-53 | with the parameters the header names and a Rice modifier of 1 to 6, every 16-bit stereo frame of up to 4096 samples meets the conditions of the lossless theorem |
| `AlacRoundTrip.AnnouncedFits` | src/airplay/alac.h:42-53 | with those parameters the multiplier fits if and only if the Rice modifier is at most 6 |
| `EventPool.PurgeIs` | src/pi/ilclient.c:1425-1451 | duplicate removal leaves the first occurrence of every event in the old order |
| `EventPool.FirstsDistinct` | src/pi/ilclient.c:1425-1451 | after it no event occurs twice |
| `EventPool.FoundFirsts` | src/pi/ilclient.c:416-424 | duplicate removal changes no later search: the same record is found |
| `EventPool.ApplyKeeps` | src/pi/ilclient.c:406-449 | every action keeps the records of the pool |
| `EventPool.ApplyKeepsDistinct` | src/pi/ilclient.c:1601-1615 | every action keeps each list without duplicates behind its head |
| `EventPool.RunInvariant` | src/pi/ilclient.c:158-184 | after any interleaving of actions each of the 100 records is on exactly one list, once, and the lists are duplicate-free behind their heads |
| `EventPool.Partition` | src/pi/ilclient.c:78-82 | conservation means that list positions hold different records, none of them free, and that all 100 are there |
| `EventPool.CallbackPasses` | src/pi/ilclient.c:1453-1454 | the callback's assertion holds if and only if the events left after removing duplicates do not use up the pool |
| `IlClient.Client.constructor` | src/pi/ilclient.c:158-184 | initialisation chains all records into the free list |
| `IlClient.Client.Build` | src/pi/ilclient.c:173-182 | the loop links the records in descending order |
| `IlClient.Client.Unlink` | src/pi/ilclient.c:426-435 | taking a record out of its list and freeing it keeps all links right |
| `IlClient.Client.RemoveEvent` | src/pi/ilclient.c:406-449 | removes exactly the first match, or nothing, and says which |
| `IlClient.Client.TryWait` | src/pi/ilclient.c:1179-1250 | one pass takes the first completion or failed command and returns 0, -1, -2 or keeps waiting as specified; other commands fail at once and change nothing |
| `IlWaiting.RemoveTakes` | src/pi/ilclient.c:416-435 | a removal takes the first record with the given type and the data words that are not ignored, and frees it, or changes nothing if there is none |
| `IlWaiting.WaitCodes` | src/pi/ilclient.c:1194-1253 | the codes of a pass written out: 0 and -1 by the first event that ends the wait, -2 if and only if none does and the other component's command failed, waiting if and only if neither |
| `IlWaiting.NothingRemoved` | src/pi/ilclient.c:1231-1253 | a pass that reports the other component's failure or keeps waiting removes nothing |
| `IlWaiting.EndRemoved` | src/pi/ilclient.c:1201-1230 | a pass that ends with 0 or -1 takes out the event that ended it and no other |
| `IlWaiting.CompletionSeen` | src/pi/ilclient.c:1200-1250 | after the callback of a command's completion, and any run of actions elsewhere or callbacks that do not end the wait, a pass ends with 0 |
| `IlWaiting.FailureSeen` | src/pi/ilclient.c:1200-1250 | after the callback of an error that ended a command, and any such run, it ends with 0 if the component is already there and with -1 otherwise |
| `IlClient.Client.ReturnEvents` | src/pi/ilclient.c:682-693 | all of a component's records go to the free list |
| `IlClient.Client.SweepList` | src/pi/ilclient.c:1431-1447 | the inner loop removes the later duplicates of one entry |
| `IlClient.Client.RemoveDuplicates` | src/pi/ilclient.c:1428-1451 | the nested loops compute the purge |
| `IlClient.Client.EventHandler` | src/pi/ilclient.c:1412-1616 | the callback's locked part performs the callback action |
| `BufferQueue.RunFifo` | src/pi/ilclient.c:1283-1357 | on every port what was delivered followed by what is queued is what was returned, under any interleaving of callbacks, gets and passes of blocking gets of which none cuts the list |
| `BufferQueue.FifoExactly` | src/pi/ilclient.c:1283-1357 | every port is a queue throughout a run if and only if no pass of a blocking get finds its buffer at the front with a predecessor pointer left over from an earlier pass |
| `BufferQueue.TakesOldest` | src/pi/ilclient.c:1288-1305 | every other pass takes the oldest buffer of its port, or nothing |
| `BufferQueue.UndisturbedUncut` | src/pi/ilclient.c:1283-1314 | if no pass of a blocking get fails while the list holds buffers of other ports, nothing is cut |
| `BufferQueue.WaitingGetCuts` | src/pi/ilclient.c:1283-1314 | a run of five steps after which a buffer that was handed out is still in the list |
| `BufferQueue.ServeWaiting` | src/pi/ilclient.c:1283-1314 | the same run on the linked list |
| `BufferQueue.RunConserves` | src/pi/ilclient.c:1653-1739 | in such runs no buffer is lost and none is doubled |
| `BufferQueue.OfPortDrop` | src/pi/ilclient.c:1290-1305 | a get takes the oldest buffer of its port and keeps the order of all others |
| `BufferQueue.List.Done` | src/pi/ilclient.c:1662-1675 | the callback appends the buffer at the end of the list |
| `BufferQueue.List.Get` | src/pi/ilclient.c:1288-1305 | a get without blocking unlinks and returns the first buffer of the port, or null |
| `BufferQueue.List.Pass` | src/pi/ilclient.c:1283-1314 | one pass on the linked list leaves the list, the buffer and the pointer that the pass function says, also when it cuts the list |
| `Biquad.StagesAreSamples` | src/audio/TBiquad.cpp:55-88 | the stage-by-stage loops compute the sample-by-sample cascade, histories included |
| `Biquad.SamplesSplit` | src/audio/TBiquad.cpp:43-89 | a block in two parts gives the output and histories of the whole block |
| `BiquadProcess.ProcessInTwo` | src/audio/TBiquad.cpp:43-89 | two calls on the parts of a block, cut anywhere, in place or not, meet the contract of one call on the block |
| `BiquadProcess.OutputDetermined` | src/audio/TBiquad.cpp:43-89 | that contract determines every channel of the output and every history |
| `BiquadProcess.ProcessFrame` | src/audio/TBiquad.cpp:62-82 | one frame of all channels goes through one section, in place or not |
| `BiquadProcess.ProcessStage` | src/audio/TBiquad.cpp:55-85 | one section over a strided block equals the run of each channel; other positions stay |
| `BiquadProcess.Filter.Process` | src/audio/TBiquad.cpp:43-89 | every channel of the block goes through the cascade, also in place; positions between channels stay; an invalid filter changes nothing |
| `BiquadProcess.Filter.SetCascadeCount` | src/audio/TBiquad.cpp:16-20 | keeps the sections there are and adds silent ones |
| `BiquadDesign.StableExactly` | src/audio/TBiquad.cpp:98-190 | for all five filter types, any frequency and rate, the coefficients are stable if and only if the sine of the frequency's angle and the quality have the same sign |
| `BiquadDesign.EnergyDefinite` | src/audio/TBiquad.cpp:64-69 | the energy form of a stable filter is positive definite |
| `BiquadDesign.EnergyStep` | src/audio/TBiquad.cpp:64-78 | without input a step takes (1 - a2)(y - y2)^2 from the energy |
| `BiquadDesign.SilenceDecays` | src/audio/TBiquad.cpp:61-85 | over any number of zero frames the energy of a section's run never grows and bounds every output |
| `BiquadDecay.TwoSilentSteps` | src/audio/TBiquad.cpp:61-85 | two frames without input leave at most a fixed share below one of a stable section's energy |
| `BiquadDecay.SilenceGeometric` | src/audio/TBiquad.cpp:61-85 | without input the energy falls geometrically |
| `BiquadCascade.DrivenSteps` | src/audio/TBiquad.cpp:61-85 | with input the energy shrinks in two frames up to a multiple of the input's squares |
| `BiquadCascade.SectionFades` | src/audio/TBiquad.cpp:61-85 | an input that tends to zero leaves a stable section as an output that tends to zero, from any history |
| `BiquadCascade.CascadeFades` | src/audio/TBiquad.cpp:55-88 | the same for a cascade of any number of sections with any histories |
| `BiquadUnstable.FadesExactly` | src/audio/TBiquad.cpp:55-88 | without input the output of a cascade dies out from every history, for any number of sections, if and only if the coefficients are stable |
| `BiquadUnstable.AcceptedUnstable` | include/Types.h:39-41 | a filter at three quarters of the rate with quality one that is accepted and not stable |
| `BiquadDesign.CoefficientSums` | src/audio/TBiquad.cpp:107-176 | the coefficient sums of each type are in the ratio of its gain on constants |
| `BiquadDesign.ConstantGain` | src/audio/TBiquad.cpp:107-176 | constants pass LowPass and Peak at gain 1, HighPass at 0, LowShelf at the squared amplitude, HighShelf at 1, for any number of frames |
| `BiquadResponse.WavePasses` | src/audio/TBiquad.cpp:61-79 | a sinusoid of any frequency passes a section at the complex gain of its transfer function, for any number of frames, from matching history |
| `BiquadResponse.TopFrequency` | src/audio/TBiquad.cpp:107-176 | the signal x, -x, x, .. passes LowPass at gain 0, HighPass, LowShelf and Peak at 1, HighShelf at the squared amplitude |
| `BiquadResponse.OwnFrequency` | src/audio/TBiquad.cpp:107-176 | a sinusoid of the filter's own frequency passes at the type's complex gain, for any number of frames |
| `BiquadResponse.OwnSize` | src/audio/TBiquad.cpp:107-176 | that gain has the size of the quality for LowPass and HighPass, of the squared amplitude for Peak and of the amplitude for the shelves |
| `BiquadResponse.GainsDetermine` | src/audio/TBiquad.cpp:107-176 | the gains at zero, at half the rate and at one frequency between leave no choice for the feed-forward coefficients |
| `BiquadDesign.FlatPeak` | src/audio/TBiquad.cpp:108-123 | a peak filter of 0 dB outputs exactly its input on every signal |
| `Rechunk.CutsDoNotMatter` | src/audio/AudioEncoderFfmpeg.cpp:73-110 | however the input is cut into buffers, frames and partial frame are those of the whole input; frames are full and nothing is lost or reordered |
| `Rechunk.FeedKeeps` | src/audio/AudioEncoderFfmpeg.cpp:88-107 | feeding rows loses and reorders nothing and pushes full frames only |
| `Rechunk.FeedAppend` | src/audio/AudioEncoderFfmpeg.cpp:88-107 | feeding in two steps is feeding at once |
| `Rechunk.FlushKeeps` | src/audio/AudioEncoderFfmpeg.cpp:79-86 | flushing after any input loses nothing, and only the last frame can be short |
| `Rechunk.Frame.Copy` | src/audio/AudioEncoderFfmpeg.cpp:174-194 | interleaved rows are appended to the planes |
| `Rechunk.Encoder.FillFrame` | src/audio/AudioEncoderFfmpeg.cpp:170-207 | as many whole rows as fit are moved and the rest stays in the buffer |
| `Rechunk.Encoder.OnProcess` | src/audio/AudioEncoderFfmpeg.cpp:73-110 | a call feeds the buffer's whole rows to the stream and leaves only what is not a whole row; an empty buffer pushes the waiting frame and flushes |
| `SourceSelector.RunServed` | src/core/SourceSelector.cpp:35-85 | in every run, with sources registered at any time, a source runs or none is ready |
| `SourceSelector.StepExclusive` | src/core/SourceSelector.cpp:42-55 | a step keeps the sources exclusive if and only if it is not the stop of the running source while two others wait |
| `SourceSelector.RunExclusive` | src/core/SourceSelector.cpp:35-85 | for any number of sources at most one runs throughout a run if and only if no step is such a stop |
| `SourceSelector.TwoSourcesExclusive` | src/core/SourceSelector.cpp:35-85 | with at most two sources, registered at any time, at most one runs in every reachable state |
| `SourceSelector.ThreeSourcesClash` | src/core/SourceSelector.cpp:50-55 | with three sources a run exists after which two are started |
| `SourceSelector.Selector.OnSourceReady` | src/core/SourceSelector.cpp:35-56 | the two loops compute the notification |
| `SourceSelector.Selector.AddSource` | src/core/SourceSelector.cpp:69-85 | the source is stopped, which notifies the selector it had before, and registered; a new source changes no other |
| `SourceSelector.Source.SetReady` | src/core/Source.cpp:63-70 | sets the flag and notifies the selector; for a source that is listed once this is the protocol's action |
| `SourceSelector.Source.Stop` | src/core/Source.cpp:41-53 | clears both flags and notifies the selector; for a source that is listed once this is the protocol's action |
| `Base64.DecodeEncode` | src/core/Util.cpp:40-98 | decoding the padded encoding restores every byte string, and its length is four per three bytes begun |
| `Base64.EncodeDecode` | src/core/Util.cpp:40-98 | encoding restores every canonical padded text from what it decodes to |
| `Base64.EncodeDecodeExactly` | src/core/Util.cpp:40-98 | a text of whole groups is restored if and only if it is canonical |
| `Base64.UnpaddedIs` | src/core/Util.cpp:65-98 | the unpadded text is the padded one without its signs |
| `Base64.DecodeUnpadded` | src/core/Util.cpp:40-98 | unpadded text can be read unless one byte is left over, is restored exactly if none is, and decodes to one more zero byte if two are |
| `Base64.EncodesBits` | src/core/Util.cpp:65-98 | the six-bit values of the text spell the bits of the data, filled up with zeros |
| `Base64.TablePosition` | src/core/Util.cpp:24-38 | position function and table are inverse on the alphabet |
| `Base64.EncodeLoop` | src/core/Util.cpp:65-98 | the loop computes Encode |
| `Base64.DecodeLoop` | src/core/Util.cpp:40-63 | the loop computes Decode on texts of whole groups, and on texts one character short with the zero behind their end |
| `Base64.StopEnds` | src/core/Util.cpp:54-57 | a full stop in the last place ends the data like an equals sign |
| `Base64.ForeignIsFirst` | src/core/Util.cpp:29-38 | characters outside the alphabet count as its first |
| `ByteBuffer.AcquireExactly` | src/core/Buffer.cpp:83-111 | the acquired room lies inside the store if and only if there is space in front, or three bytes lie behind the window and the space or the growth covers the rounding |
| `ByteBuffer.AcquireOnBorder` | src/core/Buffer.cpp:83-111 | it does for windows that end on a word border with three bytes free behind them |
| `ByteBuffer.AcquireOutside` | src/core/Buffer.cpp:91-95 | a full store, for which it does not |
| `ByteBuffer.AcquireDisjoint` | src/core/Buffer.cpp:83-111 | the room never overlaps the live bytes |
| `ByteBuffer.AcquirePlace` | src/core/Buffer.cpp:83-111 | the room starts with the store if it fits in front of the window, otherwise less than a word behind it |
| `ByteBuffer.Buffer.Reserve` | src/core/Buffer.cpp:44-48 | an empty buffer with at least the reserved size |
| `ByteBuffer.Buffer.Copy` | src/core/Buffer.cpp:50-56 | a buffer that shows the copied data |
| `ByteBuffer.Buffer.Acquire` | src/core/Buffer.cpp:83-111 | hands out that room and leaves the live bytes unchanged |
| `ByteBuffer.Buffer.Commit` | src/core/Buffer.cpp:113-116 | the first bytes of the room become the live bytes |
| `ByteBuffer.Buffer.TrimFront` | src/core/Buffer.cpp:146-152 | drops bytes in front, or nothing if too many are asked for |
| `ByteBuffer.Buffer.TrimBack` | src/core/Buffer.cpp:154-159 | drops bytes at the end, or nothing if too many are asked for |
| `ByteBuffer.Buffer.Shrink` | src/core/Buffer.cpp:135-137 | keeps at most the given number of bytes |
| `ByteBuffer.Buffer.Replace` | src/core/Buffer.cpp:83-159 | acquire, write, commit and trim show exactly the matching slice of what was written |

## Left out

- Sample sizes other than 16 and 24 are decoded into the buffers but not stored, as in the source; prediction types other than 0 leave the sample buffer as it was.
- AlacLimits.FramesRestoredExactly: stereo frames with weights or predictor tables, for which the same condition is sufficient (`AlacEncoder.LosslessFrame`); that it is necessary is proved with every table for a channel and for mono frames.
- AlacFile.Decoder.DecodeFrame: a k-modifier of 0 and streams that lead to a history that is not positive in front of a zero run are outside the frame function, although the source gives some of them a meaning.
- `alac_set_info`, the parsing of the stream's configuration block, and the portable variants of `count_leading_zeros`.
- IlClient.Client.TryWait: one pass of the wait; blocking between passes and the event flags are not modelled.
- IlClient.Client.EventHandler: takes the event as it is stored (the end-of-stream flag of a buffer-flag event is the only flag kept) and whether the component masks it; event flags and client callbacks are not modelled.
- BufferQueue.FifoExactly: the suspension of a blocking get between its passes is not modelled; its passes are steps of the run.
- Tunnels, port enabling, state transitions and the teardown of port buffers of the IL client.
- BiquadProcess.Filter.Process: real arithmetic; rounding and the fixed-point instances of the template are not modelled.
- Rechunk.Encoder.OnProcess: between configuration changes; the codec itself is not modelled, pushed frames and flushes are recorded.
- SourceSelector.TwoSourcesExclusive: each source is registered once, none is removed, and nobody else calls start; `removeSource`, the node chain behind a source and locking are not modelled.
- Base64.DecodeLoop: texts whose length leaves one or two characters over, where the source reads behind the terminator of its string.
- ByteBuffer.Buffer.Acquire: `prepend`, `grow` and the buffer pool are not modelled, and the vector's capacity beyond its size is not visible.
- RTSP, RTP and SDP handling, the audio sinks and sources, Bluetooth, zeroconf and logging: input, output or foreign libraries.
