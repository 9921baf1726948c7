# On-board imaging unit: a verified model

The firmware takes a 640 x 480 picture as 60 strips of 640 x 8 YUYV pixels, compresses each strip to one JPEG restart
interval, stores the intervals in MRAM, indexes them, and serves single lines on request. This project models that chain, the
USB endpoint-zero control-transfer machine, and two pieces of SD card arithmetic, and proves what they are for.

`dafny verify dfyconfig.toml` checks everything.

## The encoder, the store and the index

| module | what it holds |
|---|---|
| `Bits`, `Wrappers` | bit strings, the arithmetic of shifts and masks, `Option` |
| `CanonicalHuffman` | ITU-T T.81 annex C.2 and the DECODE procedure of F.2.2.3, for every table |
| `JpegTables`, `HuffmanTables`, `AcTables` | the source's tables, and that its ready-made codes are the canonical ones but for one entry |
| `BlockCoding` | entropy coding of a block and the T.81 F.2.2 decoder; exact condition of the round trip |
| `LineCoding` | packing, byte stuffing, restart markers, decoding a restart interval |
| `Dct`, `Quantizer` | the fixed-point DCT and the reciprocal quantiser: accuracy, ranges, rounding, zig-zag order |
| `Cosines` | the accuracy of both against the DCT of T.81 A.3.3, over the real numbers |
| `Strip` | de-interleaving, watermark, the blocks of a line, and the range chain that makes the bad entry harmless |
| `Mram`, `OutputStore` | the memory with its size guard, and which bytes of the stream it ends up holding |
| `BitWriter`, `JpegEncoder`, `Capture` | the encoder as it runs: buffers, sample arrays and predictors updated in place |
| `LineIndex`, `IndexCorrectness` | `generateLineIndex` and `readLineFromSPI`, and why the index is right |
| `EndToEnd` | from strips to decoded lines, and what a second capture on the same store costs |
| `Picture` | what the lines have to do with the pixels: which pixel each sample is, the letters, the accuracy of what is served |
| `LostMarkers`, `OneLostMarker`, `FlatStrips` | what any number of lost marker bytes cost, what a single one does, and a capture that loses one |

Imperative code is modelled imperatively: `BitWriter.ByteWriter`, `BitWriter.BitBuffer`, `JpegEncoder.Encoder`, `Mram.Flash`
and `UsbDriver.USBDriver` are classes whose methods are proved to take the steps of specification functions, and the theorems
are about those functions. `Encoder.EncodeLineYuv` ties the two for the encoder: it puts exactly `EncodedLine` into the store.
The theorems do not take the meaning of those functions for granted: lines are tied to the pixels of the picture and to a
decoder with definitions of its own (`Picture`), requests to what the host sees and the low-level driver is asked
(`Ep0Requests`).

Three facts about the code shape the theorems:

- The chrominance entry for run 6 / size 9 (`STM32L1_Code/encoder/jpegenc.c:248`) is 0xFFAF, the code of run 7 / size 3;
  T.81 table K.6 has 0xFFAD. `BlockRoundTrip` says exactly which blocks that breaks; `LineBlocksSound` says no strip of 8-bit
  samples gives one.
- `flashWriteBytes` ignores writes of fewer than two bytes, but `write_jpeg` advances the address all the same. A line that
  leaves one byte in the buffer loses the second byte of its marker. `FlashAgrees` and `NothingLostIff` say which lines do;
  `StoredLineServed` and `ServedTrulyIff` say what the reader then serves, and `LossHappens` gives a capture that loses a
  marker with a buffer of 128 or 256 bytes.
- The scanner's mask 0xFFD8 also accepts 0xFFF0 to 0xFFF7. `SegmentIsQuiet` shows that byte stuffing makes this harmless.

Where documentation and code disagree the model follows the code:

- The comment above `quantize` says `round(data/qt0)`. `DividesIff` says exactly when that holds, `QuantizeMissesQuotient` gives
  a table step and a DCT value for which it does not, and `QuantizeDivides` gives the true error bound.
- `STM32L1_Code/spi_flash/spi_flash.h:76` allows line numbers up to 79; the reserved area holds records 0 to 63
  (`RecordBelowImage`). `SixtyLines` and `OverwriteHappens` give runs in which higher numbers come up and the index overwrites
  the start of the image; `WritesImageIff` says when it does.
- The size guard, commented as preventing overflow, compares with 0x100000 (`STM32L1_Code/spi_flash/spi_flash.h:95`), but only
  17 address bits are sent. `GuardPassesTop` gives a write that it lets overflow, and `GuardIff` says which ones do.
- `generateLineIndex` has no caller in the repository; it is modelled as the step between `jpeg_close` and `readLineFromSPI`.
- `file_addr_ptr` is never reset, so the theorems about an image start from a store at `IMAGE_DATA_START`.
  `SecondCaptureServesFirst` says what a second capture on the same store does: the reader goes on serving the first.

## The USB machine

`Ep0` is the state machine of `_usb_ep0setup`, `_usb_ep0in`, `_usb_ep0out` and `_usb_reset` with the standard request handler;
`Ep0Transfers` states what runs of it mean to a host, and `Ep0Requests` what each request does; `UsbDriver` is the code on the
driver's fields. The busy masks are sets of endpoint numbers. A run is any sequence of SETUP packets between transfers,
completions of started transactions and bus resets. The request hook, the descriptor callback and the endpoint status of the
low-level driver are parameters of a SETUP. `USB_SET_ADDRESS_MODE` is a parameter too: the STM32 USBv1 driver uses the late
mode, OTGv1 and the template the early one.

## SD card arithmetic

`Crc7` proves the table-driven CRC-7 against division of polynomials, with uniqueness of the remainder, and that every command
header is a multiple of the generator. `CsdSlice` proves the bit-field extraction and the capacity computation.

## Model

| member | source | states |
|---|---|---|
| EndToEnd.LineServed | STM32L1_Code/encoder/jpegenc.c:871-923 | Encode, store, index, fetch by number, decode alone: every line of a capture comes back as exactly its 160 quantised blocks, for all strips, all numberings that skip at most seven, all earlier memory, if the image fits and every byte the store loses was there already |
| EndToEnd.StandardLineServed | STM32L1_Code/spi_flash/spi_flash.c:271-295 | The same with the tables of jpegenc.c and a decoder built from its T.81 tables, for lines 0, 1, 2, ... whose lengths are not 1 modulo the buffer size |
| Picture.PictureServed | STM32L1_Code/encoder/jpegenc.c:871-923 | The same chain down to the picture: every coefficient decoded from the line served, times its step, is within 43/16 + 1025/1024 step of the DCT coefficient of T.81 A.3.3, taken over the real numbers, of the pixels of the strip there, letters included |
| Picture.LineAccuracy | STM32L1_Code/encoder/jpegenc.c:904-919 | What each of the 160 blocks of a line holds, for every strip and line number: the luminance steps and tables for the first two of every four, the chrominance ones for the others, and that accuracy against the pixels |
| Picture.PixelLuminance | STM32L1_Code/encoder/jpegenc.c:880-903 | Pixel (x, y) of every strip is coded in block 4 * (x / 16) + x / 8 % 2 at row y, column x % 8, as its byte less 128; on line 59, and nowhere else, the pixels of the letters V and T are 60 instead |
| Picture.PixelChrominance | STM32L1_Code/encoder/jpegenc.c:880-896 | Its Cb and Cr bytes, shared with the neighbour, are coded in blocks 4 * (x / 16) + 2 and + 3 at row y, column x / 2 % 8, less 128, on every line |
| Picture.BlocksArePixels | STM32L1_Code/encoder/jpegenc.c:880-919 | So each block coded is, sample for sample, the pixels of its place |
| LostMarkers.StoredLineServed | STM32L1_Code/spi_flash/spi_flash.c:271-362 | Any lost markers and any stale bytes: every line the scan reaches is served behind the lines that run on into it, under the number its marker, true or stale, gets, from where it lies in the memory the index leaves, and whole if all numbers are below 64 or it lies above the last record; what is left goes under the number after all others |
| LostMarkers.EveryCaptureLossy | STM32L1_Code/encoder/encoder.c:14-22 | That covers every capture with true numbers that rise and stay below 63 and a buffer of 128 bytes or more, whatever numbers the stale markers lead to; where a stale 0xFF completes a marker with the first byte of the next line, that byte is counted to the line that ends there |
| LostMarkers.StandardCaptureLossy | STM32L1_Code/encoder/jpegenc.c:314-318 | In particular every capture of up to 63 strips, encoded with the tables of jpegenc.c, that fits the memory |
| LostMarkers.PacedIsFollowed | STM32L1_Code/spi_flash/spi_flash.c:333-357 | Why: a wrong marker adds at most eight to the numbers, 128 bytes of records, and ends a line of at least 128 bytes, so no record is written ahead of the scanner |
| LostMarkers.OtherNumbers | STM32L1_Code/spi_flash/spi_flash.c:317-362 | Under every other number, and in the cells where its record would be, there is what was there before |
| LostMarkers.ServedTrulyIff | STM32L1_Code/spi_flash/spi_flash.c:164-174 | A line stored as it was sent and numbered truly is served truly if and only if the line before it does not run on into it, if all numbers are below 64 or it lies above the last record |
| LostMarkers.NumbersTrueIff | STM32L1_Code/spi_flash/spi_flash.c:344-351 | All lines that end are numbered truly if and only if every marker that ends one agrees with its number and fewer than eight are missing in a row |
| LostMarkers.LostLineRecord | STM32L1_Code/spi_flash/spi_flash.c:333-357 | A line that runs on has no record under its own number, except where that is the number after all others |
| LostMarkers.FirstOfRunDecoded | STM32L1_Code/spi_flash/spi_flash.c:271-295 | In what is served a decoder finds the blocks of the first line of the run, unless its stale byte is zero |
| LostMarkers.StreamAsStored | STM32L1_Code/encoder/encoder.c:14-22 | Whatever was lost, the memory holds the lines with their stale last bytes, and EOI |
| OneLostMarker.LostMarkerRunsOn | STM32L1_Code/spi_flash/spi_flash.c:164-174 | One lost marker, and a stale byte that makes none: all other lines are served truly but the next, which is served behind the lost one; the lost one has no record |
| OneLostMarker.LostMarkerServesWrongLine | STM32L1_Code/spi_flash/spi_flash.c:164-174 | In the bytes then served under the next number a decoder finds the blocks of the lost line |
| OneLostMarker.StaleMarkerShifts | STM32L1_Code/spi_flash/spi_flash.c:344-351 | A stale byte that makes a marker of another residue, in up to 63 lines: every later line is served under its number plus eight, whole if it lies above the last record, and the lost line under a number that is not its own |
| OneLostMarker.StaleMarkerOverwrites | STM32L1_Code/spi_flash/spi_flash.c:333-357 | The cells of every record then hold it, also where its number is 64 or more and they are the first cells of the image; the loop returns the shifted number |
| OneLostMarker.SixtyLines | STM32L1_Code/camera_iface/camera_iface.c:525-562 | A complete image of 60 lines with such a marker before line 56: the loop returns 68 and the first byte of the image has become 64 |
| OneLostMarker.StaleEoiEndsIndex | STM32L1_Code/spi_flash/spi_flash.c:328-338 | A stale byte that makes an EOI marker: the lost line is served, the lines after it have no record |
| FlatStrips.LossHappens | STM32L1_Code/camera_iface/camera_iface.c:525-562 | Captures of 2 to 60 given strips, encoded with the tables of jpegenc.c: the first loses its marker with a buffer of 128 and of 256 bytes, and line 1 is served with bytes that decode to the blocks of line 0, which differ |
| FlatStrips.ShiftHappens | STM32L1_Code/spi_flash/spi_flash.c:344-351 | The same strips on a memory of bytes 0xD3: every line but the first is served truly under its number plus eight |
| FlatStrips.OverwriteHappens | STM32L1_Code/spi_flash/spi_flash.c:333-357 | With 60 of them the index overwrites the first line: its first byte, which was not 64, is 64 afterwards |
| FlatStrips.LossyCaptureLoses | STM32L1_Code/encoder/encoder.c:14-22 | Their first line has 257 bytes and the others 102 or 103, so exactly the first loses its marker byte |
| FlatStrips.FlatEncodedLength | STM32L1_Code/encoder/jpegenc.c:871-923 | The encoded length of the three kinds of strip, one of them under the watermark, by induction over the MCUs |
| EndToEnd.SecondCaptureServesFirst | STM32L1_Code/encoder/encoder.c:12-22 | A second capture on the same store is written behind the first; the index still ends at the first EOI and every line served is that of the first capture |
| EndToEnd.CaptureLinesQuiet | STM32L1_Code/encoder/jpegenc.c:663-678 | Every line an encoder run can emit fires the scanner only at its own marker, and is 2 to 61482 bytes long |
| EndToEnd.HarmlessMemoryExists | STM32L1_Code/spi_flash/spi_flash.c:164-174 | For any lines that fit there is an earlier memory to which the loss does no harm |
| Capture.CaptureImage | STM32L1_Code/camera_iface/camera_iface.c:525-562 | The capture loop puts exactly the lines 0, 1, 2, ... and the EOI marker into the store |
| Capture.CaptureAndServe | STM32L1_Code/camera_iface/camera_iface.c:525-562 | Capture, index and reader run on one memory: the bytes in the caller buffer decode to exactly the blocks of the line asked for |
| JpegEncoder.Encoder.EncodeLineYuv | STM32L1_Code/encoder/jpegenc.c:871-923 | From a line start, puts exactly the bytes of the encoded line into the output and is at a line start again, whatever the sample arrays held; what those bytes mean for the pixels is `LineRoundTrip` with `LineAccuracy` |
| JpegEncoder.Encoder.EncodeMcu | STM32L1_Code/encoder/jpegenc.c:880-919 | One MCU takes the bit string four blocks further towards the bits of the whole line |
| JpegEncoder.Encoder.HuffmanEncode | STM32L1_Code/encoder/jpegenc.c:615-659 | Appends the bits of the quantised block and remembers its DC value; no index leaves the 16x12 and 12-entry tables |
| JpegEncoder.Encoder.EncodeAc | STM32L1_Code/encoder/jpegenc.c:633-658 | The coefficient loop with its ZRL loop and the EOB rule, in place |
| JpegEncoder.Encoder.LoadMcu | STM32L1_Code/encoder/jpegenc.c:880-896 | The de-interleaving loops store the Y, Y, Cb, Cr samples of the MCU |
| JpegEncoder.Encoder.EmbedWatermark | STM32L1_Code/encoder/jpegenc.c:927-970 | Draws V and T: exactly the samples of their strokes, given by row and column, become 60 and all others keep their values |
| Strip.Letters | STM32L1_Code/encoder/jpegenc.c:927-970 | The stores of the source make those strokes: two that meet in row 7, and a bar of two rows over a slanted arm |
| JpegEncoder.Encoder.JpegClose | STM32L1_Code/encoder/encoder.c:42-49 | Closing puts exactly the EOI marker |
| JpegEncoder.HuffmanMagnitude | STM32L1_Code/encoder/jpegenc.c:537-545 | The counting loop finds the least width that holds the absolute value |
| BitWriter.ShiftKeepsBits | STM32L1_Code/encoder/jpegenc.c:466-472 | Whatever stale bits the 32-bit buffer holds above its low n < 8, shifting in up to 16 bits appends exactly those bits and loses none |
| BitWriter.BitBuffer.WriteBits | STM32L1_Code/encoder/jpegenc.c:466-489 | Appends exactly the low nbits to the bit string and keeps fewer than eight bits pending, all whole bytes stuffed and in the output |
| BitWriter.BitBuffer.FlushBits | STM32L1_Code/encoder/jpegenc.c:503-507 | Pads with ones to a byte boundary and leaves nothing pending |
| BitWriter.BitBuffer.WriteRsi | STM32L1_Code/encoder/jpegenc.c:663-678 | Ends the segment: its packed, stuffed bytes and the restart marker are put and drained |
| BitWriter.BitBuffer.Stop | STM32L1_Code/encoder/jpegenc.c:595-601 | Ends the image with the EOI marker |
| BitWriter.ByteWriter.WriteByte | STM32L1_Code/encoder/jpegenc.c:320-328 | One byte moves the buffer and the memory by one step of the store specification |
| BitWriter.ByteWriter.WriteJpeg | STM32L1_Code/encoder/encoder.c:14-22 | Writes the bytes at the current address and advances it even where the write is refused |
| BlockCoding.BlockRoundTrip | STM32L1_Code/encoder/jpegenc.c:615-659 | For every block of codable sizes the T.81 decoder gives back the block and consumes exactly its bits, if and only if no coefficient uses the colliding entry |
| BlockCoding.VliInverse | STM32L1_Code/encoder/jpegenc.c:521-545 | EXTEND of the amplitude bits, read with the value's own size, is the value |
| BlockCoding.BlockBreaks | STM32L1_Code/encoder/jpegenc.c:248-249 | A block that uses the colliding entry is not decoded to itself |
| BlockCoding.CollisionHappens | STM32L1_Code/encoder/jpegenc.c:248-249 | Such a block exists for the tables of jpegenc.c: chrominance, coefficient 7 equal to 256, all others zero |
| BlockCoding.StandardTablesMatch | STM32L1_Code/encoder/jpegenc.c:155-264 | The tables of jpegenc.c and the decoders of its T.81 tables fit together, up to the one collision |
| CanonicalHuffman.DecodeInvertsCode | STM32L1_Code/encoder/jpegenc.c:77-153 | For every table, whatever follows a code, DECODE of T.81 F.2.2.3 reads exactly its bits and finds its symbol |
| CanonicalHuffman.DecodeReadsCode | STM32L1_Code/encoder/jpegenc.c:77-153 | Conversely, whatever decodes begins with the symbol's code |
| CanonicalHuffman.NextCode | STM32L1_Code/encoder/jpegenc.c:77-153 | The first code of each length is what T.81 figure C.2 generates |
| HuffmanTables.DcCodeCodes | STM32L1_Code/encoder/jpegenc.c:155-177 | Every DC entry is the canonical code of its size |
| AcTables.AcCodeCodes | STM32L1_Code/encoder/jpegenc.c:180-258 | Every AC entry means its own symbol if and only if it is not chrominance run 6 / size 9, which means run 7 / size 3 |
| AcTables.CollidingEntry | STM32L1_Code/encoder/jpegenc.c:248-249 | The two chrominance entries are the same code |
| LineCoding.UnstuffInvertsStuff | STM32L1_Code/encoder/jpegenc.c:475-485 | Removing stuffed zeros up to the marker recovers the data bytes |
| LineCoding.LineRoundTrip | STM32L1_Code/encoder/jpegenc.c:871-923 | The bytes of any sound sequence of blocks, decoded alone as a T.81 scan of Y, Y, Cb, Cr with predictions at zero, give back the blocks |
| Strip.StripRoundTrip | STM32L1_Code/encoder/jpegenc.c:871-923 | The same for every 10240-byte strip |
| Strip.LineBlocksSound | STM32L1_Code/encoder/jpegenc.c:615-659 | Range chain: every block of every strip, watermark included, has sizes the tables code faithfully |
| Strip.LineLengthBound | STM32L1_Code/encoder/jpegenc.c:871-923 | Every encoded line is shorter than 65536 bytes |
| Strip.DeinterleaveIsBijection | STM32L1_Code/encoder/jpegenc.c:880-896 | Each strip byte is read for exactly one sample and each sample comes from exactly one byte |
| Strip.PixelInBlocks | STM32L1_Code/encoder/jpegenc.c:884-896 | Each pixel's luminance and its shared chrominance are at the place 4:2:2 sampling has them |
| Strip.StripRecovered | STM32L1_Code/encoder/jpegenc.c:880-896 | Without the watermark the strip can be rebuilt from the blocks |
| Strip.StandardTablesOk | STM32L1_Code/encoder/jpegenc.c:32-55 | The tables of jpegenc.c meet every assumption of the line theorems |
| Dct.Factorisation | STM32L1_Code/encoder/dct.c:36-97 | The butterfly is multiplication by the matrix of the constants C1 to C7 |
| Dct.Accuracy | STM32L1_Code/encoder/dct.c:19-97 | Every output is within 5/2 (7/4 outside the first row) of the exact matrix product, both passes of rounding down included |
| Strip.DequantisedAccuracy | STM32L1_Code/encoder/dct.c:19-97 | DCT, quantiser and tables together: every coded value times its quantisation step is within 5/2 + 1025/1024 step of the product with the integer matrix |
| Cosines.TransformAccuracy | STM32L1_Code/encoder/dct.c:19-97 | Against the DCT of T.81 A.3.3 over the real numbers: every output is within 43/16 of the coefficient, the rounding of the constants and of both passes included |
| Cosines.CodedAccuracy | STM32L1_Code/encoder/jpegenc.c:615-640 | Every coded value times its quantisation step is within 43/16 + 1025/1024 step of that coefficient |
| Cosines.ConstantsRoundUp | STM32L1_Code/encoder/dct.c:24-31 | Each of the constants C1 to C7 is at least its cosine, scaled, and less than 1 above it |
| Cosines.HalfAnglesDetermine | STM32L1_Code/encoder/dct.c:24-31 | The half-angle formulas by which the cosines are given leave no choice |
| Dct.TransformRange | STM32L1_Code/encoder/dct.c:36-97 | For 8-bit samples rows stay within 725 and outputs within 1026 |
| Dct.ProductsFit | STM32L1_Code/encoder/dct.c:53-67 | No product or partial sum of 16-bit values exceeds 32 bits |
| Dct.Dct | STM32L1_Code/encoder/dct.c:19-97 | The two loops compute the transform, also when input and output are the same array |
| Quantizer.QuantizeRounds | STM32L1_Code/encoder/jpegenc.c:291-294 | For every 16-bit reciprocal the result is the integer nearest to data * qt / 1024, ties towards zero, cut to 16 bits; up to 1024 nothing is cut and no other number is nearest |
| Quantizer.QuantizeWraps | STM32L1_Code/encoder/jpegenc.c:291-294 | Beyond 1024 some data is rounded to a number that does not fit, and the result is not the nearest |
| Quantizer.SumFits | STM32L1_Code/encoder/jpegenc.c:291-294 | The 32-bit product and sums never overflow |
| Quantizer.QuantizeOdd | STM32L1_Code/encoder/jpegenc.c:291-294 | Negating the data negates the result |
| Quantizer.QuantizeMonotone | STM32L1_Code/encoder/jpegenc.c:291-294 | Larger data never gives a smaller result |
| Quantizer.QuantizeDivides | STM32L1_Code/encoder/jpegenc.c:281-294 | The result is within 1/2 + |data| / 2048 of data / step |
| Quantizer.DividesIff | STM32L1_Code/encoder/jpegenc.c:281-294 | The result is data / step, rounded, for all 16-bit data, and just as well for all outputs of the DCT, if and only if the reciprocal times the step is exactly 1024 |
| Quantizer.QuantizeMissesQuotient | STM32L1_Code/encoder/jpegenc.c:281-294 | For the table step 50 it is not: 976 / 50 is nearest to 20 and becomes 19 |
| Quantizer.ReciprocalTable | STM32L1_Code/encoder/jpegenc.c:7-55 | Every reciprocal is the integer nearest to 1024 / step |
| Quantizer.StepsHalveTables | STM32L1_Code/encoder/jpegenc.c:7-29 | The steps are half those of T.81 tables K.1 and K.2, rounded up |
| Quantizer.ZigZagIsPermutation | STM32L1_Code/encoder/jpegenc.c:58-75 | The zig-zag table is a permutation and is the walk of T.81 A.3.6 |
| Quantizer.CoefficientAt | STM32L1_Code/encoder/jpegenc.c:615-640 | The coefficient of each raster position is coded at its zig-zag place, rounded to nearest with its own reciprocal |
| Quantizer.QuantizedRange | STM32L1_Code/encoder/jpegenc.c:615-640 | For 8-bit samples DC values stay within 128 and AC values within the largest reciprocal |
| Quantizer.InRangeSizes | STM32L1_Code/encoder/jpegenc.c:537-545 | So AC sizes are at most 8 (luminance) and 7 (chrominance), DC differences at most 9, and nothing collides |
| Mram.Flash.WriteBytes | STM32L1_Code/spi_flash/spi_flash.c:164-207 | Stores the bytes from the 17-bit address on, or nothing if the size guard refuses |
| Mram.Flash.ReadBytes | STM32L1_Code/spi_flash/spi_flash.c:237-263 | Delivers the bytes from the 17-bit address on |
| Mram.ReadAfterWrite | STM32L1_Code/spi_flash/spi_flash.c:164-263 | Whatever an accepted write of up to the size of the memory stored is read back, across the top as well |
| Mram.GuardIff | STM32L1_Code/spi_flash/spi_flash.c:167-169 | An accepted write stays where it is addressed if and only if it ends at or below the top of the memory |
| Mram.GuardPassesTop | STM32L1_Code/spi_flash/spi_flash.c:167-169 | Two bytes at the last address are accepted, and the second overwrites cell 0 |
| Mram.GuardMeaning | STM32L1_Code/spi_flash/spi_flash.c:167-169 | Exactly which writes the guard accepts, addresses above its limit included |
| OutputStore.FlashAgrees | STM32L1_Code/encoder/jpegenc.c:320-328 | After any lines and EOI that the guard lets pass, up to the size of the memory and on over its top, every cell holds its stream byte, except the last byte of the lines whose length is 1 modulo the buffer size; those cells and all outside the image are unchanged |
| OutputStore.StreamStoredIff | STM32L1_Code/encoder/encoder.c:14-22 | The whole stream is in memory if and only if every lost byte happens to be there already |
| OutputStore.NothingLostIff | STM32L1_Code/spi_flash/spi_flash.c:164-174 | No byte is lost if and only if no line's length is 1 modulo the buffer size |
| LineIndex.MaskMeaning | STM32L1_Code/spi_flash/spi_flash.c:341 | The mask test accepts RST0 to RST7 and 0xFFF0 to 0xFFF7 and nothing else |
| LineIndex.NextLineIsLeast | STM32L1_Code/spi_flash/spi_flash.c:344-351 | The number chosen is the least one from the expected number on that agrees modulo 8 |
| LineIndex.Resynchronises | STM32L1_Code/spi_flash/spi_flash.c:344-351 | A line is numbered truly if and only if fewer than eight are missing before it |
| LineIndex.ScanEnds | STM32L1_Code/spi_flash/spi_flash.c:328-360 | An EOI marker ahead, before the records are reached again, ends the scan |
| LineIndex.RunIsScan | STM32L1_Code/spi_flash/spi_flash.c:317-362 | The loop as it runs, on memory that it changes, with 32-bit counters and 17-bit addresses, takes the steps of the scan of the unchanged memory and ends within one pass per cell, wherever the scan ends and every record but the last lies behind the scanner: in the reserved area or in what it has read |
| LineIndex.RunFromStart | STM32L1_Code/spi_flash/spi_flash.c:317-362 | So from the start of the image the loop leaves the records of the scan and the last line number |
| LineIndex.NeverEnds | STM32L1_Code/spi_flash/spi_flash.c:328-360 | With no marker at any of the 2^17 addresses the loop never ends |
| LineIndex.RunIsStable | STM32L1_Code/spi_flash/spi_flash.c:328-360 | A loop that has ended stays so: memory and number do not depend on the bound on its passes |
| LineIndex.ScanIncreases | STM32L1_Code/spi_flash/spi_flash.c:317-362 | Whatever the memory holds, line numbers strictly increase |
| LineIndex.ScanIsContiguous | STM32L1_Code/spi_flash/spi_flash.c:317-362 | The records cover the scanned bytes without gap or overlap |
| LineIndex.RecordBelowImage | STM32L1_Code/spi_flash/spi_flash.h:75-91 | A record lies in the reserved area if and only if its line number is below 64 |
| LineIndex.ImageUntouched | STM32L1_Code/spi_flash/spi_flash.c:333-357 | Records with numbers below 64 change no cell of the image |
| LineIndex.OutsideRecords | STM32L1_Code/spi_flash/spi_flash.c:333-357 | No cell outside the records is changed, whatever the numbers |
| LineIndex.WritesImageIff | STM32L1_Code/spi_flash/spi_flash.h:75-91 | A record covers cells of the image if and only if some number is 64 or more |
| LineIndex.RecordsReadBack | STM32L1_Code/spi_flash/spi_flash.c:271-280 | Every record can be read back under its own number |
| LineIndex.RecordRoundTrip | STM32L1_Code/spi_flash/spi_flash.h:75-81 | The struct bytes carry all four fields |
| LineIndex.GenerateLineIndex | STM32L1_Code/spi_flash/spi_flash.c:317-362 | On every memory on which the loop ends, it leaves the memory and returns the number of the specified run |
| LineIndex.ReadLineFromSpi | STM32L1_Code/spi_flash/spi_flash.c:271-295 | For any number, negative ones included, copies the bytes the record names and returns their number modulo 2^16 |
| LineIndex.RecordGoverns | STM32L1_Code/spi_flash/spi_flash.c:271-295 | The reader on any record, damaged ones included: the bytes from the start address to the end address modulo 2^32, with 17-bit addresses, and their number modulo 2^16 |
| LineIndex.LinesAlias | STM32L1_Code/spi_flash/spi_flash.c:271-295 | Numbers that differ by a multiple of 8192 are served alike |
| IndexCorrectness.SegmentIsQuiet | STM32L1_Code/spi_flash/spi_flash.c:341 | Marker soundness: after stuffing the loose mask fires at no byte pair of a segment but its marker |
| IndexCorrectness.ScanFindsSegments | STM32L1_Code/spi_flash/spi_flash.c:317-362 | The index of a stream of lines is one record per line, under its true number, and one for EOI |
| IndexCorrectness.IndexIsCorrect | STM32L1_Code/spi_flash/spi_flash.c:271-362 | The reader returns exactly the bytes of each line that is in memory, also where the image passes the top by up to the 256 free cells below the records |
| IndexCorrectness.SegmentServed | STM32L1_Code/spi_flash/spi_flash.c:271-362 | With any numbers whose records lie behind the scanner: each line is served from where it lies, and whole if it lies above the last record |
| IndexCorrectness.EndServed | STM32L1_Code/spi_flash/spi_flash.c:328-338 | The last record serves what belongs to no line, with the EOI marker |
| IndexCorrectness.NoOtherRecord | STM32L1_Code/spi_flash/spi_flash.c:317-362 | The index writes no other records: the cells of any other number hold what they held |
| Ep0.StepKeeps | STM32L1_Code/os/hal/src/usb.c:606-776 | Each step keeps: busy bit 0 of transmitting is set exactly in TX, WAITING_TX0, SENDING_STS, that of receiving exactly in RX, WAITING_STS; the device state fits the configuration; other endpoints are untouched but by reset |
| Ep0.EveryRunKeeps | STM32L1_Code/os/hal/src/usb.c:606-776 | The same at the end of every run |
| Ep0.HandlerPrepares | STM32L1_Code/os/hal/src/usb.c:82-215 | Every accepted request leaves a transfer within its buffer, and only SET_ADDRESS arms set_address |
| Ep0.SetupAtAnyTime | STM32L1_Code/os/hal/src/usb.c:606-678 | SETUP in any state, also in the middle of a transfer: what survives, the exact condition under which busy bits and states still agree, and when the start of the data stage is refused by a bit that is still set |
| Ep0.StatusStageRefused | STM32L1_Code/os/hal/src/usb.c:606-678 | A run in which it is refused: SET_CONFIGURATION before the reply to GET_CONFIGURATION has gone out starts no status packet, and the completion of the old packet ends the transfer |
| Ep0Requests.RefusedIff | STM32L1_Code/os/hal/src/usb.c:612-628 | A request is refused if and only if the hook declines it and it is none of the listed standard ones; then endpoint zero is stalled and nothing else happens |
| Ep0Requests.CompletionsStallIff | STM32L1_Code/os/hal/src/usb.c:726-776 | A completion stalls endpoint zero if and only if the machine does not wait for it or the status packet is not empty |
| Ep0Requests.RequestsChange | STM32L1_Code/os/hal/src/usb.c:82-204 | Status, configuration, address and device state change in no other request than their own |
| Ep0Requests.CompletionsChange | STM32L1_Code/os/hal/src/usb.c:690-776 | Completions change neither status nor configuration, and address and state only where set_address is called |
| Ep0Requests.OutDataStage | STM32L1_Code/os/hal/src/usb.c:656-676 | The OUT data stage: a receive of exactly min(n, wLength) bytes, then an empty status packet, then the callback; without data the status packet at once |
| Ep0Requests.InStatusStage | STM32L1_Code/os/hal/src/usb.c:757-765 | After the IN data stage an empty OUT packet ends the transfer and the callback is called |
| Ep0Requests.HookReply | STM32L1_Code/os/hal/src/usb.c:612-655 | A request the hook handles: the host reads the first min(n, wLength) bytes of the hook buffer, and then the hook callback is called |
| Ep0Requests.HookReceives | STM32L1_Code/os/hal/src/usb.c:656-676 | Data for the hook: min(n, wLength) bytes are received, acknowledged, and then the hook callback is called |
| Ep0Requests.StandardCallback | STM32L1_Code/os/hal/src/usb.c:82-204 | The standard handler arms a callback for SET_ADDRESS in late mode and for nothing else |
| Ep0Requests.EndpointHaltIsSet | STM32L1_Code/os/hal/src/usb.c:178-204 | SET_FEATURE and CLEAR_FEATURE of ENDPOINT_HALT stall and clear exactly the endpoint and direction named, endpoint zero excepted, and send the status packet |
| Ep0Requests.EndpointStatusIsRead | STM32L1_Code/os/hal/src/usb.c:153-177 | The host reads an endpoint status of 1 if it is stalled and 0 if it is active, and is refused if it is disabled |
| Ep0Requests.ZerosAreRead | STM32L1_Code/os/hal/src/usb.c:147-152 | GET_STATUS of an interface and SYNCH_FRAME of an endpoint read two zeros |
| Ep0Requests.ResetIsComplete | STM32L1_Code/os/hal/src/usb.c:575-594 | A bus reset at any moment leaves a ready device with no endpoint busy; the host then reads configuration 0 and status 0 |
| Ep0Transfers.CallbacksMatchTransfers | STM32L1_Code/os/hal/src/usb.c:690-776 | Over every run the callbacks invoked are those of the transfers whose last transaction, counted as USB 2.0 section 8.5.3 has them, is done: once each, in order, never earlier; in late mode the address is that of the last completed SET_ADDRESS |
| Ep0Transfers.AddressAfterStatus | STM32L1_Code/os/hal/src/usb.c:62-68 | Late mode, exactly: the address after a step is 0 after reset, the requested one after completing the status stage of SET_ADDRESS, and otherwise the one before |
| Ep0Transfers.AddressInSetup | STM32L1_Code/os/hal/src/usb.c:111-123 | Early mode, exactly: the address after a step is 0 after reset, the requested one in the SETUP step of SET_ADDRESS, and otherwise the one before |
| Ep0Transfers.SetAddressTakesEffect | STM32L1_Code/os/hal/src/usb.c:111-123 | So in late mode the old address is in force in the status stage and the new one after it |
| Ep0Transfers.EarlyAddressBeforeStatus | STM32L1_Code/os/hal/src/usb.c:111-123 | So in early mode the new address is in force, and the device selected, when the status stage starts |
| Ep0Transfers.HostReadsReply | STM32L1_Code/os/hal/src/usb.c:634-716 | For every reply, wLength and packet size the host reads exactly the first min(n, wLength) bytes with no packet left over; an empty reply to a host that wants data gives it no packet |
| Ep0Transfers.ZeroPacketIffNeeded | STM32L1_Code/os/hal/src/usb.c:690-705 | A host would wait without the zero-length packet exactly when the machine sends one |
| Ep0Transfers.InDataStage | STM32L1_Code/os/hal/src/usb.c:606-716 | The same from the SETUP step of a run to the status stage |
| Ep0Transfers.ConfigurationReadsBack | STM32L1_Code/os/hal/src/usb.c:133-146 | A configuration set is announced, is the one read back, and the device is active if it is not 0 and selected if it is |
| Ep0Transfers.WakeupReadsBack | STM32L1_Code/os/hal/src/usb.c:89-110 | Remote wakeup set or cleared is bit 1 of the status read, the other bits unchanged |
| Ep0Transfers.DescriptorIsRead | STM32L1_Code/os/hal/src/usb.c:124-132 | A descriptor request gives the host its first wLength bytes |
| UsbDriver.USBDriver.Ep0Setup | STM32L1_Code/os/hal/src/usb.c:606-678 | Takes exactly the SETUP step, also in the middle of a transfer, and keeps the state consistent; what that step does for each request is in `Ep0Requests` and `Ep0Transfers` |
| UsbDriver.USBDriver.Ep0In | STM32L1_Code/os/hal/src/usb.c:690-733 | Takes exactly the IN step, also where the busy bits disagree with the state |
| UsbDriver.USBDriver.Ep0Out | STM32L1_Code/os/hal/src/usb.c:745-776 | Takes exactly the OUT step, also where the busy bits disagree with the state |
| UsbDriver.USBDriver.Reset | STM32L1_Code/os/hal/src/usb.c:575-594 | Takes exactly the reset step, from any consistent state: ready, everything cleared, no endpoint busy; establishes the invariant |
| UsbDriver.USBDriver.StartTransmitI | STM32L1_Code/os/hal/src/usb.c:505-516 | Refuses a busy endpoint, else sets its bit and no other |
| UsbDriver.USBDriver.StartReceiveI | STM32L1_Code/os/hal/src/usb.c:478-489 | Refuses a busy endpoint, else sets its bit and no other |
| UsbDriver.USBDriver.HandleDevice | STM32L1_Code/os/hal/src/usb.c:86-146 | Takes exactly the device cases of the standard handler, which the read-back lemmas and `RequestsChange` are about |
| UsbDriver.USBDriver.HandleEndpoint | STM32L1_Code/os/hal/src/usb.c:147-204 | Takes exactly the endpoint cases of the standard handler, which `EndpointHaltIsSet`, `EndpointStatusIsRead` and `ZerosAreRead` are about |
| Crc7.CrcIsRemainder | STM32L1_Code/os/hal/src/mmc_spi.c:143-148 | For byte strings of any length and any 7-bit start value the table-driven result is the remainder of dividing by x^7 + x^3 + 1, the only one there is |
| Crc7.DivisionIsUnique | STM32L1_Code/os/hal/src/mmc_spi.c:71-97 | Quotient and remainder of that division are unique |
| Crc7.TableFeeds | STM32L1_Code/os/hal/src/mmc_spi.c:74-97 | Every table entry is below 128 and is what the bit-by-bit register holds after the bits of its index |
| Crc7.CalculateCrc | STM32L1_Code/os/hal/src/mmc_spi.c:143-148 | The loop computes that value; no index leaves the table |
| Crc7.HeaderIsCodeword | STM32L1_Code/os/hal/src/mmc_spi.c:187-202 | The first 47 bits of every command header are a multiple of the generator and the last bit is 1 |
| Crc7.HeaderFields | STM32L1_Code/os/hal/src/mmc_spi.c:193-199 | A header carries the command and the argument |
| Crc7.SendHeader | STM32L1_Code/os/hal/src/mmc_spi.c:187-202 | Builds exactly that header |
| CsdSlice.SliceIsField | STM32L1_Code/os/hal/src/mmcsd.c:62-78 | The slice is the bit field of the whole array read as one integer, for every array and range, except where the range ends on the last bit of a word and the shift is undefined |
| CsdSlice.CapacityCsd10 | STM32L1_Code/os/hal/src/mmcsd.c:93-102 | Defined if and only if READ_BL_LEN is at least 9, and then the CSD 1.0 capacity in 512-byte blocks without overflow |
| CsdSlice.CapacityCsd20 | STM32L1_Code/os/hal/src/mmcsd.c:103-105 | The CSD 2.0 capacity if and only if C_SIZE is not at its maximum, where it wraps to 0 |
| CsdSlice.CapacityReserved | STM32L1_Code/os/hal/src/mmcsd.c:106-108 | The reserved structures 2 and 3 give 0 |
| CsdSlice.StructureField | STM32L1_Code/os/hal/src/mmcsd.c:95 | The version switch looks at bits 127 and 126 |

## Left out

- LineIndex.GenerateLineIndex: promises nothing for a memory on which the loop never ends (`NeverEnds` gives such memories); where a record falls ahead of the scanner the run is specified step by step and not related to the scan. No capture with a buffer of 128 bytes or more and true numbers below 63 leads to that (`EveryCaptureLossy`).
- LineIndex.ReadLineFromSpi: the caller's buffer is assumed to be large enough; the disabled checksum is not modelled.
- EndToEnd.SecondCaptureServesFirst: a second capture that comes round to the records or to the first image is followed only as far as the memory (`FlashAgrees`).
- EndToEnd.LineServed: the image may pass the top of the memory by the 256 cells below the records; a longer one is followed only as far as the memory (`FlashAgrees`). It says when lines are served truly; the converse is stated for the memory only, in `StreamStoredIff`, because a stale index record could point at equal bytes by accident.
- Ep0Transfers.CallbacksMatchTransfers: runs in which a SETUP comes only between transfers; a SETUP in the middle of one is covered by the step result `SetupAtAnyTime` alone.
- Ep0.EveryRunKeeps: runs as above; other endpoints appear only as busy bits that EP0 never touches; `usbDisableEndpointsI` is not modelled.
- Crc7.CalculateCrc: start values below 128; larger ones would index outside the table.
- CsdSlice.SliceIsField: the signed shift `1 << 31` is taken as the bit pattern it gives in practice.
- SPI transport (select, opcodes, sleeps, the bus mutex): the memory is a byte array behind a 17-bit address.
- Camera, FIFO and VSYNC handling: the strips are a parameter of `CaptureImage`.
- RGB paths, `subsample`, the header writers and `generate_jpeg_header.c`: compiled out or constant.
- UART thread and simulator: thin input and output around the reader.
- USB low-level driver, application hooks and event callbacks: what they are asked is logged, what they do is not modelled.
- A low-level IN transaction is taken to send its data in full packets and one last packet, without a zero-length packet of its own.
- MMC/SD connect and retry loops, block reads and writes, and the other ChibiOS drivers: flags around low-level code.
- `getNextImageByte`, shell, memory streams, RTC conversion: unused or only easy members.
