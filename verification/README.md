# Verification of the QR encoder and the broadcast pool

This project models two parts of the repository and proves properties of them with Dafny 4.11.
`dafny verify dfyconfig.toml` checks the whole project.

**The QR encoder** (`sparrow-frigate/web/lib/qrcode-generator.js`), from segments to modules, and its GIF and
base64 writers. The code is modelled as it is written: tables, buffers and module grids are arrays and fields that
methods update in place. Each method is proved against a function, and the lemmas are about those functions:
GF(256) and its generator, Reed-Solomon codewords and their minimum distance, the bit buffer, segments and padding,
block interleaving, the zig-zag placement, and a reader that walks all of it back to the segments. The LZW coder is
proved against an ordinary decoder whose dictionary lags one entry behind, base64 against its own decoder.

**The broadcast pool** (`sparrow-broadcast-pool/src`): the session's line buffer, the virtual mempool and the wallet
answers made from it, the status text, the median time past, and the scheduler. The scheduler is a state machine
(`Machine`) whose steps are single reads and writes of the table. Each loop keeps the rows it fetched, so that it may
write on a view that is out of date; the loops, the ingest, restarts, growing chain, clock and the user's commands
interleave freely. `PoolManager` holds the passes of the loops as the code runs them, each with what it makes of every row of
the table, and proved to be a run of that machine. `SendSafety`, `Liveness`, `PriceTrigger`, `LateCommands` and
`WaitsForUser` prove what holds in every run.

Where an expected property does not hold of the code, the code is kept, a lemma shows it at an input, and another lemma
says exactly when it holds:

- The gate opens when the median time past equals the nLockTime, where the network asks for a greater one
  (`Locktime.OpensTooEarly`). On a current reading gate and network differ exactly there, and for the lock 500,000,000,
  which the gate takes for a height (`Locktime.GateAgainstNetwork`). So everything sent is final for the network
  except exactly at equality (`SendSafety.SendsAreGated`); the refusal is then tried again.
- A block header of 68 to 71 bytes passes the length check and is sliced out of range (`MedianTime.ShortHeaderPanics`).
  The code panics exactly when such a header comes before any refusal of the server (`MedianTime.GetMedianTimePast`,
  `MedianTime.OneOutcome`).
- The GIF end code is written without a width step, so a decoder that widens on time may not find it. The pixels are
  always recovered, and the end code is lost exactly when the raster has eleven codes (`GifRaster.RasterDecodes`).
  Eleven codes cover at most 66 pixels (`RasterLength.ElevenCodesAreShort`), so every image the encoder draws, the
  smallest of 441 pixels, keeps its end code (`GifRaster.LargeRasterDecodes`). An image of 66 zeros, below the smallest
  symbol, loses it (`GifRaster.EndCodeCanBeLost`).
- Two different histories can have the same status text (`StatusHash.ColonsConfuse`). Histories of colon-free hashes
  cannot confuse each other (`StatusHash.StatusTextFaithful`); among all histories, one shares its text exactly when it
  has two or more entries or its only hash reads as two entries in order (`StatusHash.SharesTextExactly`).
- A removed transaction comes back to the wallet's view when the background ingest of its broadcast stores it later
  (`Visibility.RemovedComesBack`). A removal is final exactly when no such ingest is outstanding and no other row of the
  transaction is left that a restart would load (`Visibility.RemovalIsFinalExactly`).
- An acknowledged transaction is lost when the daemon restarts before the background ingest inserts its row
  (`Visibility.AckedIsLost`). A restart leaves it visible exactly when a row of it is pending or scheduled
  (`Visibility.RestartKeepsExactly`).
- The unconfirmed balance counts a pending output that the server already lists, while listunspent does not
  (`WalletAnswers.ListedOutputCountsTwice`); the two agree exactly when no pending output of value is listed
  (`WalletAnswers.BalanceMatchesUtxos`).
- A price trigger set while a loop holds the row comes too late (`PriceTrigger.ArmingTooLate`); a row waits for its
  price exactly when no loop grabbed it before (`PriceTrigger.WaitsExactly`). Deleting a transaction comes too late
  exactly when a loop had it on its way out (`LateCommands.DiscardTooLate`, `LateCommands.DiscardExactly`).
- Putting a transaction off fails in two ways: a loop had it on its way out (`LateCommands.ScheduleAtTooLate`), or it had
  no schedule, so that the command sets no deferral, and a loop was about to mark it due (`LateCommands.PutOffAndMarked`).
  It waits for its time exactly when neither holds (`LateCommands.ScheduleAtExactly`).
- Failed transactions are requeued from one page of the 1000 newest. A row is on no page exactly when 1000 failed rows
  are newer, and on every page exactly when at most 1000 are no older (`Liveness.WhoIsShown`); behind such a crowd
  a transaction that deserves a retry gets none (`Liveness.CrowdedOut`).

## Model

| member | source | states |
|---|---|---|
| GaloisField.AlphaHasOrder255 | sparrow-frigate/web/lib/qrcode-generator.js:1134-1149 | Multiplying n times by alpha gives back 1 exactly when 255 divides n |
| GaloisField.ExpInjective | sparrow-frigate/web/lib/qrcode-generator.js:1134-1149 | The 255 powers of alpha are pairwise different |
| GaloisField.EveryByteHasALog | sparrow-frigate/web/lib/qrcode-generator.js:1147-1149 | Every nonzero byte is a power of alpha, so that every slot of the log table is filled |
| GaloisField.MulAssociates | sparrow-frigate/web/lib/qrcode-generator.js:1216 | The product taken through logarithms is associative |
| GaloisField.MulDistributes | sparrow-frigate/web/lib/qrcode-generator.js:1216 | It distributes over XOR, so that bytes form a field |
| GaloisField.MulAlpha | sparrow-frigate/web/lib/qrcode-generator.js:1138-1146 | Multiplying by alpha is a shift and a reduction, which with the laws fixes the product |
| GaloisField.ReducingPolynomial | sparrow-frigate/web/lib/qrcode-generator.js:1141-1146 | The table recurrence over steps 4, 5, 6 and 8 is multiplication by alpha |
| QRMath.ExpTableRecurrence | sparrow-frigate/web/lib/qrcode-generator.js:1134-1149 | The table of powers satisfies the recurrence that fills it |
| QRMath.Tables.FillExpTable | sparrow-frigate/web/lib/qrcode-generator.js:1138-1146 | Filling by the recurrence produces the one table that satisfies it |
| QRMath.Tables.FillLogTable | sparrow-frigate/web/lib/qrcode-generator.js:1147-1149 | The log table inverts the table of powers |
| QRMath.Tables.Glog | sparrow-frigate/web/lib/qrcode-generator.js:1153-1160 | The discrete logarithm; zero throws |
| QRMath.Tables.Gexp | sparrow-frigate/web/lib/qrcode-generator.js:1162-1173 | alpha to any integer power, negative ones included |
| Polynomial.Make | sparrow-frigate/web/lib/qrcode-generator.js:1182-1200 | A polynomial without leading zeros, shifted |
| Polynomial.Multiply | sparrow-frigate/web/lib/qrcode-generator.js:1210-1221 | The product of polynomials, or a throw exactly when a coefficient is zero |
| Polynomial.EvalProduct | sparrow-frigate/web/lib/qrcode-generator.js:1210-1221 | The product's value is the product of the values at every field element |
| ReedSolomon.GetErrorCorrectPolynomial | sparrow-frigate/web/lib/qrcode-generator.js:966-972 | Repeated multiply computes the generator and does not throw for lengths up to 255 |
| ReedSolomon.GeneratorIsRootProduct | sparrow-frigate/web/lib/qrcode-generator.js:966-972 | At every x the generator is the product of the (x + alpha^i) |
| ReedSolomon.GeneratorHasNoZeros | sparrow-frigate/web/lib/qrcode-generator.js:966-972 | For every length below 255 all coefficients of the generator are nonzero |
| ReedSolomon.VandermondeKernel | sparrow-frigate/web/lib/qrcode-generator.js:966-972 | Distinct locators with n vanishing power sums have only zero coefficients, for at most n of them |
| ReedSolomon.FewNonzeroMeansZero | sparrow-frigate/web/lib/qrcode-generator.js:966-972 | A polynomial of degree below 255 with n consecutive roots has no or more than n nonzero coefficients |
| ReedSolomon.Mod | sparrow-frigate/web/lib/qrcode-generator.js:1223-1242 | The recursion ends in the remainder, or throws exactly when a logarithm of zero is asked for |
| ReedSolomon.RemainderKeepsRoots | sparrow-frigate/web/lib/qrcode-generator.js:1223-1242 | A polynomial and its remainder agree at every root of the divisor |
| ReedSolomon.ErrorCorrection | sparrow-frigate/web/lib/qrcode-generator.js:292-300 | One block's error correction bytes; no step throws for lengths up to 254 |
| ReedSolomon.CodewordVanishes | sparrow-frigate/web/lib/qrcode-generator.js:287-300 | Data followed by its error correction bytes is zero at alpha^0 .. alpha^(n-1) |
| ReedSolomon.VanishingMeansCodeword | sparrow-frigate/web/lib/qrcode-generator.js:287-300 | A word of at most 255 bytes is a codeword if and only if it is zero at those points |
| ReedSolomon.MinimumDistance | sparrow-frigate/web/lib/qrcode-generator.js:287-300 | Different codewords differ in more than n bytes |
| ReedSolomon.ErrorsCorrectable | sparrow-frigate/web/lib/qrcode-generator.js:287-300 | Within n/2 errors of a word there is at most one codeword |
| BitBuffer.QrBitBuffer.PutBit | sparrow-frigate/web/lib/qrcode-generator.js:1586-1599 | Appends one bit and keeps the unused bits zero |
| BitBuffer.QrBitBuffer.Put | sparrow-frigate/web/lib/qrcode-generator.js:1576-1580 | Appends the low bits of a number, most significant first |
| BitBuffer.QrBitBuffer.GetAt | sparrow-frigate/web/lib/qrcode-generator.js:1571-1574 | Reads back the bit that was put |
| Bits.BytesBitsOfBitsBytes | sparrow-frigate/web/lib/qrcode-generator.js:1571-1599 | Packing bits into bytes and unpacking them is the identity |
| Segments.WriteNumber | sparrow-frigate/web/lib/qrcode-generator.js:1622-1640 | Appends the groups of three, two and one digits |
| Segments.NumberGroups | sparrow-frigate/web/lib/qrcode-generator.js:1622-1658 | Digits are decimal, and three, two or one of them take ten, seven or four bits |
| Segments.NumberRoundTrip | sparrow-frigate/web/lib/qrcode-generator.js:1607-1658 | Every digit string is read back from its length and bits, whatever follows |
| Segments.WriteAlphaNum | sparrow-frigate/web/lib/qrcode-generator.js:1679-1696 | Appends the pairs and the last character, or throws for a character without a code |
| Segments.CodesAreTable | sparrow-frigate/web/lib/qrcode-generator.js:1697-1721 | A character has a code if and only if it is in the table of 45, and the code is its place there |
| Segments.PairsOfCodes | sparrow-frigate/web/lib/qrcode-generator.js:1679-1696 | A pair of codes a and b is written as 45a + b in eleven bits, a last one in six |
| Segments.AlphaNumRoundTrip | sparrow-frigate/web/lib/qrcode-generator.js:1664-1721 | Every alphanumeric string is read back from its length and bits |
| Segments.WriteBytes | sparrow-frigate/web/lib/qrcode-generator.js:1743-1747 | Appends each byte in eight bits |
| Segments.BytesRoundTrip | sparrow-frigate/web/lib/qrcode-generator.js:1727-1750 | Every byte string is read back |
| CreateData.WriteSegments | sparrow-frigate/web/lib/qrcode-generator.js:338-343 | Mode, length and data of each segment in order, or the error of the first segment that has one |
| CreateData.HeaderIsStandard | sparrow-frigate/web/lib/qrcode-generator.js:974-1016 | For versions 1 to 40 the four bits of each mode and the width of each character count |
| CreateData.FillBuffer | sparrow-frigate/web/lib/qrcode-generator.js:332-382 | When nothing throws the buffer is the segments and the filler, exactly 8 bits per data codeword; else the bad version, the illegal character or the overflow, whichever is looked at first |
| CreateData.Pad | sparrow-frigate/web/lib/qrcode-generator.js:359-381 | Truncated terminator, zeros to a byte boundary, then 0xEC and 0x11 in turn |
| CreateData.FillerIsStandard | sparrow-frigate/web/lib/qrcode-generator.js:359-381 | The filler bit by bit: up to four zeros, zeros to the next byte, then 11101100 and 00010001 in turn to the end |
| CreateData.SegmentsRoundTrip | sparrow-frigate/web/lib/qrcode-generator.js:332-384 | Parsing the filled buffer gives the segments and stops at the terminator or the end |
| CreateData.CapacityBoundsCounts | sparrow-frigate/web/lib/qrcode-generator.js:974-1016 | A segment list that fits the symbol has lengths that fit their count fields |
| CreateBytes.CreateBytes | sparrow-frigate/web/lib/qrcode-generator.js:267-330 | Blocks, error correction and both interleavings give the final sequence; no step throws |
| CreateBytes.CodewordsLength | sparrow-frigate/web/lib/qrcode-generator.js:302-327 | Exactly the total number of codewords is filled |
| CreateBytes.Interleave | sparrow-frigate/web/lib/qrcode-generator.js:309-327 | The nested loops write the column-wise interleaving |
| CreateBytes.InterleavedHolds | sparrow-frigate/web/lib/qrcode-generator.js:309-327 | Every byte of every block is found at its position, for blocks of unequal sizes |
| CreateBytes.PositionInjective | sparrow-frigate/web/lib/qrcode-generator.js:309-327 | No two bytes share a position |
| CreateBytes.PositionSurjective | sparrow-frigate/web/lib/qrcode-generator.js:309-327 | Every position is taken, so that interleaving is a bijection |
| CreateBytes.ColumnMajorExactly | sparrow-frigate/web/lib/qrcode-generator.js:309-327 | A byte comes before another one if and only if its index in its block is smaller, or equal and its block is earlier |
| CreateBytes.CodewordAt | sparrow-frigate/web/lib/qrcode-generator.js:278-327 | Which data byte or error correction byte each slot holds: first all data, then all error correction |
| CreateBytes.DataRecovered | sparrow-frigate/web/lib/qrcode-generator.js:267-330 | De-interleaving the data positions gives the data bytes back |
| CreateBytes.BlockIsCodeword | sparrow-frigate/web/lib/qrcode-generator.js:278-327 | Each de-interleaved block is a codeword of its code |
| MapData.VisitedOnce | sparrow-frigate/web/lib/qrcode-generator.js:216-265 | The zig-zag reaches every module outside column 6, at a step given in closed form |
| MapData.StepLands | sparrow-frigate/web/lib/qrcode-generator.js:216-265 | Every step lands on such a module, and no other step lands on the same one |
| MapData.ZigZag | sparrow-frigate/web/lib/qrcode-generator.js:216-265 | The path starts at the bottom right; each step in terms of the one before: left, then right and one row on, upwards first, turning at the edges, without column 6 |
| MapData.MaskExactly | sparrow-frigate/web/lib/qrcode-generator.js:940-964 | Which modules each of the eight masks inverts, from the remainders of row and column |
| MapData.PlaceModule | sparrow-frigate/web/lib/qrcode-generator.js:230-252 | One module: kept if set, else the next data bit XOR the mask |
| MapData.MapData | sparrow-frigate/web/lib/qrcode-generator.js:216-265 | Set modules stay, and the k-th free module gets data bit k XOR mask; an unknown mask throws |
| MapData.FilledAroundPatterns | sparrow-frigate/web/lib/qrcode-generator.js:230-252 | Set modules and column 6 are left as they were and every other module is filled |
| MapData.ReadBackIsData | sparrow-frigate/web/lib/qrcode-generator.js:216-265 | Walking the path and unmasking recovers the data bits in order, and light modules after them |
| Symbol.CreateCodewords | sparrow-frigate/web/lib/qrcode-generator.js:332-384 | createData as a whole: the codewords, or which error it throws |
| Symbol.SymbolRoundTrip | sparrow-frigate/web/lib/qrcode-generator.js:216-384 | For every version, block list and mask, reading the placed symbol gives exactly the encoded segments |
| Symbol.DamagedBlockRecoverable | sparrow-frigate/web/lib/qrcode-generator.js:287-300 | A damaged block has one codeword within half its error correction bytes: its own |
| Lzw.EmitKeepsStep | sparrow-frigate/web/lib/qrcode-generator.js:2151-2174 | Writing a code keeps coder and lagging decoder in step, in dictionary and in width |
| Lzw.DecodeFollowsEncode | sparrow-frigate/web/lib/qrcode-generator.js:2127-2187 | The decoder turns the codes of any pixels back into them, at the widths it expects |
| Lzw.RasterCodesFit | sparrow-frigate/web/lib/qrcode-generator.js:2127-2187 | For every image each code written fits its width, and the widths are 3 to 12 |
| LzwWords.RasterIsWords | sparrow-frigate/web/lib/qrcode-generator.js:2127-2187 | The image is cut into words, each a pixel or an earlier word and the first pixel of the one after it, and the codes name them at the widths of the growing table, between clear code 4 and end code 5 |
| Lzw.RasterRoundTrip | sparrow-frigate/web/lib/qrcode-generator.js:2127-2187 | The padded raster decodes to the pixels, and whether the end code is found |
| GifRaster.BitOutputStream.Write | sparrow-frigate/web/lib/qrcode-generator.js:2100-2116 | Packs a code least significant bit first; throws exactly when it does not fit its width |
| GifRaster.BitOutputStream.Flush | sparrow-frigate/web/lib/qrcode-generator.js:2118-2122 | Completes the last byte with zeros |
| GifRaster.LzwTable.Add | sparrow-frigate/web/lib/qrcode-generator.js:2196-2202 | Numbers strings in order; a string added twice throws |
| GifRaster.GetLZWRaster | sparrow-frigate/web/lib/qrcode-generator.js:2127-2187 | Writes exactly the raster's bits and never throws |
| RasterLength.LosesExactly | sparrow-frigate/web/lib/qrcode-generator.js:2164-2184 | The last code widens the decoder and the bits fill whole bytes if and only if the raster has eleven codes |
| RasterLength.ElevenCodesAreShort | sparrow-frigate/web/lib/qrcode-generator.js:2153-2179 | An image of eleven codes has at most 66 pixels |
| GifRaster.RasterDecodes | sparrow-frigate/web/lib/qrcode-generator.js:2127-2187 | The written bytes decode to the pixels for every nonempty image, and the end code is found unless the raster has eleven codes |
| GifRaster.LargeRasterDecodes | sparrow-frigate/web/lib/qrcode-generator.js:2205-2228 | Every image of more than 66 pixels, and so every one drawn, decodes with its end code |
| GifRaster.EndCodeCanBeLost | sparrow-frigate/web/lib/qrcode-generator.js:2179-2183 | The bound is sharp: 66 zeros, fewer pixels than any symbol, decode without the end code |
| Base64.EncodeStream.WriteByte | sparrow-frigate/web/lib/qrcode-generator.js:1909-1919 | The accumulator's low bits are the bits not spelled yet, whatever its high bits hold |
| Base64.EncodeStream.Flush | sparrow-frigate/web/lib/qrcode-generator.js:1921-1938 | The last group and the padding complete the encoding |
| Base64.EncodedIsStandard | sparrow-frigate/web/lib/qrcode-generator.js:1892-1938 | Each three bytes, as a number of 24 bits, are four digits to the base 64 in the alphabet of RFC 4648; the last one or two bytes with zero bits and padding |
| Base64.DecodeStream.ReadNext | sparrow-frigate/web/lib/qrcode-generator.js:1958-1987 | One read: a byte, the end, a premature end or a bad character |
| Base64.ReadMeans | sparrow-frigate/web/lib/qrcode-generator.js:1958-1987 | What ends a read and that white space is skipped |
| Base64.ReadRefuses | sparrow-frigate/web/lib/qrcode-generator.js:1989-2006 | Printable characters outside the alphabet are refused |
| Base64.Base64RoundTrip | sparrow-frigate/web/lib/qrcode-generator.js:1879-2006 | For every byte string, decoding the encoding gives the bytes and then the end |
| LineBuffer.ClientBuffer.PopClientLine | sparrow-broadcast-pool/src/electrum_server/mod.rs:708-752 | Takes the first broadcast line, else the first line, and leaves the rest in order |
| LineBuffer.Drain | sparrow-broadcast-pool/src/electrum_server/mod.rs:1946-1962 | Popping until empty gives all broadcasts in order, then all other lines in order; the tail stays |
| LineBuffer.Session | sparrow-broadcast-pool/src/electrum_server/mod.rs:1938-1962 | The loop over reads of any sizes: what each read completes is processed broadcasts first |
| LineBuffer.LinesAreStretches | sparrow-broadcast-pool/src/electrum_server/mod.rs:708-752 | The lines are the stretches between bytes 0x0a and make up the buffer with the tail |
| LineBuffer.ReadsCompleteLines | sparrow-broadcast-pool/src/electrum_server/mod.rs:1938-1962 | However the stream is cut, the reads complete exactly its lines, in order |
| LineBuffer.SessionProcessesEveryLine | sparrow-broadcast-pool/src/electrum_server/mod.rs:1938-1962 | Every line is processed once; broadcasts keep their order and so do the others |
| MedianTime.GetMedianTimePast | sparrow-broadcast-pool/src/rpc/electrum.rs:192-214 | Without a height a failure; else the outcome of the window of answers: the median of the readable headers, a failure, or a panic, and exactly when each |
| MedianTime.OneOutcome | sparrow-broadcast-pool/src/rpc/electrum.rs:196-212 | A window has one outcome, so that the cases of the contract are equivalences |
| MedianTime.OneHeader | sparrow-broadcast-pool/src/rpc/electrum.rs:201-206 | A header alone, by its length: unread, a panic, or the time in its bytes 68 to 71, least significant first |
| MedianTime.ShortHeaderPanics | sparrow-broadcast-pool/src/rpc/electrum.rs:202-203 | A header of 70 bytes passes the check and panics |
| MedianTime.Sort | sparrow-broadcast-pool/src/rpc/electrum.rs:208 | A sorted permutation |
| MedianTime.WindowIsLastTimes | sparrow-broadcast-pool/src/rpc/electrum.rs:193-207 | On whole headers the window asked for is the last up to eleven blocks |
| MedianTime.CodeReadsMedian | sparrow-broadcast-pool/src/rpc/electrum.rs:192-214 | On a server's 80-byte headers, with each block's time in bytes 68 to 71, least significant first, the code returns the chain's median time past and nothing else |
| MedianTime.MedianStep | sparrow-broadcast-pool/src/rpc/electrum.rs:192-214 | A block later than the median never lowers it, also while the window grows |
| MedianTime.MedianMonotone | sparrow-broadcast-pool/src/rpc/electrum.rs:192-214 | The median time past never decreases as a valid chain grows |
| StatusHash.ComputeStatusHash | sparrow-broadcast-pool/src/pool/virtual_mempool.rs:41-66 | Digests the printed sorted history; none for an empty one |
| StatusHash.StatusTextIsSorted | sparrow-broadcast-pool/src/pool/virtual_mempool.rs:46-62 | The text is that of the entries sorted by height and then hash, each as hash and height with a colon behind both |
| StatusHash.StringLeIsLexicographic | sparrow-broadcast-pool/src/pool/virtual_mempool.rs:47-53 | Hashes compare by their first difference |
| StatusHash.DecimalReads | sparrow-broadcast-pool/src/pool/virtual_mempool.rs:59 | A printed height reads back as the height, without leading zeros |
| StatusHash.StatusTextFaithful | sparrow-broadcast-pool/src/pool/virtual_mempool.rs:41-66 | Colon-free histories have the same text if and only if they are the same multiset of hash and height |
| StatusHash.SharesTextExactly | sparrow-broadcast-pool/src/pool/virtual_mempool.rs:41-66 | A history shares its text with another one if and only if it has two entries or its only hash reads as two in order |
| StatusHash.ColonsConfuse | sparrow-broadcast-pool/src/pool/virtual_mempool.rs:56-62 | Two different histories with a colon in a hash have the same text |
| PendingPool.PendingTxs.Merge | sparrow-broadcast-pool/src/pool/manager.rs:1018-1043 | Adds the new scripthashes, each once and behind those there were, to an entry that is still there |
| PendingPool.PendingTxs.TxidsFor | sparrow-broadcast-pool/src/pool/manager.rs:1134-1144 | Exactly the transactions that touch a scripthash, each once |
| PendingPool.PendingTxs.UtxosFor | sparrow-broadcast-pool/src/pool/manager.rs:1146-1160 | Exactly the outputs to it of indexed transactions; every order of the map lists the same ones |
| PendingPool.PendingTxs.UnconfirmedValue | sparrow-broadcast-pool/src/pool/manager.rs:1162-1176 | The 64-bit total of those outputs, the same in every order of the map |
| PendingPool.OrderIrrelevant | sparrow-broadcast-pool/src/pool/manager.rs:1162-1176 | The total is the same in every order of the map |
| WalletAnswers.InjectListunspent | sparrow-broadcast-pool/src/pool/virtual_mempool.rs:92-117 | The server's list, then exactly the pending outputs it does not list, with height 0 |
| WalletAnswers.BalanceGains | sparrow-broadcast-pool/src/pool/virtual_mempool.rs:70-90 | What the balance becomes, with missing fields as 0; without pending value it is unchanged |
| WalletAnswers.InjectionIsClean | sparrow-broadcast-pool/src/pool/virtual_mempool.rs:92-117 | After any store, merge and remove: what is added is new and unrepeated, and injecting again adds nothing |
| WalletAnswers.BalanceMatchesUtxos | sparrow-broadcast-pool/src/pool/virtual_mempool.rs:70-90 | The satoshis added to the balance are those of the outputs added to listunspent, if and only if no pending output of value is already listed |
| WalletAnswers.ListedOutputCountsTwice | sparrow-broadcast-pool/src/pool/virtual_mempool.rs:70-117 | An index and a server list for which the balance gains 5 and listunspent nothing |
| Visibility.Session.InterceptBroadcast | sparrow-broadcast-pool/src/electrum_server/mod.rs:1322-1355 | A transaction is stored and remembered before it is acknowledged; one that does not decode changes nothing |
| Visibility.Session.Poll | sparrow-broadcast-pool/src/electrum_server/mod.rs:980-1013 | The answer's entries are the indexed transactions that touch the scripthash and the session's latest, each once, the latest first, with height 0; without any the server is asked |
| Visibility.PollListsExactly | sparrow-broadcast-pool/src/electrum_server/mod.rs:1073-1100 | When a poll lists a transaction, in both directions |
| Visibility.AckedStaysVisible | sparrow-broadcast-pool/src/electrum_server/mod.rs:1322-1355 | In every interleaving an acknowledged broadcast is listed on its outputs' scripthashes until it is removed or a restart finds no pending or scheduled row of it, and everywhere for the session that sent it last |
| Visibility.RestartKeepsExactly | sparrow-broadcast-pool/src/pool/manager.rs:274-328 | After a restart polls on an output's scripthash list a transaction if and only if a row of it was pending or scheduled |
| Visibility.AckedIsLost | sparrow-broadcast-pool/src/electrum_server/mod.rs:1342-1362 | A run in which a restart before the background insert loses an acknowledged transaction |
| Visibility.RemovalIsFinalExactly | sparrow-broadcast-pool/src/electrum_server/mod.rs:1358-1397 | A removed transaction stays out, across restarts too, without a new broadcast if and only if no background ingest of it is outstanding and no other row of it is left |
| Visibility.RemovedComesBack | sparrow-broadcast-pool/src/electrum_server/mod.rs:2246-2276 | A run from an empty index in which a broadcast's own background ingest brings the removed transaction back |
| Ingest.HandleBroadcast | sparrow-broadcast-pool/src/electrum_server/mod.rs:2169-2298 | The row a wallet broadcast leaves: mode, status and time by source, nLockTime and configuration; a run of the machine |
| WaitsForUser.NothingWithoutTheUser | sparrow-broadcast-pool/src/electrum_server/mod.rs:2100-2108 | In every run without user commands a Liana transaction, or a Sparrow one without an nLockTime, stays pending and is never sent |
| Database.Database.RecordBroadcastMiss | sparrow-broadcast-pool/src/db/mod.rs:271-293 | The first miss is kept, and the first original schedule |
| Database.Database.Select | sparrow-broadcast-pool/src/db/mod.rs:251-269 | Every row that meets the condition of a query, once |
| Database.Database.ListBroadcastTxs | sparrow-broadcast-pool/src/db/mod.rs:161-187 | A page of the newest rows of a status |
| Database.OnPage | sparrow-broadcast-pool/src/db/mod.rs:161-187 | What a given page surely shows and surely leaves out |
| Database.OnPageExactly | sparrow-broadcast-pool/src/db/mod.rs:161-187 | Which rows every page shows and which no page shows, in both directions |
| Locktime.MtpCache.Read | sparrow-broadcast-pool/src/pool/manager.rs:615-629 | A value at most ten seconds old, else a new one; a failed fetch is reported |
| Locktime.MtpCache.IsLocktimeSatisfied | sparrow-broadcast-pool/src/pool/manager.rs:540-555 | Open, shut or unreadable, by timestamp or by height |
| Locktime.CacheIsSafe | sparrow-broadcast-pool/src/pool/manager.rs:615-629 | An older cached value never opens a gate early; a fresh one opens it exactly when the chain does |
| Locktime.GateMeansMet | sparrow-broadcast-pool/src/pool/manager.rs:540-555 | A gate opened by any past view of the chain would be opened by the whole chain |
| Locktime.MetForever | sparrow-broadcast-pool/src/pool/manager.rs:540-555 | A lock that opens the gate keeps it open as the chain grows |
| Locktime.GateAgainstNetwork | sparrow-broadcast-pool/src/pool/manager.rs:546-553 | Gate and network rule differ exactly when the median time past equals the lock, and for the lock 500,000,000 |
| Locktime.OpensTooEarly | sparrow-broadcast-pool/src/pool/manager.rs:546-548 | A chain and a lock for which the gate opens and the network refuses |
| Locktime.CodeSeesTime | sparrow-broadcast-pool/src/rpc/electrum.rs:192-214 | What the code returns on an honest server's headers is what the machine takes for a reading |
| Refusals.RefusedIsTriedAgain | sparrow-broadcast-pool/src/pool/manager.rs:520-538 | Every refusal of an existing backend, of a locked transaction in valid hex, has an error text that is retried |
| Refusals.NonFinalIsRetriable | sparrow-broadcast-pool/src/rpc/electrum.rs:53-60 | The text for a non-final transaction is recognised as retriable |
| Refusals.WordsAreRetriable | sparrow-broadcast-pool/src/pool/manager.rs:1207-1214 | An error with one of five words in it, in any case, is retriable |
| Refusals.FinalRefusals | sparrow-broadcast-pool/src/pool/manager.rs:1207-1214 | Refusals for spent inputs and for dust are not |
| Refusals.NonFinalText | sparrow-broadcast-pool/src/rpc/electrum.rs:57 | The text of a refusal for a lock that is not met |
| Refusals.IndexerText | sparrow-broadcast-pool/src/rpc/electrum.rs:59 | The text of any other refusal of the indexer |
| Refusals.WhoAnswers | sparrow-broadcast-pool/src/pool/manager.rs:228-246 | The indexer's acceptance, else the node's answer, else the indexer's refusal in its own words |
| PoolManager.PoolManager.MarkPendingDue | sparrow-broadcast-pool/src/pool/manager.rs:576-590 | The first part of a tick: which rows are marked due, and that no other row changes; a run of the machine |
| PoolManager.PoolManager.RequeueRetriableFailures | sparrow-broadcast-pool/src/pool/manager.rs:520-538 | Of a page of the 1000 newest failed rows those with an error worth a retry are scheduled again, and no other row changes; a run |
| PoolManager.PoolManager.RequeueAtStartup | sparrow-broadcast-pool/src/main.rs:423-429 | The same when the daemon starts |
| PoolManager.PoolManager.IsTxDueForBroadcast | sparrow-broadcast-pool/src/pool/manager.rs:492-518 | Due: not waiting for a price, past its time, and the gate open |
| PoolManager.PoolManager.SendDue | sparrow-broadcast-pool/src/pool/manager.rs:416-487 | One transaction: sent, missed, deferred, failed, or the end of the tick |
| PoolManager.PoolManager.BroadcastDueTransactions | sparrow-broadcast-pool/src/pool/manager.rs:403-490 | What becomes of every row, from the backends' own answers and readings through the cache: sent, missed, failed for good or left; a run that carries those answers |
| PoolManager.PoolManager.RunSchedulerTick | sparrow-broadcast-pool/src/pool/manager.rs:558-597 | A tick is a run of the machine that carries the backends' answers and readings, complete unless a gate is unreadable; unhealthy, nothing changes |
| PoolManager.PoolManager.MonitorBlockHeight | sparrow-broadcast-pool/src/pool/scheduler.rs:73-110 | Exactly the pending block-locked rows whose height is reached become due; a run |
| PoolManager.PoolManager.RebroadcastPending | sparrow-broadcast-pool/src/pool/manager.rs:642-670 | Exactly the rows that are out, unconfirmed and not sent within the interval are sent again, and touched if accepted; a run |
| PoolManager.PoolManager.CheckConfirmations | sparrow-broadcast-pool/src/pool/manager.rs:672-724 | Of a page of 1000 rows that are out, those the node sees in a block are confirmed at its height; a run |
| PoolManager.PoolManager.CheckPriceTriggers | sparrow-broadcast-pool/src/pool/manager.rs:186-222 | Exactly the waiting rows whose price is met become due, and are counted; a stale snapshot is skipped; a run |
| PoolManager.PoolManager.ScheduleByPrice | sparrow-broadcast-pool/src/pool/manager.rs:140-184 | Which rows can wait for a price, and what becomes of them; a step of the machine |
| PoolManager.PoolManager.ScheduleAt | sparrow-broadcast-pool/src/pool/manager.rs:100-138 | Only in the future and not before a timestamp lock; when a deferral is set; a step of the machine |
| SendSafety.KeepsSafe | sparrow-broadcast-pool/src/pool/manager.rs:403-518 | Every step, the user's included, keeps the gate's condition for every broadcast row and for every row about to be sent |
| SendSafety.SendsAreGated | sparrow-broadcast-pool/src/pool/manager.rs:403-518 | In every run each send was a due, scheduled row of the active network when its tick fetched it, and every send and resend has an nLockTime that is final for the network, then and ever after, except exactly while the median time past equals it |
| SendSafety.KeepsOwned | sparrow-broadcast-pool/src/pool/scheduler.rs:235-288 | Without the user no step makes another loop's fetched rows out of date |
| SendSafety.SentFromTable | sparrow-broadcast-pool/src/pool/manager.rs:462-470 | Without the user what is sent is a scheduled row at that moment, and what is resent is out |
| SendSafety.StaysOut | sparrow-broadcast-pool/src/db/mod.rs:216-249 | Without the user a transaction that is out stays out |
| Liveness.TickSends | sparrow-broadcast-pool/src/pool/manager.rs:558-597 | One tick whose readings open the gate sends a locked transaction that is ready, whatever the other loops do meanwhile |
| Liveness.AnsweredTickIsHealthy | sparrow-broadcast-pool/src/pool/manager.rs:540-555 | Readings from the tick's own chain or later open the gate for a lock that chain meets |
| Liveness.SparrowNeedsNoUser | sparrow-broadcast-pool/src/electrum_server/mod.rs:2095-2126 | Every Sparrow transaction with a lock other than 500,000,000 goes out in the first answered tick after the chain meets its lock, whatever refusals came before |
| Liveness.SeenDuring | sparrow-broadcast-pool/src/pool/scheduler.rs:83-106 | One monitor pass at a sufficient height leaves no block-locked transaction pending |
| Liveness.StaysFailed | sparrow-broadcast-pool/src/pool/manager.rs:520-538 | A failed row stays as it is while no page both shows it and finds its error worth a retry |
| Liveness.WhoIsShown | sparrow-broadcast-pool/src/pool/manager.rs:525 | A failed row is on every page exactly when at most 1000 are no older, and on none exactly when 1000 are newer |
| Liveness.AlwaysFailedForGood | sparrow-broadcast-pool/src/pool/manager.rs:471-485 | In every run each failed row carries an error that is not retriable by its text |
| Liveness.CrowdedOut | sparrow-broadcast-pool/src/pool/manager.rs:525-531 | A table of such failed rows in which one worth a retry is on no page |
| PriceTrigger.StaysArmed | sparrow-broadcast-pool/src/pool/scheduler.rs:202-223 | An armed row that no loop holds stays untouched and unsent until a fetched snapshot meets its price |
| PriceTrigger.WaitsExactly | sparrow-broadcast-pool/src/pool/manager.rs:140-222 | It waits in every run if and only if no loop grabbed it before it was armed |
| PriceTrigger.ArmingArms | sparrow-broadcast-pool/src/pool/manager.rs:171-172 | Arming leaves such a row, with the requested condition |
| PriceTrigger.ArmingTooLate | sparrow-broadcast-pool/src/pool/manager.rs:409-416 | A run that sends an armed transaction though no price was ever fetched |
| PriceTrigger.MetMeansDue | sparrow-broadcast-pool/src/db/mod.rs:435-444 | A met price makes the row due for the next tick |
| PriceTrigger.FiresOnce | sparrow-broadcast-pool/src/pool/manager.rs:186-222 | At most once per arming: between two firings of a row the user armed that row again |
| LateCommands.DiscardExactly | sparrow-broadcast-pool/src/pool/manager.rs:817-832 | A deleted transaction is never sent if and only if no loop had it on its way out |
| LateCommands.DiscardTooLate | sparrow-broadcast-pool/src/pool/manager.rs:409-465 | A run from the initial state that sends a transaction after it was deleted |
| LateCommands.ScheduleAtExactly | sparrow-broadcast-pool/src/pool/manager.rs:100-138 | A transaction that is put off is neither sent nor due before its time if and only if no loop had it on its way out and, where the command sets no deferral, none was about to mark it |
| LateCommands.ScheduleAtTooLate | sparrow-broadcast-pool/src/pool/manager.rs:409-465 | A run from the initial state that sends in second 1 what was put off until second 100 |
| LateCommands.PutOffAndMarked | sparrow-broadcast-pool/src/db/mod.rs:423-432 | A run in which the block height monitor makes a row due in second 0 that was put off until second 100 |

## Left out

- The fixed tables of block sizes and the version search: the version, the number of data codewords and the block list are parameters.
- Function patterns, type and version information, the mask penalty score, and SVG, HTML, ASCII and GIF framing around the raster.
- Kanji segments, since no converter is installed; and text encodings: byte segments are bytes.
- Undefined array slots of a shifted polynomial are zeros, which is how XOR treats them.
- Shifts and masks of the 32-bit accumulators are written as halving, doubling and remainders of 2^32.
- Sockets, TLS, HTTP handlers, the SQLite driver, lock poisoning and file access; server, node and price answers are parameters, and a statement on the table does not fail.
- JSON parsing, transaction decoding, scripthashes and SHA-256: whether a line is a broadcast is any predicate, and the digest any function.
- Times are whole seconds and compared as numbers; the code compares RFC 3339 texts in one query.
- Prices are real numbers without NaN, and currency and condition are parsed already.
- Lower case is ASCII in the matching of error texts.
- Commands that broadcast a row by hand, the migration plans, statistics and the dashboard.
- A reorganisation of the chain: chains only grow.
- The requeueing that a second process, started for a single command, does beside a running daemon.
- Inputs whose sequence numbers are all final, for which the network ignores the nLockTime.
- Machine.Step: a query together with the gate readings that filter its rows is one step, and so is a user command; every other read and write is a step of its own.
- PoolManager.PoolManager.RunSchedulerTick: a pass reads one clock value and meets no other loop; in the machine time passes and other loops act between any two of its steps.
- Liveness.SparrowNeedsNoUser: excludes the nLockTime 500,000,000, which the ingest leaves to the configured mode, the monitor skips and the gate takes for a height.
- SendSafety.SendsAreGated: compares with the network's rule on chains of at most 500,000,000 blocks.
- Visibility.AckedStaysVisible: assumes that a store lists the transaction's output scripthashes; the code goes on without them when they cannot be derived.
- Visibility.RestartKeepsExactly: assumes that a restart loads every pending and scheduled row; the code loads none without an indexer, and at most 10,000 of a status.
- Visibility.RemovalIsFinalExactly: rows come from wallet broadcasts alone; a transaction that is imported by a command enters the index at the next restart.
