# A verified model of the LN882H SDK algorithms

The LN882H SDK build tree holds a few self-contained algorithms under its drivers: a crypto stack, two allocators,
an intrusive list, the front end of the AT command server, two CRCs, and the tools that assemble the flash image.
This project models them in Dafny, in the form the source has (contexts and tables updated in place, pointers rewired,
byte loops), and proves that each fast or stateful form does what its standard or its interface promises.

| files | what they model |
|---|---|
| `AesTables`, `Gf256`, `Fips197`, `AesWords`, `Aes`, `AesVectors` | `ln_aes.c`: T-table AES against FIPS 197, and decryption undoing encryption |
| `Sha1Spec`, `Sha1Transform`, `Sha1Stream`, `Hmac`, `Sha1Vectors` | `ln_sha1.c`: SHA-1 against RFC 3174, streaming, HMAC against RFC 2104 |
| `PskCalc` | `ln_psk_calc.c`: PBKDF2 (section 5.2 of RFC 8018) and the 64-digit key form |
| `CrcTables`, `Crc32`, `Crc16` | `crc32.c`, `crc16.c`: table lookup against bitwise division, and error detection |
| `StubMalloc` | `stub_malloc.c`: first fit from the top over a table of run lengths |
| `MemPool` | `ln_mem_pool.h`: the free stack against the chunk flags |
| `RingList` | `ln_list.h`: the intrusive ring, on heap nodes |
| `AtServer` | `ln_at_server.c`, `ln_at.h`: two tasks sharing a line buffer, as interleaved steps |
| `ByteValues` | bytes as numbers, for the modules above and below |
| `ImageMerge`, `BootHeader` | `start_build.py`, `boot_header.py`, `after_build_for_boot.py` |

`dafny verify dfyconfig.toml` checks everything. Each module has a definition taken from the standard or from the
interface's promise, and a method with the source's loops and assignments whose postcondition names that definition;
lemmas then prove what the definition is for. The definitions of AES, SHA-1 and the CRCs are themselves tied to the
examples their standards print, computed inside the verifier.

Conventions. `size_t` and `uint32_t` are 32 bits. Bytes are `bv8`, words `bv32`; lengths, counters and addresses are
naturals with the wrap written out where the source wraps. An address is an offset from the base of its buffer.
Ghost fields hold what the C state does not: the message absorbed so far, the live runs, the stack of free chunks,
the lines dispatched and handled. Lookup tables are decision trees over the index bits with the source's entries.

Where the code differs from what its interface suggests, the model follows the code and says exactly when:

- `ln_psk_calc` checks for a 32-byte buffer. For sizes 32 to 39 an accepted passphrase makes it write beyond the size
  (`PskCalc.OverrunExactly`). It returns 0 without a key when `pbkdf2_sha1` refuses the passphrase or the SSID
  (`PskCalc.KeyWrittenExactly`). It keeps string lengths in eight bits, so 256 characters count as none
  (`PskCalc.Truncation`, `PskCalc.LongPassphrase`).
- A line that fills all 512 bytes of the AT buffer is reset by the preparser after it has been handed to the parser.
  Exactly the shorter lines are safe: `AtServer.DeliveredExactly`; a reachable loss is shown by `AtServer.FullLineLost`.
  A full buffer without "\r\n" makes `strstr` read on behind it: `AtServer.SearchInsideExactly`.
- `ln_sha1_update` is right exactly when the buffered length plus the data length fits in 32 bits; above that it would
  copy beyond its 64-byte buffer (`Sha1Stream.CopyFitsExactly`).
- `do_merge_fw` merges a list correctly, whatever the images contain, exactly when no image reaches beyond the end of
  the last one and each later image lies above an earlier one, or at offset 0 below it, without overlap
  (`ImageMerge.MergedExactly`). Ascending lists are such lists.
- `build_stage_second` writes a right body CRC when `crc_offset` is at least 24, past the end of the file included.
  Below 24 the CRC covers header bytes the stage is about to rewrite; then it depends on the header CRC that was in the
  file before (`BootHeader.BodyCrcExactly`).
- `stub_mem_realloc` of a live block reads behind the pool exactly when the new size is not 0, fits somewhere, and
  reaches beyond the end of the pool from the old address (`StubMalloc.Pool.Realloc`). For the only block of a pool, at
  its top, that is exactly when it grows and there is room below (`StubMalloc.TopBlockGrowth`); an ordinary call that
  does so is `StubMalloc.GrowthExample`.
- A free of an address inside a run leaves a table of no set of runs (`StubMalloc.FreeExactly`), and the clearing loop
  leaves the table exactly when the index and the cell there add up to more than its length (`StubMalloc.Pool.Free`).

## Model

| member | source | states |
|---|---|---|
| Gf256.MultiplesAreProducts | components/utils/ln_aes.c:497-506 | doubling-and-adding with xtime is the field product with 2, 3, 9, 11, 13 and 14 |
| Gf256.LogProductIsFieldProduct | components/utils/ln_aes.c:525-531 | the log-table product is the product of GF(2^8) for every two bytes, zero included |
| Gf256.PowerProduct | components/utils/ln_aes.c:527-528 | adding logarithms modulo 255 is multiplying by a power of the generator |
| Gf256.ProductXtime | components/utils/ln_aes.c:497-506 | doubling a factor doubles the product, reduction included |
| Gf256.SboxIsAffineReciprocal | components/utils/ln_aes.c:164-205 | every S-box entry is the affine image of the field reciprocal of its index, of 0 for index 0 |
| Gf256.TimesLinear | components/utils/ln_aes.c:525-531 | the fixed multiples distribute over xor |
| Gf256.InvMixRow | components/utils/ln_aes.c:550-574 | one row of the inverse MixColumns matrix applied to a mixed column gives the byte back |
| Gf256.MixInvRow | components/utils/ln_aes.c:550-574 | one row of MixColumns applied to an inverse-mixed column gives the byte back |
| Fips197.SubInverse | components/utils/ln_aes.c:474-475 | InvSubBytes and SubBytes undo each other on every state |
| Fips197.MixInverse | components/utils/ln_aes.c:550-574 | InvMixColumns and MixColumns undo each other on every column |
| Fips197.InvMixColumnLinear | components/utils/ln_aes.c:349-350 | InvMixColumns distributes over xor |
| Fips197.InvMixThroughKey | components/utils/ln_aes.c:349-350 | InvMixColumns after AddRoundKey is AddRoundKey of the inverse-mixed key after InvMixColumns |
| Fips197.DecryptionRetraces | components/utils/ln_aes.c:450-462 | at every round the equivalent inverse cipher is at the state encryption had before that round |
| Fips197.DecryptEncrypt | components/utils/ln_aes.c:442-478 | the equivalent inverse cipher undoes the cipher for every state, round count and schedule pair |
| Fips197.EncryptionRetraces | components/utils/ln_aes.c:386-399 | the converse retracing, round by round |
| Fips197.EncryptDecrypt | components/utils/ln_aes.c:378-415 | the cipher undoes the equivalent inverse cipher |
| AesWords.CombineCol | components/utils/ln_aes.c:392-395 | three nested rotate-and-xor steps give the sum of the four words rotated by 0 to 3 bytes |
| AesWords.EncEntry | components/utils/ln_aes.c:28-93 | each encryption table entry is the S-box output times the column 2, 1, 1, 3 |
| AesWords.DecEntry | components/utils/ln_aes.c:95-162 | each decryption table entry is the inverse S-box output times the column 14, 9, 13, 11 |
| AesWords.EncColumnIsRound | components/utils/ln_aes.c:392-395 | four lookups combined are MixColumns of the substituted bytes |
| AesWords.DecColumnIsRound | components/utils/ln_aes.c:455-458 | four lookups combined are InvMixColumns of the inverse-substituted bytes |
| AesWords.SubByteCol | components/utils/ln_aes.c:331-336 | SUBBYTE on a word is the S-box on each byte |
| Aes.IndexTables | components/utils/ln_aes.c:247-259 | the two index tables are column shifts by +k and -k modulo 4 |
| Aes.XtimeByte | components/utils/ln_aes.c:497-506 | xtime is multiplication by x |
| Aes.InvMixWord | components/utils/ln_aes.c:558-572 | the four sums of log-table products, put together, are InvMixColumns of the word |
| Aes.KeyAddition8To32 | components/utils/ln_aes.c:594-611 | loading bytes and adding four key words is AddRoundKey |
| Aes.KeyAddition32 | components/utils/ln_aes.c:631-637 | adding four key words is AddRoundKey |
| Aes.KeyAddition32To8 | components/utils/ln_aes.c:657-674 | adding four key words and storing bytes is AddRoundKey; bytes past 16 stay |
| Aes.EncryptTables | components/utils/ln_aes.c:390-396 | the table loop is SubBytes, ShiftRows and MixColumns of the whole state |
| Aes.DecryptTables | components/utils/ln_aes.c:453-459 | the table loop is InvSubBytes, InvShiftRows and InvMixColumns of the whole state |
| Aes.EncryptLast | components/utils/ln_aes.c:402-412 | the masked gather and substitution are SubBytes and ShiftRows |
| Aes.DecryptLast | components/utils/ln_aes.c:465-475 | the masked gather and substitution are InvSubBytes and InvShiftRows |
| Aes.KeyStep | components/utils/ln_aes.c:326-340 | one step of the expansion loop, in each of its three branches, gives the next word of section 5.2 |
| Aes.ScheduleInverted | components/utils/ln_aes.c:343-350 | copied outer and inverse-mixed inner round keys form the schedule of the equivalent inverse cipher |
| Aes.AesContext.ExpandKey | components/utils/ln_aes.c:316-340 | keys holds the expanded key of section 5.2 for every key size |
| Aes.AesContext.InvertKeys | components/utils/ln_aes.c:343-350 | ikeys holds the outer round keys unchanged and the inner ones inverse-mixed |
| Aes.AesContext.Setup | components/utils/ln_aes.c:290-351 | the round count and expanded key that the truncated key size selects, and a matching inverse schedule |
| Aes.AesContext.Encrypt | components/utils/ln_aes.c:378-415 | the output block is the FIPS 197 cipher of the input under the context's schedule, also in place |
| Aes.AesContext.Decrypt | components/utils/ln_aes.c:442-478 | the output block is the equivalent inverse cipher of the input, also in place |
| Aes.RoundTrip | components/utils/ln_aes.c:290-478 | for every key and block: encryption is FIPS 197, decryption returns the block, and so does encrypting a decrypted block |
| Aes.Nk | components/utils/ln_aes.c:300-314 | the key length is the largest of 16, 24 and 32 bytes that fits the size given, or 16 |
| AesVectors.A1 | components/utils/ln_aes.c:326-340 | word 4 of the schedule of section A.1 of FIPS 197 |
| AesVectors.A2 | components/utils/ln_aes.c:326-340 | word 6 of the schedule of section A.2 |
| AesVectors.A3 | components/utils/ln_aes.c:326-340 | words 8 and 12 of the schedule of section A.3 |
| AesVectors.C1 | components/utils/ln_aes.c:290-415 | the ciphertext of section C.1, through the whole key schedule and every round |
| AesVectors.C2 | components/utils/ln_aes.c:290-415 | the ciphertext of section C.2 |
| AesVectors.C3 | components/utils/ln_aes.c:290-415 | the ciphertext of section C.3 |
| Sha1Transform.ChRewritten | components/utils/ln_sha1.c:44-47 | the rewritten choice formula equals Ch |
| Sha1Transform.MajRewritten | components/utils/ln_sha1.c:50-51 | the rewritten majority formula equals Maj |
| Sha1Transform.SwapLoads | components/utils/ln_sha1.c:38 | the two masked rotations turn a little-endian load into the big-endian word |
| Sha1Transform.NextWorkspace | components/utils/ln_sha1.c:41 | overwriting one cell of the 16-word circle keeps it the window of the 80-word schedule |
| Sha1Transform.R | components/utils/ln_sha1.c:44-53 | one macro step, for each of the four round kinds, computes the new word and rotates w, advancing the window |
| Sha1Transform.FiveSteps | components/utils/ln_sha1.c:80-84 | five macro steps with rotating names are five steps of section 6.1 of RFC 3174 |
| Sha1Transform.Transform | components/utils/ln_sha1.c:63-170 | the new state is the 80-word compression of the old state and block |
| Sha1Spec.PadLength | components/utils/ln_sha1.c:236-240 | the padded message is a whole number of blocks |
| Sha1Spec.AbsorbConcat | components/utils/ln_sha1.c:210-212 | folding the compression over a message can be cut at any block boundary |
| Sha1Stream.CountsPosition | components/utils/ln_sha1.c:202 | bits 3 to 8 of the low counter half are the number of buffered bytes |
| Sha1Stream.CountsAdd | components/utils/ln_sha1.c:203-206 | low half, carry and high bits together add 8 * len modulo 2^64 |
| Sha1Stream.CountBytes | components/utils/ln_sha1.c:232-235 | the eight count bytes are the 64-bit length, most significant first |
| Sha1Stream.CountToBytes | components/utils/ln_sha1.c:232-235 | the loop over the counter halves produces those bytes |
| Sha1Stream.CopyFitsExactly | components/utils/ln_sha1.c:207-217 | the copy of the else branch stays in the buffer if and only if position plus length is below 2^32 |
| Sha1Stream.GuardExact | components/utils/ln_sha1.c:210 | the loop guard i + 63 < len never wraps at a block boundary |
| Sha1Stream.Sha1Context.Init | components/utils/ln_sha1.c:178-187 | the context stands for the empty message |
| Sha1Stream.Sha1Context.WholeBlocks | components/utils/ln_sha1.c:207-213 | the state absorbs the topped-up block and every whole block, leaving fewer than 64 bytes |
| Sha1Stream.Sha1Context.Update | components/utils/ln_sha1.c:197-218 | the context stands for the message with the data appended: state, 64-bit count and buffered tail, for every length whose 32-bit sum with the position does not wrap |
| Sha1Stream.Sha1Context.PadOut | components/utils/ln_sha1.c:237-239 | the padding loop ends after at most 63 zero bytes at position 56 |
| Sha1Stream.Sha1Context.Final | components/utils/ln_sha1.c:227-254 | the digest is SHA-1 of everything absorbed |
| Sha1Vectors.Abc | components/utils/ln_sha1.c:63-254 | the digest of "abc" that section 7.3 of RFC 3174 prints |
| Sha1Spec.LengthSpelled | components/utils/ln_sha1.c:232-235 | any eight bytes are the length bytes of the number they spell, most significant first |
| Hmac.HashPieces | components/utils/ln_sha1.c:178-254 | every way of splitting a message into updates gives the same SHA-1 digest, as long as no update wraps |
| Hmac.PadKey | components/utils/ln_sha1.c:295-300 | the buffer is the zero-padded key xored with the pad byte |
| Hmac.HmacBytes | components/utils/ln_sha1.c:290-324 | in bytes: the hash of the outer pad and the hash of the inner pad and the text, with the key zero-padded or hashed first |
| Hmac.HmacSha1Into | components/utils/ln_sha1.c:266-325 | the output is HMAC-SHA-1 of RFC 2104 for every 32-bit key and data length, keys over 64 bytes included |
| PskCalc.Pbkdf2F | components/utils/ln_psk_calc.c:57-105 | writes T_i of RFC 8018 at the digest, a count of 0 meaning 1, or refuses a non-printable key and writes nothing |
| PskCalc.BlockIndices | components/utils/ln_psk_calc.c:77-85 | the first values of the two digests are HMACs of the data followed by 0, 0, 0, 1 and 0, 0, 0, 2 |
| PskCalc.IntSpelled | components/utils/ln_psk_calc.c:80-83 | any four bytes are the block index bytes of the number they spell, most significant first |
| PskCalc.NextValues | components/utils/ln_psk_calc.c:87-102 | each further value is the HMAC of the one before, and the digest is their xor byte by byte |
| PskCalc.Pbkdf2Sha1 | components/utils/ln_psk_calc.c:110-129 | writes T_1 then T_2 with 4096 rounds exactly for a printable key of at most 64 and data of at most 32 bytes |
| PskCalc.HexByteRoundTrip | components/utils/ln_psk_calc.c:13-27 | two digits of either case decode to the byte they spell |
| PskCalc.CharacterOffsets | components/utils/ln_psk_calc.c:13-27 | for every character, digit or not, which offset is taken off |
| PskCalc.HexKeyDecodes | components/utils/ln_psk_calc.c:154-158 | any spelling of a 32-byte key in 64 digits decodes to the key |
| PskCalc.DecodeHex | components/utils/ln_psk_calc.c:154-158 | the loop stores the decoded key and leaves the rest of the buffer |
| PskCalc.PskCalc | components/utils/ln_psk_calc.c:139-164 | the result code and the whole buffer in every branch, with both length truncations |
| PskCalc.PassphraseKey | components/utils/ln_psk_calc.c:118-153 | for an ordinary passphrase and SSID the buffer starts with T_1 and T_2 after 4096 iterations |
| PskCalc.DecodedKey | components/utils/ln_psk_calc.c:154-158 | for 64 characters it starts with the 32 decoded bytes |
| PskCalc.OverrunExactly | components/utils/ln_psk_calc.c:118-153 | bytes beyond the size given change if and only if the size is 32 to 39 and the passphrase and SSID are accepted |
| PskCalc.OverrunExample | components/utils/ln_psk_calc.c:144-153 | one ordinary call with a 32-byte buffer that writes beyond it |
| PskCalc.KeyWrittenExactly | components/utils/ln_psk_calc.c:139-164 | result 0 comes with the key in the buffer, whatever was there, if and only if there are 64 characters or an accepted passphrase and SSID |
| PskCalc.Truncation | components/utils/ln_psk_calc.c:149-150 | strings that agree in what eight-bit lengths leave of them give the same result and buffer |
| PskCalc.LongPassphrase | components/utils/ln_psk_calc.c:149-153 | a passphrase of 256 characters gives the key of the empty passphrase |
| PskCalc.SilentFailure | components/utils/ln_psk_calc.c:67-74 | a passphrase with a byte over 126 gives the result 0, no key, and an unchanged buffer |
| Crc32.TableEntry | components/utils/crc32.c:5-70 | each table entry is eight division steps on its index |
| Crc32.StepsFeed | components/utils/crc32.c:83 | n division steps on a sum are the n low bits fed one by one, the rest staying added |
| Crc32.ByteIsEightBits | components/utils/crc32.c:83 | one table lookup is the eight bits of the byte fed to the bitwise reflected division |
| Crc32.CrcBitsConcat | components/utils/crc32.c:79-85 | the division splits over concatenation |
| Crc32.Crc32Context.Update | components/utils/crc32.c:79-85 | the register is the bitwise division of the old register by all bits of the data |
| Crc32.SingleCal | components/utils/crc32.c:92-102 | the one-call form, for any length, is the bitwise CRC-32; its extra mask does nothing |
| Crc32.CrcOfPieces | components/utils/crc32.c:74-102 | init, any sequence of updates and final agree with the one-call form |
| Crc32.CheckValue | components/utils/crc32.c:92-102 | the CRC of the digits 1 to 9 is 0xCBF43926 |
| Crc32.Difference | components/utils/crc32.c:79-85 | what separates two registers after the same bits depends only on what separated them before |
| Crc32.WordFed | components/utils/crc32.c:79-85 | feeding the four bytes of a word is 32 division steps on its sum with the register |
| Crc32.WindowInjective | components/utils/crc32.c:79-85 | different bit strings of equal length up to 32 never lead from one register value to the same one |
| Crc32.SuffixInjective | components/utils/crc32.c:79-85 | feeding the same bits never merges two register values |
| Crc32.BurstDetected | components/utils/crc32.c:79-85 | an error burst of at most 32 bits in a message of any length changes the CRC |
| Crc32.FourBytesDetected | components/utils/crc32.c:74-102 | messages that differ only within four consecutive bytes have different CRC-32 values |
| Crc16.TableEntry | components/utils/crc16.c:5-34 | each table entry is eight division steps on its index in the high byte |
| Crc16.ByteIsEightBits | components/utils/crc16.c:42 | one table lookup is the eight bits of the byte fed to the bitwise division |
| Crc16.CrcCcitt | components/utils/crc16.c:36-46 | the loop computes the bitwise division by 0x1021, for any length |
| Crc16.CheckValue | components/utils/crc16.c:36-46 | the CRC of the digits 1 to 9 is 0x31C3 |
| Crc16.AppendedValue | components/utils/crc16.c:36-46 | a message followed by its CRC, high byte first, has CRC 0 |
| Crc16.BurstDetected | components/utils/crc16.c:36-46 | an error burst of at most 16 bits in a message of any length changes the CRC |
| Crc16.TwoBytesDetected | components/utils/crc16.c:36-46 | messages that differ only within two consecutive bytes have different CRC values |
| StubMalloc.TableUnique | components/libc/stub_malloc.c:94-100 | the set of live runs determines the table |
| StubMalloc.AddRun | components/libc/stub_malloc.c:94-100 | writing a length over a free run adds exactly that run |
| StubMalloc.RemoveRun | components/libc/stub_malloc.c:115-121 | zeroing as many cells as the base cell says removes exactly that run |
| StubMalloc.FreeUndoesAlloc | components/libc/stub_malloc.c:94-121 | freeing what was just allocated restores table and live runs exactly |
| StubMalloc.FreeExactly | components/libc/stub_malloc.c:113-121 | after a free the table is again that of some runs if and only if the address was in the first block of a live run or in a free block; then the clearing loop stays inside the table |
| StubMalloc.TopBlockGrowth | components/libc/stub_malloc.c:152-160 | in the reachable state with one allocation, at the top of the pool, the condition under which its reallocation reads behind the pool holds if and only if the block grows and there is room for the new one below |
| StubMalloc.GrowthExample | components/libc/stub_malloc.c:142-164 | in a pool of four blocks, a 64-byte block grown to 65 bytes is copied from addresses up to 257 of 256 |
| StubMalloc.InteriorReachable | components/libc/stub_malloc.c:113-121 | a reachable table with a block inside a run from which the clearing loop stays inside the table |
| StubMalloc.SweepLeavesTable | components/libc/stub_malloc.c:113-121 | a reachable table with a block from which the clearing loop leaves it |
| StubMalloc.EveryRun | components/libc/stub_malloc.c:67-124 | in every run that frees only live bases, live runs are disjoint and inside, cells of a run hold its length, all others 0 |
| StubMalloc.BlocksCover | components/libc/stub_malloc.c:82-85 | the block count is the least that covers the size |
| StubMalloc.Pool.Scan | components/libc/stub_malloc.c:87-103 | the downward scan finds the highest free run of the length, or there is none |
| StubMalloc.Pool.Malloc | components/libc/stub_malloc.c:67-104 | the highest-addressed free run is taken and recorded; fails, changing nothing, exactly for size 0 or when no run is free |
| StubMalloc.Pool.Free | components/libc/stub_malloc.c:106-124 | for every offset the result code and the table, from the block that contains the offset; a live run is removed exactly; an address inside a run leaves no table of runs; the loop leaves the table exactly when index plus cell exceed its length |
| StubMalloc.Pool.StubFree | components/libc/stub_malloc.c:133-140 | NULL changes nothing; any other address is freed as its offset |
| StubMalloc.Pool.Memcpy | components/libc/stub_malloc.c:57-65 | the source byte behind every destination byte of the forward copy, overlaps and sources that leave the pool included, and how far it reads |
| StubMalloc.Pool.Realloc | components/libc/stub_malloc.c:152-164 | on success the first min(old, new) bytes arrive in the highest free run and the old run is freed; on failure nothing is read or changed; it reads behind the pool exactly when the size is not 0, fits, and reaches beyond the end from the old address |
| StubMalloc.Pool.UsePercent | components/libc/stub_malloc.c:166-178 | the share of non-zero cells in percent, rounded down, at most 100 |
| StubMalloc.CountFilled | components/libc/stub_malloc.c:166-178 | writing a free run adds its length to the cells in use |
| MemPool.Pool.Init | components/utils/ln_mem_pool.h:27-47 | every chunk is stacked once and flagged free, and its id is its number modulo 256 |
| MemPool.Pool.Alloc | components/utils/ln_mem_pool.h:49-72 | the top free chunk becomes held; it was not held; the flag-error branch is unreachable; only its flag byte changes |
| MemPool.Pool.Free | components/utils/ln_mem_pool.h:74-108 | TRUE exactly for a held chunk, which goes on the stack; otherwise FALSE and nothing changes; the index-error branch is unreachable |
| MemPool.Pool.Conservation | components/utils/ln_mem_pool.h:20-21 | free plus held is the total in every valid state |
| MemPool.Pool.Layout | components/utils/ln_mem_pool.h:29-45 | chunks do not overlap and lie inside the pool |
| MemPool.Pool.WritePayload | components/utils/ln_mem_pool.h:29-33 | a client writing behind the header of any chunk keeps the pool valid |
| RingList.MutualInverses | components/utils/ln_list.h:39-80 | in a ring next and prev undo each other at every node |
| RingList.Rotate | components/utils/ln_list.h:39-80 | a ring is a ring seen from any of its nodes |
| RingList.Init | components/utils/ln_list.h:39-43 | the head alone is a ring |
| RingList.IsEmpty | components/utils/ln_list.h:45-48 | true exactly when the ring is the head alone |
| RingList.Insert | components/utils/ln_list.h:50-57 | the element becomes the last of the ring |
| RingList.Add | components/utils/ln_list.h:59-66 | the element becomes the first after the head |
| RingList.Rm | components/utils/ln_list.h:68-72 | exactly the given node leaves the ring; it keeps its own pointers |
| RingList.RmInit | components/utils/ln_list.h:74-80 | exactly the given node leaves the ring and is a ring of its own |
| RingList.ForEach | components/utils/ln_list.h:15-18 | every element is visited once, in order, and the loop ends |
| RingList.ForEachReverse | components/utils/ln_list.h:20-23 | every element is visited once, in reverse, and the loop ends |
| RingList.ForEachSafe | components/utils/ln_list.h:25-29 | with any set of visited nodes removed on the way, by either removal, every node is still visited once, and the kept ones remain as a ring |
| AtServer.StrStrPrefix | components/ln_at/ln_at_server.c:572 | strstr over the buffer sees exactly the stored prefix |
| AtServer.EndCharacter | components/ln_at/ln_at_server.c:564-576 | a CR or LF completes a line exactly when the length and strstr tests say so |
| AtServer.BodyEdits | components/ln_at/ln_at_server.c:538-583 | every branch on the character keeps the editing invariant or completes a line |
| AtServer.BodyIsEdit | components/ln_at/ln_at_server.c:538-583 | every character does to the stored line what a line editor on plain sequences does, and goes on to set BUSY exactly when that completes the line |
| AtServer.TypedIsHandled | components/ln_at/ln_at_server.c:496-618 | in every run of short lines the idle buffer, the lines dispatched and the lines handled are those the plain editor makes of the characters read while idle |
| AtServer.PlainTypingStored | components/ln_at/ln_at_server.c:538-583 | without erase keys the line is exactly the storable characters typed since the last wipe, in order |
| AtServer.PlainLine | components/ln_at/ln_at_server.c:564-576 | and so is a line completed that way |
| AtServer.CallRemembers | components/ln_at/ln_at_server.c:585-591 | a call remembers its character, unless it returns early or the buffer is full |
| AtServer.NextInv | components/ln_at/ln_at_server.c:496-618 | every step of either task keeps the invariant of both, as long as no dispatched line is full |
| AtServer.PreparserKeepsOff | components/ln_at/ln_at_server.c:518-522 | while BUSY no preparser step touches buffer or index |
| AtServer.ParserOnlyWhenBusy | components/ln_at/ln_at_server.c:607-615 | the parser task acts only while BUSY and after the release |
| AtServer.ParserEnabled | components/ln_at/ln_at_server.c:605-617 | a released line is never stuck: the parser task can step until the status is IDLE |
| AtServer.EveryRun | components/ln_at/ln_at_server.c:496-618 | in every interleaving: semaphore plus parser count against BUSY, the shape of every dispatched line, each line handled once, in order, unchanged, and an unfinished line followed by NULs whenever the buffer is idle |
| AtServer.DeliveredExactly | components/ln_at/ln_at_server.c:574-591 | a line being dispatched reaches the parser intact in every interleaving if and only if it is shorter than 512 bytes |
| AtServer.FullLineLost | components/ln_at/ln_at_server.c:587-591 | a reachable run in which a 512-byte line is dispatched and the parser takes an empty one |
| AtServer.StrStr | components/ln_at/ln_at_server.c:572 | the search loop finds the mark exactly when it starts before the first NUL, and ends inside the array exactly when there is a mark or a NUL |
| AtServer.SearchInsideExactly | components/ln_at/ln_at_server.c:570-572 | after a store the search ends inside the buffer if and only if a cell is left or the line holds the mark |
| AtServer.SearchLeavesBuffer | components/ln_at/ln_at_server.c:570-572 | a reachable state from which a CR fills the buffer and strstr reads on behind it |
| AtServer.Handle.HandleChar | components/ln_at/ln_at_server.c:538-583 | the branches on the character do to index and buffer what the step of the transition system does |
| AtServer.Handle.Dispatch | components/ln_at/ln_at_server.c:574-575 | BUSY first, then the release: two steps of the transition system |
| AtServer.Handle.Preparser | components/ln_at/ln_at_server.c:496-592 | a whole call is the preparser's steps of the transition system up to their end |
| ImageMerge.DoMergeFw | start_build.py:172-198 | a mergeable list gives the merged image, any other list the fold of slice assignments, an empty list an index error |
| ImageMerge.PlaceKeepsBelow | start_build.py:187 | a slice assignment keeps what is below the image and moves up what is above by min(size, offset) |
| ImageMerge.PlaceAnywhere | start_build.py:187 | the buffer after a slice assignment, for every offset and size, beyond the end included |
| ImageMerge.PlaceHolds | start_build.py:187 | placing an image that disturbs no other keeps the layout, since only blank bytes move |
| ImageMerge.OutputMerged | start_build.py:175-198 | for every mergeable list: length last offset plus last size, every image in its place, 0xFF elsewhere |
| ImageMerge.AscendingMergeable | start_build.py:175-198 | images listed in ascending order without overlap are mergeable |
| ImageMerge.MergedExactly | start_build.py:175-198 | the merged image comes out for all contents of the given places if and only if the list is mergeable |
| ImageMerge.MovedNotMerged | start_build.py:187 | an image disturbed by a later one is out of place for marked contents |
| ImageMerge.PlaceMovesAbove | start_build.py:187 | an image already placed above moves up by min(size, offset), so not at all exactly when the lower image is empty or at offset 0 |
| ImageMerge.OutOfOrderFails | start_build.py:180-187 | a concrete list out of order, without overlap, that is not merged correctly |
| BootHeader.ParsePacked | tools/python_scripts/boot_header.py:50-69 | unpacking a packed header gives its fields back |
| BootHeader.PackParsed | tools/python_scripts/boot_header.py:50-64 | packing the unpacked fields gives the bytes back |
| BootHeader.FieldBytes | tools/python_scripts/boot_header.py:50-57 | which bytes each field is, least significant first |
| BootHeader.OnePackStaleLength | tools/python_scripts/boot_header.py:59-69 | with one pack only, the stored header CRC would be wrong whenever the length was changed |
| BootHeader.OnePackStaleCrc | tools/python_scripts/boot_header.py:59-69 | the same when the body CRC was changed |
| BootHeader.BootHeader.constructor | tools/python_scripts/boot_header.py:32-57 | the fields are the unpacked first 24 bytes |
| BootHeader.BootHeader.SetCrpFlag | tools/python_scripts/boot_header.py:109-117 | 0, 1 and the valid flag are stored; anything else is refused |
| BootHeader.BootHeader.GetHeaderCrc | tools/python_scripts/boot_header.py:119-121 | the getter recomputes and stores the CRC of the buffer's first 20 bytes |
| BootHeader.BootHeader.ToByteArray | tools/python_scripts/boot_header.py:59-69 | after the second pack the buffer holds the fields and the CRC of its own first 20 bytes |
| BootHeader.BuildStageSecond | tools/python_scripts/after_build_for_boot.py:116-145 | the outcome and the whole file in every branch |
| BootHeader.BuiltHeader | tools/python_scripts/after_build_for_boot.py:118-141 | the file tells its own length, keeps target, vector and crc_offset, has the right header CRC, and its body is unchanged |
| BootHeader.BodyCrcOrdinary | tools/python_scripts/after_build_for_boot.py:135-138 | for crc_offset 24 and up the body CRC is that of the written file's bytes from there to the end, or of nothing past the end |
| BootHeader.BodyCrcExactly | tools/python_scripts/after_build_for_boot.py:135-141 | the body CRC is right if and only if a test on the file before says so: crc_offset at least 24, or the old header CRC is that of the new header up to crc_offset and the old one after it, or crc_offset is 21 to 23 and the checked bytes are already final |
| BootHeader.BodyCrcInHeaderCrc | tools/python_scripts/after_build_for_boot.py:135-141 | for crc_offset 20 to 23 it is right if and only if the checked bytes of the old file equal those of the new header |
| BootHeader.BodyCrcOverHeader | tools/python_scripts/after_build_for_boot.py:135-141 | for crc_offset up to 4, or up to 8 with the length already right, it is right if and only if the old header CRC was right |
| BootHeader.CrcInside | tools/python_scripts/boot_header.py:59-69 | when a message carrying its own CRC keeps the CRC of another with some last word, for any prefix and any two equally long middles |
| BootHeader.BodyCrcCanFail | tools/python_scripts/after_build_for_boot.py:129-141 | every file with crc_offset 20 gets a wrong body CRC for one of the two protection settings |
| BootHeader.TargetDecides | tools/python_scripts/after_build_for_boot.py:129-141 | of two files with crc_offset 20 that differ in the target word only, one gets a wrong body CRC, for either protection setting |
| BootHeader.BodyCrcFails | tools/python_scripts/after_build_for_boot.py:129-141 | for either protection setting some 24-byte file gets a wrong body CRC |
| BootHeader.BuildTwice | tools/python_scripts/after_build_for_boot.py:118-141 | with crc_offset at least 24 a second run of the stage changes nothing |

## Left out

- The ROM branches of AES, SHA-1 and CRC (`ROM_FUN_*`) and the fastpbkdf2 branch: foreign code at fixed addresses.
- The wipe of local variables in `ln_sha1_transform`; the wipe in `ln_sha1_final` is modelled but nothing is claimed about it.
- The eighty unrolled macro calls of `ln_sha1_transform` are written as sixteen turns of a loop over five calls.
- Sha1Stream.Sha1Context.Update: lengths whose sum with the position wraps, where the source copies beyond its buffer.
- NULL pointer checks and pointer arithmetic across objects: addresses are offsets, and `Ptr.Null` stands for NULL.
- PskCalc.Pbkdf2F: iteration counts over 65535, for which the source's 16-bit loop counter never gets there.
- StubMalloc.Pool.Free: what the clearing loop overwrites behind the table when it leaves it.
- StubMalloc.Pool.Realloc: a NULL or out-of-pool old address.
- The block size and count of `stub_malloc.c` are parameters; its callers and its alignment are not modelled.
- MemPool.Pool.Free: addresses that do not come from an allocation; critical sections and logging.
- `LN_LIST_FOR_EACH_ENTRY_SAFE_REVERSE`: the mirror image of the safe traversal.
- The container-of step of the list macros: the traversals are over the list nodes themselves.
- The AT data and passthrough modes, which the default configuration compiles out; echo and the BUSY reply.
- `ln_at_cmd_parse` and the commands: one abstract step that may overwrite the buffer.
- Locks and timers of the AT server; each critical section is one atomic step, and the semaphore wait never fails.
- AtServer.StrStr: what `strstr` finds behind the array once it leaves it; the model then finds nothing.
- File access, command-line arguments and printing in the Python tools; files are byte sequences or arrays.
- ImageMerge.DoMergeFw: offset lists of another length than the file list, negative offsets, and read errors.
- BootHeader.BootHeader.ToByteArray: lengths over 65535, for which `struct.pack_into` raises.
- `serial.c`, `system_parameter.c`, `wrap_stdio.c`, `newlib_*.c`, vendor headers and the remaining build scripts are not part of this model.
- The hex and MAC helpers of `ln_misc.c`, the overlap check of `before_build_base.py` and `ln_djb_hash`: easy members only.
