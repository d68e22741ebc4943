# keystretch in Dafny

keystretch is a memory-hard key-derivation function. It works in four stages:

1. It stretches a password with PBKDF2-HMAC-SHA256 (section 5.2 of RFC 8018).
2. It seeds a table of 64-bit "lanes" and the first page of a large memory.
3. It fills every later page from an earlier, data-chosen page while the lanes accumulate a hash.
4. It compresses the lanes, or in the reference version the last page, into the derived key.

This project models the following parts of it:

- **keystretch.c.** The production engine `fillPage` (8-word groups read at a masked, data-dependent offset; a lane walked cyclically). `hashMem`'s ticket ring as a sequential transition system over a class `Contexts`. The size derivations, stage order, allocation and zeroing of `keystretch`. The `PHS` wrapper.
- **keystretch-ref.c.** The single-lane reference engine `fillPage`, its `hashMem`, and its `keystretch` over a class `Context`.
- **keystretch_main.c and phs_main.c.** The hex codec (`readHexByte`, `findHexDigit`, `printHex`, `readHexSalt`), `readArguments` and `verifyParameters` with its halving loops. For keystretch_main.c, also `main`'s path from the command line to the printed key.
- **noelkdf.c.** `hashPage` and the page loop of `hashMem`.
- **memorycpy.c.** The block-fill loop.

How the C types and calls are represented:

- **Machine integers.** Words are naturals below 2^64, and `+`, `*`, `^` and `&` are written out modulo 2^64 (`Words`). 32-bit quantities are naturals below 2^32.
- **PBKDF2.** A function parameter `prf` with a declared output length.
- **`strtol`.** A `Parser` parameter.
- **`malloc`/`calloc`.** Each outcome is a boolean parameter. What a fresh `malloc` holds is a ghost sequence `heapWords`.
- **Output and exiting.** `usage(...)`, which prints and exits, becomes an error result. Printed text becomes a returned string.

Each loop of the C code is a Dafny method. Its contract ties it to a recursive specification function, and lemmas state the properties of those functions:

- every read lies inside its source page;
- only the destination page and the page's lane change;
- each word follows the stated wrapped-arithmetic rule;
- every page reads only earlier pages, so the production key never depends on what `malloc` returned, and the reference key only with a multiplier of 0;
- the ring hands out tickets in order and every thread stops;
- hex output decodes back.

Modules and files:

| module | file | covers |
|---|---|---|
| `Words` | words.dfy | 64-bit words, bitwise operations, byte layout |
| `Results` | results.dfy | `Option`, `Result` |
| `HexCodec` | hex.dfy | the hex codec |
| `KeystretchCli` | cli.dfy | keystretch_main.c's arguments and validation |
| `PhsCli` | phs_cli.dfy | phs_main.c's arguments and validation |
| `Engine` | engine.dfy | production `fillPage` as functions, page offsets, source-page and lane rules |
| `Mixing` | mixer.dfy | production `fillPage` on arrays, the ticket ring, `hashMem` |
| `Keystretch` | pipeline.dfy | production `keystretch`, `PHS`, keystretch_main.c's `main` |
| `Reference` | reference.dfy | keystretch-ref.c |
| `NoelKdf` | noelkdf.dfy | noelkdf.c |
| `MemoryCopy` | memorycpy.dfy | memorycpy.c |

## Model

| member | source | states |
|---|---|---|
| Words.XorOfWords | keystretch.c:48 | `^` of two 64-bit words loses nothing: the word xor is the full bitwise xor |
| Words.Add | keystretch.c:48 | uint64 `+`: the sum modulo 2^64 |
| Words.Mul | keystretch.c:48 | uint64 `*`: the product modulo 2^64 |
| Words.Xor | keystretch.c:48 | uint64 `^`: the bitwise exclusive or, low 64 bits (XorOfWords: nothing is lost) |
| Words.BitAnd | keystretch.c:43 | `&` on naturals, bit by bit (as in `lastPageData & pageMask` and `toPageNum & THREAD_MASK`) |
| Words.PageMaskValue | keystretch.c:35 | `(L - 1) & ~7`, with `~7` in a 32- or 64-bit word, is `L - 8` for every power of two L >= 8 |
| Words.MaskedAddressInPage | keystretch.c:43-47 | an address masked with `L - 8` starts an 8-aligned run of 8 words inside a page of L words |
| Words.PowerOfTwoHalving | keystretch_main.c:141-146 | stripping factors of two leaves 1 exactly for the powers of two |
| Words.Log2 | keystretch_main.c:141-146 | the exponent of a power of two: `Pow2(Log2(x)) == x` |
| Words.WordBytesRoundTrip | keystretch.c:122-123 | the 8 little-endian bytes of a word read back as that word |
| Words.WordOfBytes | keystretch.c:122-123 | the uint64 whose little-endian bytes a `(uint8 *)` view of a word buffer holds |
| Words.BytesOfWord | keystretch.c:165-166 | the 8 little-endian bytes a `(uint8 *)` view shows of one word |
| Words.WordsOfBytes | keystretch.c:122-123 | a byte-filled word buffer, read as words: one word per 8 bytes |
| Words.BytesOfWords | keystretch.c:165-166 | a word buffer passed as bytes: 8 bytes per word, in order |
| Words.WordsBytesRoundTrip | keystretch.c:165-166 | a word buffer read as bytes, then as words, is unchanged |
| Words.WordsOfBytesAt | keystretch.c:122-123 | word j of a byte-filled word buffer is made of bytes 8j .. 8j+7 |
| Words.ZeroBytes | keystretch.c:106 | what `memset(p, '\0', n)` leaves: n bytes, all zero |
| Words.Zeros | keystretch.c:167 | n words, all zero |
| HexCodec.AlphabetAt | keystretch_main.c:78-81 | digit v of the alphabet is `'0' + v` below 10 and `'A' + v - 10` from 10 |
| HexCodec.IsHexDigit | keystretch_main.c:38-50 | the characters readHexByte accepts: '0'-'9', 'A'-'F' and, after `toupper`, 'a'-'f' |
| HexCodec.ToUpper | keystretch_main.c:36 | `toupper` in the C locale: 'a'-'z' to 'A'-'Z', everything else unchanged |
| HexCodec.Nibble | keystretch_main.c:36-44 | the value of one character after `toupper`, or nothing when it is not a digit |
| HexCodec.PairValue | keystretch_main.c:45-54 | the byte a valid pair stands for: `16*hi + lo` |
| HexCodec.DigitValue | keystretch_main.c:36-53 | the value of a hex digit, in either case, is below 16 and names that digit |
| HexCodec.ReadHexByte | keystretch_main.c:35-56 | succeeds exactly when both characters are hex digits in either case; then stores `16*hi + lo`, else leaves the destination unchanged (same code at phs_main.c:31-52) |
| HexCodec.FindHexDigit | keystretch_main.c:75-82 | maps 0-9 to '0'-'9' and 10-15 to 'A'-'F', and the result decodes back to the value (phs_main.c:71-78) |
| HexCodec.Encode | keystretch_main.c:84-94 | the reference Base16 encoding (section 8 of RFC 4648): two characters per byte |
| HexCodec.EncodeAppend | keystretch_main.c:89-93 | encoding distributes over concatenation |
| HexCodec.EncodeAt | keystretch_main.c:90-92 | characters 2i and 2i+1 are the high and low nibble digits of byte i |
| HexCodec.PrintHex | keystretch_main.c:84-94 | the printed text is `Encode(values)`: 2·size characters, high nibble first (phs_main.c:80-90) |
| HexCodec.EncodeIsUpperCase | keystretch_main.c:78-81 | every printed character is a digit or one of 'A'-'F' |
| HexCodec.EncodeRoundTrip | keystretch_main.c:35-56 | decoding printed pair i with readHexByte succeeds and gives byte i back |
| HexCodec.PairRoundTrip | keystretch_main.c:91-92 | the two digits printed for a byte decode to that byte |
| HexCodec.ValidPairs | keystretch_main.c:69-71 | the number of leading pairs that are both hex digits; the next pair, if any, is not |
| HexCodec.ReadHexSalt | keystretch_main.c:58-73 | odd length is a usage error, as is a failed allocation; otherwise `len/2` bytes, the leading valid pairs decoded, stopping silently at the first invalid pair (phs_main.c:54-69) |
| HexCodec.EncodedPairsValid | keystretch_main.c:69-71 | a printed key is all valid pairs and reads back byte for byte |
| KeystretchCli.ToU32 | keystretch_main.c:27 | the long-to-uint32 conversion: identity in range, congruent modulo 2^32 |
| KeystretchCli.ReadUint32 | keystretch_main.c:24-32 | an empty argument or one with trailing text is a usage error naming the argument; otherwise the parsed value modulo 2^32 |
| KeystretchCli.ReadArguments | keystretch_main.c:96-111 | argc must be 9; succeeds exactly when the six integers are well formed, the salt has even length and its allocation succeeds; a malformed integer is reported before any salt error, and the one reported is the first; odd salt and failed allocation each reported exactly when every integer is valid; the fields are in order, memory = MB·2^20, page size = the 32-bit product KB·2^10, salt from hex, password the last argument |
| KeystretchCli.ValidInteger | keystretch_main.c:28 | what readUint32 accepts: a non-empty argument that `strtol` consumes entirely |
| KeystretchCli.PageSizeOfKb | keystretch_main.c:105 | the intended page size: KB·2^10 computed without wrapping |
| KeystretchCli.PageSizeOfKbAsWritten | keystretch_main.c:105 | the code's page size: KB·2^10 modulo 2^32 |
| KeystretchCli.PageSizeWrapsToValidSize | keystretch_main.c:105 | 2^22 + 1 KB wraps to a 1 KB page that the range and power-of-two checks accept |
| KeystretchCli.PageSizeOfKbInRange | keystretch_main.c:126-128 | without the wrap, the page-size range holds exactly for 1 .. 2^18 KB |
| KeystretchCli.OnlyFactorsOfTwo | keystretch_main.c:141-146 | the halving loop followed by `!= 1` reports exactly whether x is a power of two; it terminates for x > 0 |
| KeystretchCli.FactorOk | keystretch_main.c:117 | the hashing factor is at most 2^20 |
| KeystretchCli.MultiplierOk | keystretch_main.c:120 | the multiplier is between 1 and 2^20 |
| KeystretchCli.MemorySizeOk | keystretch_main.c:123 | the memory is between 2^20 and 100·2^32 bytes |
| KeystretchCli.PageSizeRangeOk | keystretch_main.c:126 | the page is between 2^8 and 2^28 bytes |
| KeystretchCli.ThreadCountOk | keystretch_main.c:129 | between 1 and MAX_THREADS threads |
| KeystretchCli.DerivedKeySizeOk | keystretch_main.c:132 | the key is between 8 and 2^20 bytes |
| KeystretchCli.SaltSizeOk | keystretch_main.c:135 | the salt is between 4 and 2^9 bytes |
| KeystretchCli.RangesOk | keystretch_main.c:117-140 | every range check passes and the password is not empty |
| KeystretchCli.Accepts | keystretch_main.c:117-153 | the range checks pass and the page and key sizes are powers of two |
| KeystretchCli.Verdict | keystretch_main.c:117-153 | the first failing check, in source order, names the reason; none exactly when `Accepts` |
| KeystretchCli.VerifyParameters | keystretch_main.c:114-153 | accepts exactly the stated ranges plus power-of-two page and key sizes; each of the ten reasons is returned exactly when its check fails and every earlier check passes (factor, multiplier, memory, page range, threads, key range, salt, password, page power of two, key power of two); the result is `Verdict` |
| KeystretchCli.NumPages | keystretch.c:111 | the number of whole pages the memory holds |
| KeystretchCli.TooFewPagesAccepted | keystretch_main.c:123-128 | 1 MB of memory with 256 MB pages is accepted and gives 0 pages |
| KeystretchCli.VerifyParametersCorrected | keystretch_main.c:114-153 | the validation with the missing test: accepts exactly when VerifyParameters does and the memory holds two pages; any reason the code gives is kept, and otherwise the reason is an invalid memory size, given exactly when two pages do not fit (`CorrectedVerdict`) |
| KeystretchCli.CorrectedVerdict | keystretch_main.c:123-125 | `Verdict`, except that parameters it accepts whose memory holds fewer than two pages get an invalid memory size; none exactly when `AcceptsWithTwoPages` |
| KeystretchCli.AcceptedShapes | keystretch_main.c:114-153 | accepted parameters give power-of-two pages of at least 32 words, at least two pages, fewer than 2^32 pages, whole-word keys |
| KeystretchCli.PageShape | keystretch_main.c:126-146 | an accepted page size is a power of two of at least 32 words |
| KeystretchCli.WordMultiple | keystretch_main.c:132-152 | a power of two of at least 8 bytes is whole words |
| KeystretchCli.PagesBelow2To32 | keystretch.c:111 | accepted sizes give fewer than 2^32 pages, so the uint32 page count does not wrap |
| PhsCli.ReadArguments | phs_main.c:92-103 | argc must be 6; key size, password, hex salt, t_cost and m_cost in MB (·2^20) in that order; each error (bad key size, odd salt, failed salt allocation, bad t_cost, bad m_cost) is returned exactly when every earlier step succeeded and it fails |
| PhsCli.PhsRangesOk | phs_main.c:108-122 | the multiplier, memory, key and salt ranges hold and the password is not empty |
| PhsCli.PhsAccepts | phs_main.c:108-128 | the range checks pass and the key size is a power of two |
| PhsCli.VerifyParameters | phs_main.c:106-129 | accepts exactly the stated ranges and a power-of-two key size; each of the six reasons is returned exactly when its check fails and every earlier one passes |
| PhsCli.MemoryCostAsWritten | phs_main.c:139 | the 64-bit memory size reaches `PHS` reduced modulo 2^32 |
| PhsCli.MemoryCostTruncated | phs_main.c:139 | 4096 MB is accepted but reaches the core as 0 bytes: no pages |
| PhsCli.AcceptedMemoryHoldsPages | phs_main.c:111-113 | every accepted memory size, without truncation, holds at least 64 pages of 16 KB |
| Engine.Hash | keystretch.c:44-53 | one inner-loop iteration keeps the lane cursor in the lane and the read address in the source page |
| Engine.MixWord | keystretch.c:48 | the lane word gains `(pageData*keyData) ^ lastPageData`, modulo 2^64 |
| Engine.HashRule | keystretch.c:45-52 | the stored word is the lane word before its update; that lane word alone gains `(pageData*keyData) ^ lastPageData` mod 2^64; the cursor moves one place round the lane; the word read becomes the last word |
| Engine.Hashes | keystretch.c:42-54 | n iterations keep the cursor and the read address in bounds |
| Engine.HashesNext | keystretch.c:42-54 | n + 1 iterations are one more iteration after n |
| Engine.HashStores | keystretch.c:46 | one iteration writes only at `t`, and writes the lane word under the cursor |
| Engine.HashKeepsKeys | keystretch.c:48 | one iteration changes only the lane word under the cursor |
| Engine.HashesFrame | keystretch.c:42-54 | n iterations write only the n words from the destination on and change only the lane |
| Engine.Advance | keystretch.c:48-51 | the lane cursor stays inside the lane |
| Engine.AdvanceIsModulo | keystretch.c:48-51 | after n moves the cursor is at `(k + n) mod keyLength` |
| Engine.HashesCursor | keystretch.c:48-51 | n iterations move the lane cursor n places round the lane and the group position n places round the group |
| Engine.HashesStores | keystretch.c:45-46 | iteration j stores the lane word as the first j iterations left it, and later iterations do not overwrite it |
| Engine.HashReadsSource | keystretch.c:47 | while the source page lies before the destination, iteration j reads the source word as it was before the fill |
| Engine.GroupAddr | keystretch.c:43 | the group's read address is at most the page mask |
| Engine.PageMask | keystretch.c:35 | the page mask is `pageLength - 8` |
| Engine.PageMaskIs | keystretch.c:35 | `(pageLength - 1) & ~7` in 32 bits is `pageLength - 8` |
| Engine.GroupReadsInPage | keystretch.c:43-47 | every group reads 8 words from a multiple of 8, all inside the source page |
| Engine.Passes | keystretch.c:42-54 | passes over one destination keep cursor and read address in bounds |
| Engine.PassesFrame | keystretch.c:42-54 | any number of passes writes only the destination words and only the lane |
| Engine.Fill | keystretch.c:31-55 | the intended production fill: `cpuWorkMultiplier` passes of pageLength/8 groups, each pass restarting at the page |
| Engine.Start | keystretch.c:36-43 | fillPage's first state: the cursor at the lane's first word, `lastPageData = 1`, the first address `1 & pageMask` |
| Engine.FillFrame | keystretch.c:31-55 | the intended fill writes only the destination page and only the page's lane |
| Engine.HashAgree | keystretch.c:44-52 | one inner-loop iteration writes word t and reads only source words below it: two walks equal below t stay in bounds and equal below t + 1 |
| Engine.HashesAgree | keystretch.c:42-53 | iterations writing from `dst` on and reading a source page below `dst` keep two walks that agree below `dst` agreeing on the lane and on every word written |
| Engine.PassesAgree | keystretch.c:42-54 | the same for any number of passes restarting at `dst` |
| Engine.FillAgree | keystretch.c:31-55 | fillPage reads nothing at or above the destination page: memories agreeing below it give the same lanes and agree up to the page's end (below the page when the multiplier is 0) |
| Engine.FillStores | keystretch.c:45-46 | after at least one pass, word j of the page is the lane word under the cursor after the last pass's first j iterations |
| Engine.PassEndsGroup | keystretch.c:42-54 | a pass of pageLength iterations ends on a group boundary |
| Engine.NumHashesAsWritten | keystretch.c:37 | `(pageLength*multiplier) >> 3` computed in 32 bits |
| Engine.FillAsWritten | keystretch.c:31-55 | the code's fill: numHashes groups stored through a `t` that is never moved back |
| Engine.MultiplierOneAgrees | keystretch.c:37-40 | with multiplier 1 the code's fill is the intended fill and stores exactly one page |
| Engine.OverrunWithMultiplierTwo | keystretch.c:37-46 | with multiplier 2 the code stores two pages' worth: the next page's first word is overwritten, where the intended fill keeps it |
| Engine.NumHashesOfTwo | keystretch.c:37 | for pages up to 2^30 words, multiplier 2 gives two pages' worth of groups |
| Engine.NumHashesWrapsToZero | keystretch.c:37 | 2^25-word pages with multiplier 2^7 give numHashes = 0: the page is never written |
| Engine.LargestPageLength | keystretch_main.c:126 | 2^25 words, the largest accepted page, is a valid engine page length |
| Engine.PageOffset | keystretch.c:33-34 | the intended page offset `page * pageLength`, unwrapped |
| Engine.PageOffsetNext | keystretch.c:33-34 | page p + 1 starts where page p ends, and page p >= 1 starts after page 0 |
| Engine.PagesDisjoint | keystretch.c:33-34 | distinct pages of the memory occupy disjoint words inside it |
| Engine.PageOffsetAsWritten | keystretch.c:33-34 | the code's offset: the uint32 product, modulo 2^32 |
| Engine.PageOffsetWraps | keystretch.c:33-34 | with 16 KB pages and 64 GB of memory, page 2^21 is addressed as page 0 |
| Engine.SourcePage | keystretch.c:74-77 | the source page is 0 up to MAX_THREADS and otherwise `(uint32)key[0] mod (to − MAX_THREADS)`; always earlier, and past MAX_THREADS more than MAX_THREADS pages back |
| Engine.LaneStart | keystretch.c:73 | page p's lane starts at `(p mod 16)·keyLength` and lies inside the `MAX_THREADS·keyLength` table |
| Engine.ThreadMaskIsModulo | keystretch.h:9 | `p & THREAD_MASK` is `p mod MAX_THREADS` |
| Engine.LanesOfNearbyPages | keystretch.c:73 | pages share a lane exactly when their numbers differ by a multiple of 16 |
| Words.Successor | keystretch.c:147-149 | the index after i among n, the last wrapping to the first, stays below n: the next context in the ring here, the word after j on a page in noelkdf.c:36 |
| Mixing.TurnsUntil | keystretch.c:66-69 | the number of token passes from one context to another is below the ring size |
| Mixing.RingOk | keystretch.c:65-72 | the thread ring between turns: the holder is the context of the last claimed page, a thread has stopped exactly when its last page number reached numPages, and every source page is 0 until a number beyond MAX_THREADS is claimed |
| Mixing.FirstStop | keystretch.c:70-72 | the first stopping ticket is numPages, and never ticket 0 |
| Mixing.RingStarts | keystretch.c:137-150 | the set-up is a ring state: ticket 1 next, context 0 holding the token, nobody stopped |
| Mixing.TurnKeepsRing | keystretch.c:66-77 | a running holder's turn claims the ticket, passes the token on, stops exactly on a ticket >= numPages, and changes only its own source page |
| Mixing.RunningHolder | keystretch.c:65-72 | while the token is at a running thread, a stopping ticket is still to be drawn |
| Mixing.StoppedHolder | keystretch.c:65-72 | once the token reaches a stopped thread every thread has stopped, after exactly numPages − 1 pages and one stopping ticket each |
| Mixing.PageTurn | keystretch.c:73-78 | ticket `to`'s fill changes only page `to` and lane `to & THREAD_MASK` |
| Mixing.Schedule | keystretch.c:58-80 | pages 1 .. upTo − 1 in ticket order; page 0 and pages from upTo on unchanged |
| Mixing.ScheduleStep | keystretch.c:68-78 | one more ticket is one more page fill |
| Mixing.Claimed | keystretch.c:68-72 | the number of pages filled once a ticket is drawn; tickets stop counting at numPages |
| Mixing.ScheduleAdvance | keystretch.c:68-78 | drawing a ticket keeps the store equal to the schedule: below numPages it fills the next page, from numPages on it changes nothing |
| Mixing.PageTurnAgree | keystretch.c:73-78 | with multiplier ≥ 1, stores with the same lanes agreeing below page `to` agree, lanes included, up to the end of page `to` after its turn |
| Mixing.ScheduleAgree | keystretch.c:58-80 | with multiplier ≥ 1, stores with the same lanes and page 0 have the same lanes and agree on every page below upTo after the schedule |
| Mixing.ScheduleWithoutPasses | keystretch.c:37-42 | with multiplier 0 numHashes is 0 and the schedule changes nothing |
| Mixing.Contexts.constructor | keystretch.c:137-150 | the contexts share memory, lanes and sizes; ticket 1 next, context 0 holds the token, every source page is 0 |
| Mixing.Contexts.HashWord | keystretch.c:45-52 | one inner-loop iteration on the arrays is one more `Hash` |
| Mixing.Contexts.HashGroup | keystretch.c:43-53 | one group of 8 iterations on the arrays is 8 more `Hash`es, and the next group's address is the last word read, masked |
| Mixing.Contexts.HashGroups | keystretch.c:42-54 | `while(numHashes--)` on the arrays equals `Hashes` over the groups |
| Mixing.Contexts.FillPageAsWritten | keystretch.c:31-55 | the arrays end as `FillAsWritten` describes: the unreset `t` and the 32-bit numHashes |
| Mixing.Contexts.FillPage | keystretch.c:31-55 | the intended fill: the arrays end as `Fill` describes, only the destination page and the page's lane change |
| Mixing.Contexts.Turn | keystretch.c:65-79 | claims `nextPageNum++`, passes the token, stops on a ticket >= numPages with nothing changed, otherwise records an earlier source page and performs `PageTurn` |
| Mixing.Contexts.Round | keystretch.c:65-79 | a turn keeps the arrays equal to the schedule of the tickets drawn |
| Mixing.Contexts.HashMem | keystretch.c:58-80 | all threads stop after numPages + numThreads − 1 tickets, and the arrays are the schedule of pages 1 .. numPages − 1 |
| Mixing.Contexts.Wipe | keystretch.c:168 | the contexts are cleared; the ring state is kept for the proof and memory and lanes are untouched |
| Keystretch.SizesOf | keystretch.c:110-114 | memoryLength = pageLength·numPages fits the memory size; the page count and key length do not wrap |
| Keystretch.SizesMeaning | keystretch.c:110-114 | pages of pageSize bytes, as many whole pages as fit, and the fewest words that hold the key |
| Keystretch.WholePages | keystretch.c:111 | the page count is memory/pageSize with less than a page left over |
| Keystretch.KeyWords | keystretch.c:114 | `(derivedKeySize + 7)/8` words hold the key with less than a word spare |
| Keystretch.AcceptedSizes | keystretch_main.c:114-153 | parameters accepted with at least two pages give sizes keystretch can use, and whole-word keys |
| Keystretch.AllocateAsWritten | keystretch.c:113-119 | the code proceeds exactly when both allocations succeed, and keeps whichever succeeded |
| Keystretch.AllocationFailureLeaks | keystretch.c:116-119 | memory obtained, lanes refused: false is returned with the memory still held |
| Keystretch.Allocate | keystretch.c:113-119 | the intended allocation: proceeds exactly when both succeed, holds nothing on failure |
| Keystretch.AllocateAgrees | keystretch.c:116-119 | the two allocations agree on whether to proceed, and agree entirely on success |
| Keystretch.Seeded | keystretch.c:122-128 | lanes from PBKDF2 of the stretched key, page 0 from PBKDF2 of the salt, the rest of memory as `malloc` left it |
| Keystretch.Mixed | keystretch.c:151-162 | the lanes and memory after hashMem have the layout of the sizes |
| Keystretch.SaltPageKept | keystretch.c:127-128 | page 0 still holds the PBKDF2 of the salt after mixing |
| Keystretch.DerivedKey | keystretch.c:165-166 | the derived key has the requested length |
| Keystretch.SeedsAgree | keystretch.c:113-128 | seeding over two heaps gives the same lanes and the same page 0 |
| Keystretch.DerivedKeyIgnoresHeap | keystretch.c:113-166 | the derived key is the same whatever `malloc` returned, for every multiplier; the lanes too, and with multiplier ≥ 1 the whole mixed memory |
| Keystretch.StretchedKey | keystretch.c:97-180 | the key keystretch derives, taken over zeroed memory (the same over any memory, DerivedKeyIgnoresHeap), of the requested length |
| Keystretch.StoreWords | keystretch.c:122-123 | a PBKDF2 output written through a byte cast over a word buffer, little-endian |
| Keystretch.StoreBytes | keystretch.c:104 | a PBKDF2 output written into a byte buffer |
| Keystretch.WipeWords | keystretch.c:167 | `memset` leaves every word 0 |
| Keystretch.WipeBytes | keystretch.c:124 | `memset` leaves every byte 0 |
| Keystretch.StretchPassword | keystretch.c:104-107 | derivedKey is PBKDF2 of the password; the password is zeroed exactly when clearPassword |
| Keystretch.SeedLanes | keystretch.c:122-124 | the lanes are PBKDF2 of the stretched key, and derivedKey is then zeroed |
| Keystretch.Finish | keystretch.c:165-167 | derivedKey is PBKDF2 of the lanes read as bytes, and the lanes are then zeroed |
| Keystretch.Mix | keystretch.c:113-162 | fresh memory and lanes hold what `Mixed` describes |
| Keystretch.InMemory | keystretch.c:122-173 | the key is `DerivedKey`, lanes and contexts are wiped, memory is zeroed exactly when clearMemory |
| Keystretch.Keystretch | keystretch.c:97-180 | password zeroed iff clearPassword; false exactly on a failed allocation, keeping the buffer obtained, with the first PBKDF2 output in the key buffer; on success the key is `DerivedKey` over the memory `malloc` returned and equals `StretchedKey`, lanes and contexts are wiped, memory zeroed iff clearMemory, buffers held unless freeMemory |
| Keystretch.PhsPageLength | keystretch.c:187 | PHS's 16 KB page is 2048 words, a power of two |
| Keystretch.PhsSizes | keystretch.c:185-189 | PHS's constants give usable sizes: 2048-word pages, as many as m_cost holds |
| Keystretch.Phs | keystretch.c:185-189 | keystretch with 4096 rounds, t_cost as multiplier, 16 KB pages and 2 threads; the input is left as it was; 1 exactly when keystretch succeeds, the output then being `StretchedKey` |
| Keystretch.TextBytes | keystretch_main.c:166 | the password's bytes as `(uint8 *)password` reads them |
| Keystretch.Command | keystretch_main.c:155-174 | argc other than 9 is a usage error; a malformed integer is reported at its least index before anything about the salt; an odd salt and a failed salt allocation are reported exactly when the integers are valid; for arguments that are read, the usage reason is exactly the corrected validator's (`ArgumentsVerdict`); no usage error exactly when the arguments are read and pass the validation with two pages; the arguments are then argv's in order (salt from hex, threads from argv[5]); the password ends zeroed; failure exactly on a failed allocation, leaving the first PBKDF2 output unwiped; otherwise the printed text is the hex of `StretchedKey` and the key buffer ends zeroed |
| Keystretch.ArgumentsVerdict | keystretch_main.c:160-163 | the corrected validator's reason for the fields readArguments takes from argv |
| Keystretch.ArgumentsRead | keystretch_main.c:160-161 | eight arguments, six well-formed integers, an even-length salt and a salt buffer |
| Keystretch.CommandAccepted | keystretch_main.c:160-163 | the arguments are read and pass the validation with two pages, over the `ToU32` fields, the page size as computed in 32 bits and the memory in MB |
| Keystretch.PrintsKey | keystretch_main.c:164-170 | the printed text is the hex of the key keystretch derives from the arguments over the sizes they give |
| Keystretch.StretchAndPrint | keystretch_main.c:164-172 | keystretch with clearPassword true and clearMemory/freeMemory false; on failure the key buffer holds the first PBKDF2 output; on success the printed text is the hex of `StretchedKey` and the key buffer ends zeroed |
| Keystretch.StretchArguments | keystretch_main.c:164-166 | the keystretch call of `main`: the password ends zeroed, success exactly when both allocations do, and the key is then `StretchedKey` |
| Reference.Step | keystretch-ref.c:34-38 | one reference step keeps the lane at 8 words |
| Reference.RefMix | keystretch-ref.c:35 | `key[i&7] += (pageData*key[(i+1)&7]) ^ lastPageData`, modulo 2^64 |
| Reference.Steps | keystretch-ref.c:33-39 | n steps write n words |
| Reference.StepsStoreUpdatedKey | keystretch-ref.c:35-38 | word i is key word `i & 7` after step i updated it; after step i the last word is `from[i]` |
| Reference.StepsReadPrefix | keystretch-ref.c:33-34 | a pass of n steps reads only source indices 0 .. n − 1 |
| Reference.RefPasses | keystretch-ref.c:30-40 | m passes end with one page of output (none for m = 0) |
| Reference.PassOn | keystretch-ref.c:31-39 | one pass changes only the destination page and leaves there the words of `Steps` over the source page |
| Reference.PassAdvance | keystretch-ref.c:33-39 | one more inner iteration takes the pass one step further |
| Reference.FillPasses | keystretch-ref.c:27-41 | m passes keep the memory length and the lane |
| Reference.FillPassesFrame | keystretch-ref.c:30-36 | however many passes, only the destination page changes |
| Reference.SourceKept | keystretch-ref.c:28-34 | every pass reads the source page as it was before the first |
| Reference.FillPassesLane | keystretch-ref.c:29-40 | the lane and last word carry through all passes |
| Reference.FillPassesMeaning | keystretch-ref.c:27-41 | for any multiplier only the destination page changes, the source is read unchanged, the lane carries, and the page keeps the last pass's words |
| Reference.FillPassesPage | keystretch-ref.c:31-36 | after pass k + 1 the page holds that pass's words |
| Reference.FillPassesAgree | keystretch-ref.c:27-41 | with at least one pass, fillPage reads nothing at or above the destination page: same lane and memories agreeing below it give the same lane and agree up to its end |
| Reference.SourcePageRef | keystretch-ref.c:50-51 | `(uint32)key[0] mod to` is an earlier page |
| Reference.PageStep | keystretch-ref.c:50-52 | filling page `to` changes only that page |
| Reference.RefSchedule | keystretch-ref.c:44-54 | pages 1 .. upTo − 1 in increasing order; page 0 and later pages unchanged |
| Reference.RefScheduleStep | keystretch-ref.c:49-53 | one more loop iteration fills one more page |
| Reference.PageStepAgree | keystretch-ref.c:49-53 | with multiplier ≥ 1, states with the same lane agreeing below page `to` agree, lane included, up to the end of page `to` after it is filled |
| Reference.RefScheduleAgree | keystretch-ref.c:44-54 | with multiplier ≥ 1, states with the same lane and page 0 agree on the lane and every page below upTo after hashMem's loop |
| Reference.RefScheduleWithoutPasses | keystretch-ref.c:30 | with multiplier 0 no pass runs and hashMem changes nothing |
| Reference.RefFirstPage | keystretch-ref.c:86-89 | page 0 lies inside memory and holds at least 8 words |
| Reference.LastPage | keystretch-ref.c:110 | the last page ends where memory ends |
| Reference.RefSeeded | keystretch-ref.c:96-104 | page 0 from the stretched key, the rest of memory as `malloc` left it |
| Reference.RefMixed | keystretch-ref.c:107 | the state after hashMem keeps the layout |
| Reference.RefDerivedKey | keystretch-ref.c:110-111 | the derived key has the requested length |
| Reference.KeyOfLastPage | keystretch-ref.c:110-111 | the derived key is PBKDF2 of the mixed memory's last page |
| Reference.DerivedFromLastPage | keystretch-ref.c:110-111 | two runs whose mixed memories agree on the last page derive the same key, whatever their passwords, rounds, multipliers and heap contents |
| Reference.RefFirstPageKept | keystretch-ref.c:49-53 | hashMem never writes page 0 |
| Reference.RefSeedsAgree | keystretch-ref.c:96-104 | seeding over two heaps gives the same lane and the same page 0 |
| Reference.RefDerivedKeyIgnoresHeap | keystretch-ref.c:89-111 | with multiplier ≥ 1, or only page 0, the mixed state and the derived key are the same whatever `malloc` returned |
| Reference.RefKeyReadsHeap | keystretch-ref.c:89-111 | with multiplier 0 and two pages or more, the derived key is the PBKDF2 of the last page exactly as `malloc` returned it |
| Reference.Seed | keystretch-ref.c:96-104 | the context and memory before hashMem are `RefSeeded` |
| Reference.Mix | keystretch-ref.c:89-107 | fresh memory holding what `RefMixed` describes |
| Reference.InMemory | keystretch-ref.c:96-120 | the key is `RefDerivedKey`, the context is wiped, memory zeroed exactly when clearMemory |
| Reference.Keystretch | keystretch-ref.c:72-123 | password zeroed iff clearPassword; false exactly when `malloc` fails, holding nothing; on success the key is `RefDerivedKey` over the memory `malloc` returned, the same as over zeroed memory when the multiplier is at least 1 or there is one page, the context wiped, memory zeroed iff clearMemory |
| Reference.Context.constructor | keystretch-ref.c:98-103 | memory, sizes and multiplier set, `lastPageData = mem[0]` |
| Reference.Context.StepAt | keystretch-ref.c:34-38 | one inner-loop iteration on the context and memory |
| Reference.Context.Pass | keystretch-ref.c:31-39 | one pass on the context and memory is `PassOn` |
| Reference.Context.FillPage | keystretch-ref.c:27-41 | `while(workMultiplier--)` passes, each restarting at the page: `FillPasses`, only the destination page changing |
| Reference.Context.HashMem | keystretch-ref.c:44-54 | the loop over pages equals `RefSchedule` up to numPages |
| Reference.Context.Wipe | keystretch-ref.c:112 | the key and `lastPageData` are cleared |
| Words.Predecessor | noelkdf.c:28 | the index before j among n, the first wrapping to the last, stays below n |
| NoelKdf.NeighboursModulo | noelkdf.c:28-36 | the two neighbours are `(j ± 1) mod L`, and each undoes the other |
| NoelKdf.HashedWord | noelkdf.c:28-36 | word j of a hashed page: previous page's word j plus (source word j times previous page's next word) xor the source's word before j, neighbours taken round the page, modulo 2^64 |
| NoelKdf.HashedPrefix | noelkdf.c:28-36 | the first n words of the hashed page |
| NoelKdf.HashedPrefixAt | noelkdf.c:31-35 | word j of any prefix is the hashed word j |
| NoelKdf.HashedPage | noelkdf.c:26-37 | the hashed page has L words |
| NoelKdf.HashedPageWords | noelkdf.c:26-37 | word j is `prev[j] + ((from[j]·prev[j+1 mod L]) ^ from[j−1 mod L])` mod 2^64 |
| NoelKdf.HashedPageEnds | noelkdf.c:28-36 | the first word reads the source's last word, the last word reads prev's first |
| NoelKdf.HashedPageInside | noelkdf.c:31-35 | inside the page both neighbours are the plain ones |
| NoelKdf.ReadsBelow | noelkdf.c:28-36 | while storing word i, the words read below the page are still the source pages' |
| NoelKdf.StoreWord | noelkdf.c:32-34 | one store extends the written prefix by one hashed word |
| NoelKdf.HashPage | noelkdf.c:26-37 | exactly the L words of `toPage` become the hashed page; nothing else changes |
| NoelKdf.FromPage | noelkdf.c:52 | `*prevPage % i` is an earlier page |
| NoelKdf.SourceOffset | noelkdf.c:52 | `PAGE_LENGTH*(*prevPage % i)` is that page's offset |
| NoelKdf.SeededPage | noelkdf.c:44-45 | PBKDF2 of the thread number fills page 0 only |
| NoelKdf.PageTurn | noelkdf.c:51-55 | one loop iteration changes only page i |
| NoelKdf.Filled | noelkdf.c:48-56 | after pages 1 .. upTo − 1, page 0 and later pages are unchanged |
| NoelKdf.FilledNext | noelkdf.c:50-56 | one more iteration hashes one more page, `prevPage` being page i − 1 |
| NoelKdf.PageTurnIs | noelkdf.c:52-53 | the iteration stores the hash of page i − 1 with the chosen source page at page i |
| NoelKdf.FilledStable | noelkdf.c:49-56 | filling page i leaves every earlier page unchanged |
| NoelKdf.PageTurnFromPrefix | noelkdf.c:52-53 | a page turn reads only below the page it writes |
| NoelKdf.FilledFromPageZero | noelkdf.c:43-56 | the filled pages depend on page 0 alone, not on what `malloc` left |
| NoelKdf.SeedPage | noelkdf.c:44-45 | the arrays after PBKDF2 fills page 0 |
| NoelKdf.HashMem | noelkdf.c:39-56 | page 0 seeded, then pages 1 .. NUM_PAGES − 1 hashed in order |
| MemoryCopy.BlockMask | memorycpy.c:11 | `(BLOCK_LENGTH - 1) & ~7` is `BLOCK_LENGTH − 8` |
| MemoryCopy.BenchmarkSizes | memorycpy.c:7-14 | the benchmark's own sizes: 2048-word blocks, mask 2040, 131072 blocks, 8-word key |
| MemoryCopy.LineOffset | memorycpy.c:33 | `hash & BLOCK_MASK` is 8-aligned and the 8 words it starts lie inside the block |
| MemoryCopy.SourceBlock | memorycpy.c:30 | `hash % i` is an earlier block |
| MemoryCopy.NextHash | memorycpy.c:38 | `hash += (pageData*keyData) ^ lastPageData`, modulo 2^64 |
| MemoryCopy.InitialState | memorycpy.c:19-28 | block 0 is all zeros, the rest of memory as `malloc` left it |
| MemoryCopy.Step | memorycpy.c:36-41 | one step writes one word |
| MemoryCopy.StepEffect | memorycpy.c:36-41 | `hash` gains `(pageData·key[k]) ^ lastPageData` mod 2^64; key[k] and the destination word become the new hash; `lastPageData` becomes the word read |
| MemoryCopy.Group | memorycpy.c:35-42 | a line of n steps writes n words |
| MemoryCopy.GroupNext | memorycpy.c:35-42 | step n follows the first n steps |
| MemoryCopy.GroupStoresKey | memorycpy.c:39-40 | the words a line writes are the key words it leaves |
| MemoryCopy.GroupAppends | memorycpy.c:40 | a line only appends |
| MemoryCopy.Lines | memorycpy.c:32-43 | g lines write 8g words |
| MemoryCopy.LinesNext | memorycpy.c:32-34 | line g reads at the offset the hash selects when it starts |
| MemoryCopy.LinesAppend | memorycpy.c:32-43 | later lines keep the words of earlier ones |
| MemoryCopy.LineHoldsKey | memorycpy.c:35-42 | line g writes the key it leaves |
| MemoryCopy.BlockWords | memorycpy.c:32-43 | all lines of a block write exactly one block of words |
| MemoryCopy.BlockTurn | memorycpy.c:30-43 | block i reads block `hash % i` and changes only block i |
| MemoryCopy.Mixed | memorycpy.c:29-44 | blocks 1 .. upTo − 1 in order; block 0 and later blocks unchanged |
| MemoryCopy.MixedNext | memorycpy.c:29-44 | one more outer iteration writes one more block |
| MemoryCopy.MixedStable | memorycpy.c:29-44 | blocks once written are never changed again |
| MemoryCopy.BlockTurnAgree | memorycpy.c:30-43 | a block reads only below itself |
| MemoryCopy.MixedAgree | memorycpy.c:29-44 | states agreeing on block 0 and the variables agree below every filled block |
| MemoryCopy.FillIgnoresGarbage | memorycpy.c:17-44 | the filled memory does not depend on what `malloc` returned |
| MemoryCopy.MixWordStep | memorycpy.c:36-41 | one innermost iteration on the arrays is one `Step` |
| MemoryCopy.MixGroup | memorycpy.c:35-42 | the innermost loop is one line |
| MemoryCopy.MixLine | memorycpy.c:32-43 | one middle iteration reads at `sourceBlock + (hash & BLOCK_MASK)` and writes at `destBlock + j` |
| MemoryCopy.MixBlock | memorycpy.c:32-43 | the middle loop writes the whole destination block from its source block |
| MemoryCopy.FillMemory | memorycpy.c:26-44 | zero block 0, then fill blocks 1 .. numBlocks − 1: the memory is `Mixed` from `Start` |

## Left out

- Threads, spin-waits and joins are not modelled (keystretch.c:66-69,151-162; noelkdf.c:66,69-89). `hashMem` is the sequential ring `Contexts`: a turn is taken by the context holding the token. Real interleavings are left out. So are the `MAX_THREADS` look-back margin and the sharing of a lane by pages p and p + 16, both of which are claims about concurrent timing.
- Keystretch.Keystretch: it does not model the `pthread_create` failure (keystretch.c:151-157), where the code returns false after stretching and seeding. `ok` is false exactly on a failed allocation.
- Output and exits are not modelled as I/O. `printf`, `fprintf` and `putchar` are left out; `printHex`'s output is a returned string. `usage(...)` with `exit(1)` becomes a `Usage` error result.
- `strtol` is the `Parser` parameter. Its overflow behaviour is whatever the parser returns, reduced modulo 2^32 (`ToU32`).
- `malloc`/`calloc` are boolean parameters. `free` is recorded as the set of buffers still held. The `calloc` of the derived key in `main` (keystretch_main.c:164) is taken to succeed, since the code does not check it.
- PBKDF2-HMAC-SHA256 is the `prf` parameter with a declared output length. No cryptographic property is stated.
- `rand()` and the final prints of the benchmarks are left out (noelkdf.c:65, memorycpy.c:46). So are the benchmarks' `main` functions apart from memorycpy.c's fill loop. Timing and bandwidth are not modelled.
- The benchmarks' sizes are parameters; their own constants are in `NoelKdf` and `MemoryCopy.BenchmarkSizes`. `KEY_MASK` (memorycpy.c:14) is unused by the code and not modelled.
- `sizeof(salt)` in noelkdf.c:44 is the size of a pointer, taken as 8 bytes (LP64).
- Mixing.Contexts.Turn: pages are filled by the intended `FillPage`, not by the code's fill. The code does not move `t` back between passes and takes page offsets in 32 bits (see Findings). The two agree for a multiplier of 1 while page offsets stay below 2^32 words (`Engine.MultiplierOneAgrees`).
- Mixing.Contexts.HashMem: fills pages with the intended `FillPage` (see Turn), so for a multiplier above 1, or offsets past 2^32 words, it is not the code's memory.
- Mixing.Contexts.FillPageAsWritten: takes page offsets without the 32-bit wrap (shown separately by `Engine.PageOffsetWraps`). It requires the words it stores to lie inside memory; beyond that the code writes outside its allocation, which has no meaning here.
- Mixing.Contexts.Turn: `nextPageNum` is unbounded, not a uint32. With accepted sizes it stays below numPages + 16 < 2^32 (`KeystretchCli.PagesBelow2To32`).
- Mixing.Contexts.Wipe: the `memset` of the contexts is a flag `wiped`. The pointers, sizes, multiplier and spin-locks are constants of the model, so only the erasure itself is recorded.
- Keystretch.Mixed: describes the memory after the intended fill (see Mixing.Contexts.HashMem).
- Keystretch.Keystretch: uses the intended fill and unwrapped page offsets (see Mixing.Contexts.Turn). It requires at least one page and a power-of-two page length. With no page, the code's PBKDF2 of page 0 writes past a zero-size allocation (see Findings, too few pages).
- Keystretch.Phs: requires `m_cost` of at least one 16 KB page. phs_main.c can pass 0 after truncation (see Findings), and then the code writes page 0 outside its allocation.
- Keystretch.Command: validates with `KeystretchCli.VerifyParametersCorrected`, which also insists on two pages. With the code's own validation, too few pages reach keystretch (see Findings). Arguments are taken as text of byte-sized characters (`IsByteText`).
- Reference.Context.FillPage: page offsets are taken without the 32-bit wrap of `fromPageNum*c->pageLength` and `toPageNum*c->pageLength` (keystretch-ref.c:28,31).
- Reference.Keystretch: the key over zeroed memory is stated only for a multiplier of at least 1 or a single page, because with multiplier 0 and more pages the code hashes a last page it never wrote (RefKeyReadsHeap), so the key depends on what `malloc` returned.
- Reference.Keystretch: page offsets, the last page's included (keystretch-ref.c:110), are taken without the 32-bit wrap. It requires at least one page.
- HexCodec.ReadHexSalt: the bytes after the first invalid pair are unspecified, since they are whatever `malloc` returned.
- The reference `PHS` wrapper (keystretch-ref.c:128-132) only fixes constants, and its `keystretch` is modelled. The comment at keystretch.h:15-17 disagrees with the constants of both wrappers; the code is followed.

## Findings

| source | as written | input that shows it | evidently intended | confidence | as-written member | corrected member |
|---|---|---|---|---|---|---|
| keystretch.c:40 | `t` starts at `toPage` and is never moved back, while `numHashes` counts `cpuWorkMultiplier` pages' worth of groups | cpuWorkMultiplier = 2 (accepted): the second pass writes pageLength words past `toPage`, into the next page | every pass restarts at `toPage`, as keystretch-ref.c:31 does | not executed | Engine.OverrunWithMultiplierTwo | Mixing.Contexts.FillPage |
| keystretch.c:37 | `numHashes = (pageLength*cpuWorkMultiplier) >> 3` is a uint32 product | 256 MB pages (2^25 words) with multiplier 2^7, both accepted: numHashes = 0 and the page is never written | multiplier passes of pageLength/8 groups, with no 32-bit product | not executed | Engine.NumHashesWrapsToZero | Engine.FillStores |
| keystretch.c:33-34 | `fromPageNum*pageLength` and `toPageNum*pageLength` are uint32 products (also keystretch-ref.c:28,31,110) | 16 KB pages and 64 GB of memory (accepted): page 2^21 is addressed as page 0 | 64-bit page offsets, so distinct pages are disjoint | not executed | Engine.PageOffsetWraps | Engine.PagesDisjoint |
| keystretch_main.c:123-128 | memory and page size are range-checked separately | 1 MB of memory with 256 MB pages is accepted and gives numPages = 0 | memory of at least two pages | not executed | KeystretchCli.TooFewPagesAccepted | KeystretchCli.AcceptedShapes |
| keystretch.c:116-119 | on a failed allocation the code returns without freeing the other buffer | `malloc` succeeds and `calloc` fails: the memory stays allocated with nothing pointing at it | free what was obtained before returning false | not executed | Keystretch.AllocationFailureLeaks | Keystretch.Allocate |
| phs_main.c:139 | the 64-bit memory size is passed as `unsigned int m_cost` | 4096 MB (accepted): m_cost = 0, so no pages | pass the size without truncation, or reject sizes of 4 GB and above | not executed | PhsCli.MemoryCostTruncated | PhsCli.AcceptedMemoryHoldsPages |
| keystretch_main.c:105 | `readUint32(argv, 4) * (1 << 10)` is a uint32 product | 4194305 KB wraps to a 1 KB page, which is accepted | compute the page size without wrapping, so oversized pages are rejected | not executed | KeystretchCli.PageSizeWrapsToValidSize | KeystretchCli.PageSizeOfKbInRange |
