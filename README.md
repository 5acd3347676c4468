# xid-ts in Dafny

A model of `Xid`, the globally unique identifier of the xid-ts library.

An ID is 12 bytes:
- a 4-byte timestamp in seconds since the Unix epoch;
- a 3-byte machine identifier;
- a 2-byte process id;
- a 3-byte counter.

Its text form is 20 characters of the lower-case "extended hex" alphabet
`0123456789abcdefghijklmnopqrstuv` (section 7 of RFC 4648).

Minting draws on process-wide state that the library holds in static fields:
- the machine identifier;
- the process id;
- a counter, seeded from random bytes and advanced by every new ID.

The model has five modules:

- `Alphabet` (`alphabet.dfy`) holds:
  - the symbol table;
  - the 256-entry decoding table, with a method that builds it as the module initialisation does, proved equal to a reference function `Digit`.
- `Codec` (`codec.dfy`) holds:
  - the 12-byte `Id` and the `Result` type whose one error is "invalid ID";
  - encoding and decoding, written as the slot-by-slot shift-and-mask expressions of the source;
  - both round trips, the exact failure condition of decoding, and the known vectors of the repository's tests.
- `Layout` (`layout.dfy`) holds:
  - the field accessors (timestamp, machine, pid, counter) and `isZero`;
  - the initial counter, the pid choice and the counter step;
  - the byte layout of a newly minted ID, together with what can be read back from it.
- `Order` (`order.dfy`) proves that the text form keeps the byte order of IDs.
- `Ids` (`xid.dfy`) holds:
  - `Generator`, a class for the static state, with `Mint` for `new Xid()`;
  - `Xid`, a class over a 12-byte array, with the constructor, `default`, `fromValue`, `parse`, the in-place `decode`, `encode` and `equals`.

Imperative code is modelled imperatively:
- the counter is a field that `Mint` updates;
- decoding writes the ID's own array in the source's order, byte 11 first;
- encoding fills a 20-character buffer;
- equality is an early-exit loop.

Each of these methods is proved against the pure functions of `Codec` and `Layout`, and the properties are proved about those functions.

The model follows the code where it departs from what the library evidently means:
- Bytes 9-11 of a minted ID are not the layout that `counter()` (src/index.ts:166-168) reads back (see Findings).
- `parse` of 20-character text is not free of side effects: it mints an ID first, so it advances the counter even when decoding then fails.

## Model

Some definitions have no row of their own. Each is covered by the rows of the members about it:
- `Codec.Store`, `Codec.DecodeSlot` and `Codec.Unpack` (the stores of src/index.ts:109-124) are covered by `Codec.DecodeEncode`, `Codec.EncodeDecode`, `Codec.DecodeFails` and `Ids.Xid.Decode`.
- `Codec.InAlphabet` (the validation loop of src/index.ts:103-107) and `Codec.Digits` (the `dec` lookups of src/index.ts:109-124) are covered by `Codec.DecodeFails` and `Ids.Xid.Decode`.
- `Layout.Machine` (src/index.ts:158-160) is covered by `Layout.MintedFields` and `Layout.ZeroFields`.
- `Layout.IsZero` (src/index.ts:170-172) is covered by `Layout.IsZeroMeansZero`.
- `Layout.MintedBytes` (src/index.ts:32-50, as written) is covered by `Layout.MintedFields`, `Layout.MintedCounterCollision`, `Layout.MintedCounterRepeats`, `Layout.ConsecutiveMintsDiffer`, `Layout.MintedNotZero` and `Ids.Generator.Mint`.
- `Layout.IntendedMintedBytes` (src/index.ts:48-50, as intended) is covered by `Layout.IntendedMintedFields` and `Layout.IntendedMintedInjective`.
- `Ids.ByteElement` and `Ids.AllByteElements` (the test of src/index.ts:80) are covered by `Ids.Xid.FromValue`.
- `Order.BytesBelow` and `Order.TextBelow` are covered by `Order.EncodeKeepsOrder`.

| member | source | states |
|---|---|---|
| Alphabet.Digit | src/index.ts:9-13 | a decoding-table entry is either the "invalid" mark 0xFF or a digit below 32 |
| Alphabet.DigitOfEncoding | src/index.ts:9-13 | every one of the 32 symbols decodes to its own position in the alphabet |
| Alphabet.EncodingOfDigit | src/index.ts:9-13 | every character the table accepts is the symbol written for its digit (the table is the exact inverse of the alphabet) |
| Alphabet.EncodingInjective | src/index.ts:9 | distinct digits have distinct symbols |
| Alphabet.DigitMonotone | src/index.ts:9 | the alphabet is in increasing character order: a later symbol has a larger digit |
| Alphabet.BuildTable | src/index.ts:10-13 | the table filled with 0xFF and then written once per symbol has 256 entries, and each entry agrees with the reference `Digit` |
| Codec.EncodeSlot | src/index.ts:130-149 | every output position receives a 5-bit digit (below 32), so every table lookup is in range |
| Codec.Symbol | src/index.ts:130-149 | the symbol written for a digit decodes back to that digit |
| Codec.Encode | src/index.ts:127-152 | the text form always has 20 characters, all of them from the alphabet |
| Codec.Decode | src/index.ts:97-125 | decoding succeeds only on 20-character text made entirely of alphabet symbols |
| Codec.DecodeEncode | src/index.ts:97-152 | every 12-byte ID decodes from its own text form back to itself |
| Codec.EncodeDecode | src/index.ts:97-152 | every accepted text is the text form of what it decodes to; the decoder accepts only canonical text |
| Codec.DecodeFails | src/index.ts:97-112 | decoding fails if and only if the length is not 20, or a character is outside the alphabet, or the last symbol sets one of the four padding bits |
| Order.EncodeKeepsOrder | src/index.ts:127-152 | for all IDs `b` and `b'`: `b` sorts before `b'` byte by byte if and only if the text of `b` sorts before the text of `b'` character by character |
| Codec.EncodeLastSymbol | src/index.ts:130 | the last symbol of every text form is `0` or `g` |
| Codec.ZeroText | src/index.test.ts:10-18 | the all-zero ID is written as twenty `0`s, and that text decodes back to it |
| Codec.Vector1 | src/index.test.ts:36 | 64b78f6e73ee26338715e112 and `cirourjjtoj371ols490` encode into each other and decode from each other |
| Codec.Vector2 | src/index.test.ts:37 | the same for 64b78f6e73ee26338715e113 and `cirourjjtoj371ols49g` |
| Codec.Vector3 | src/index.test.ts:38 | the same for 64b78f6e73ee26338715e114 and `cirourjjtoj371ols4a0` |
| Codec.Vector4 | src/index.test.ts:39 | the same for 64b78f6e73ee26338715e115 and `cirourjjtoj371ols4ag` |
| Codec.Vector5 | src/index.test.ts:40 | the same for 64b78f6e73ee26338715e116 and `cirourjjtoj371ols4b0` |
| Codec.Vector6 | src/index.test.ts:41 | the same for 64b78f6e73ee26338715e117 and `cirourjjtoj371ols4bg` |
| Codec.Vector7 | src/index.test.ts:52-61 | the same for 4d88e15b60f486e428412dc9 and `9m4e2mr0ui3e8a215n4g` |
| Codec.RejectedTexts | src/index.test.ts:63-65 | the empty text, a 28-character text and `00000000000000jarvis` are all refused |
| Layout.Timestamp | src/index.ts:154-156 | the timestamp is bytes 0-3 read big-endian: its four bytes, high to low, are bytes 0-3 |
| Layout.Pid | src/index.ts:162-164 | the pid is below 2^16, and its high and low bytes are bytes 7 and 8 |
| Layout.Counter | src/index.ts:166-168 | the counter is below 2^24, and its three bytes, high to low, are bytes 9-11 |
| Layout.IsZeroMeansZero | src/index.ts:170-172 | `isZero` holds exactly for the all-zero ID |
| Layout.ZeroFields | src/index.test.ts:10-17 | the all-zero ID has every field zero: timestamp, machine 0,0,0, pid and counter |
| Layout.StartCounter | src/index.ts:22-27 | the counter is seeded from the three random bytes read big-endian: it is a 24-bit value whose bytes, high to low, are those three bytes |
| Layout.GetPid | src/index.ts:200-207 | a positive host pid is taken modulo 2^16; otherwise the pid is the two random bytes read big-endian; either way it is below 2^16 |
| Layout.NextCounter | src/index.ts:43-46 | the stepped counter stays within 24 bits |
| Layout.NextCounterSteps | src/index.ts:43-46 | a step adds one below 2^24 - 1 and wraps 2^24 - 1 to 0; the counter never stays put |
| Layout.MintedFields | src/index.ts:32-51 | a minted ID reads back its timestamp, machine identifier and pid unchanged. Its counter comes back with the middle byte replaced by the low byte |
| Layout.MintedCounterCollision | src/index.ts:49 | with the layout as written, counters 1 and 0x101 give identical IDs for the same clock, machine and pid |
| Layout.MintedCounterRepeats | src/index.ts:48-50 | with the layout as written, counters `c` and `c + 0x100` give identical IDs whenever no multiple of 0x10000 lies between them (`c & 0xFFFF < 0xFF00`) |
| Layout.IntendedMintedFields | src/index.ts:48-50 | with the intended layout, every field is read back unchanged, counter included |
| Layout.IntendedMintedInjective | src/index.ts:48-50 | with the intended layout, distinct 24-bit counters give distinct IDs |
| Layout.ConsecutiveMintsDiffer | src/index.ts:43-50 | two IDs minted one after the other differ in byte 11, whatever their timestamps |
| Layout.MintedNotZero | src/index.ts:32-51 | a minted ID is not zero once the clock is past the epoch |
| Ids.Generator.constructor | src/index.ts:22-27 | the initial state: the machine identifier is the given random bytes, the pid is `GetPid`, and the counter is the seeded 24-bit value |
| Ids.Generator.Mint | src/index.ts:32-51 | the counter advances by one step (with wrap-around); the new ID holds the minted layout of the clock, the machine identifier, the pid and the new counter |
| Ids.ToUint8 | src/index.ts:80-81 | the byte stored for a number from 0 to 255 is the largest integer not above it; a hole is stored as 0 |
| Ids.NumbersToBytes | src/index.ts:80-81 | the converted array has the same length; each byte is the largest integer not above its number, or 0 for a hole |
| Ids.Xid.Copy | src/index.ts:52-55 | a 12-byte argument is copied into a new array |
| Ids.Xid.New | src/index.ts:29-57 | without an argument, mints (the counter steps). With one, it succeeds if and only if the argument has 12 bytes, copies it, and leaves the counter alone |
| Ids.Xid.Default | src/index.ts:59-61 | a new ID that is all zero |
| Ids.Xid.FromValue | src/index.ts:63-85 | case by case: an ID is returned itself; text is parsed. Bytes or a buffer are accepted if and only if there are 12. An array is accepted if and only if it has 12 slots, each a number from 0 to 255 or a hole. What is accepted is copied. Anything else is refused. Only text moves the counter |
| Ids.Xid.Parse | src/index.ts:87-95 | succeeds if and only if `Codec.Decode` does, with the decoded bytes; the counter steps exactly when the text has 20 characters |
| Ids.Xid.Decode | src/index.ts:97-125 | succeeds if and only if `Codec.Decode` does, and then holds the decoded bytes. Bad length or symbols leave the ID untouched; a failed padding check leaves only byte 11 overwritten |
| Ids.Xid.Encode | src/index.ts:127-152 | the 20-character buffer it fills is `Codec.Encode` of the ID's bytes |
| Ids.Xid.Equals | src/index.ts:186-193 | true if and only if the two IDs have the same 12 bytes |

## Left out

- The choice of random source, the Web Crypto API or `node:crypto` (src/index.ts:15-20, 196-198), is not modelled. The random bytes it yields are constructor parameters.
- The clock is not modelled: `Date.now()` is the parameter `now`, already in whole seconds and reduced modulo 2^32 as `setUint32` stores it.
- `process.pid` is given as an optional 32-bit value. A host pid of 2^32 or more is not modelled.
- UTF-8 conversion (`TextEncoder`/`TextDecoder`) is not modelled. Text is a sequence of characters, and any character outside the alphabet is refused, as every non-ASCII byte is.
- JavaScript string length counts UTF-16 units, while the model counts characters. The verdict on a non-ASCII text is the same either way. What can differ is whether `parse` steps the counter for text outside the Basic Multilingual Plane.
- `machine()` and `toBytes()` return views that alias the ID's buffer. The model reads them as values (`Layout.Machine`, `data[..]`), so writes through a view are not modelled.
- `toString()` and `toJSON()` are aliases of `encode()` and have no members of their own.
- The accessors `timestamp()`, `pid()`, `counter()` and `isZero()` are functions of the ID's bytes in `Layout`, not methods of `Ids.Xid`.
- The constructor's `instanceof Uint8Array` test is not modelled for arguments of other types. `Ids.Xid.New` takes bytes or nothing, and `Ids.Xid.FromValue` covers other kinds of argument.
- In `fromValue` array elements, NaN and the infinities are not represented as numbers; they are `NotNumber`, which the range test rejects in the source as well. Holes of a sparse array are modelled (`Hole`): the test skips them and the copy stores 0.
- Ids.Generator.Mint: the twelve stores into the new ID are modelled as one copy of the laid-out bytes. Nothing can observe the ID between those stores.
- Ids.Xid.Decode: bytes 10 to 0 are written by a loop whose step `i` stores the source's expression for byte `i`, in the same descending order.
- Ids.Xid.Encode: symbols 19 to 0 are written by a loop whose step `i` stores the source's expression for symbol `i`, in the same descending order.
- CBOR and JSON integration are not part of this model.
- The built `dist/` copies are not part of this model.
- Concurrency is not modelled: JavaScript runs each mint to completion.

## Findings

| source | as written | input that shows it | evidently intended | confidence | as-written member | corrected member |
|---|---|---|---|---|---|---|
| src/index.ts:49 | `Xid.counter & 0x00FFFF >> 8` parses as `counter & (0xFFFF >> 8)`, so byte 10 gets the counter's low byte, not its middle byte | counters 0x000001 and 0x000101 in the same second, on the same machine and pid, give the same 12 bytes; in general counters `c` and `c + 0x100` collide whenever `c & 0xFFFF < 0xFF00`, so the 257th ID a process mints in one second repeats the first unless the counter passes a multiple of 0x10000 in between | `(Xid.counter & 0x00FFFF) >> 8`, making bytes 9-11 the big-endian counter; the counter then reads back and distinct counters give distinct IDs | high; not executed | Layout.MintedBytes, Layout.MintedCounterCollision, Layout.MintedCounterRepeats | Layout.IntendedMintedBytes, Layout.IntendedMintedFields, Layout.IntendedMintedInjective |

`Ids.Generator.Mint` keeps the layout as written, because it models what the library does. The corrected layout and its properties stand beside it in `Layout`.
