# Verified model of the booking platform's core algorithms and protocols

The project models the parts of the platform that carry its arithmetic, its text algorithms and its stateful
protocols, and proves what they promise for all inputs and all runs.

| modules | what they model |
|---|---|
| `Basics` | shared types, number ranges and integer-division facts |
| `Limbs`, `DecimalValue`, `LimbLoops`, `Rounding`, `Alignment`, `Decimals` | the `Decimal` type behind prices: base-10^7 limb loops for rounding, comparison, addition, subtraction and multiplication, against real-number semantics |
| `BaseConversion` | conversion of digit strings between bases |
| `Levenshtein` | the trimmed, unrolled edit distance and the hint picker that uses it |
| `Base64` | the chunked codec (section 4 of RFC 4648) and the second encoder |
| `EncryptionFormat`, `RepairScript`, `PiiWalk` | encrypted fields: text format, layers, the one-off repair script, and the in-place walks over object graphs with the entry points that start them |
| `BookingExpiry` | expiry jobs interleaved with everybody else |
| `PermissionCache` | the authorization guard and its read-through cache |
| `BookingFlow` | submission of a booking as a conversation with the server |

Code that updates state is modelled by classes and loops (`Decimal`, `PiiStore`, `PassengerTable`, `Database`,
`AuthorizationGuard`, `BookingFlowStore`, and the limb, table and byte loops), each proved against a specification
function or predicate whose own properties are lemmas.

## What the proofs found

- The detector of `fix-double-encryption.ts` matches no string that encryption can produce, at any number of layers, so
  the script repairs nothing; the repair it would apply is right (`RepairScript`).
- `createMany` of `user`, `bookingPassenger` and `booking` hands the array index to `encryptPii` as its depth. From the
  seventh element on, flat rows are stored in the clear (`PiiWalk.FlatRowsBeyondDepth`).
- `findMany` decrypts one level less than `create` encrypts, because the result array counts as a level
  (`PiiWalk.FindManyRestoresIff`).
- An expiry job releases the seats it read before its transaction. A seat chosen in between stays LOCKED by a cancelled
  booking (`BookingExpiry.StaleReadLeaksLock`, a run); `ReleaseCompleteIff` and `OtherLocksKeptIff` are the exact conditions.
- The history row of an expiry carries the status of the read; it can say DRAFT of a booking that was cancelled out of
  PENDING_PAYMENT (`BookingExpiry.HistoryStatusIff`, `StaleHistoryStatus`).
- With rounding off, `plus` and `minus` are exact if and only if the limb exponents lie within a cut-off; with rounding
  on they are correctly rounded everywhere (`Alignment`, `Decimals`).
- The internal rounding function `p`, given a zero, a negative number of digits and a mode that points away from zero,
  gives one unit (`Decimals.Decimal.RoundedZero`). No call in the file passes such arguments, so this stays internal.
- The fallback from passenger id to index can request one seat for two passengers
  (`BookingFlow.IndexFallbackCollides`), exactly when two of them find their seat under one key (`NoSeatTwiceIff`). The ids
  that the passenger form assigns never do (`FormNeverCollides`), so such a store state needs another writer.
- A comment in `authorization.guard.ts` speaks of five minutes; the code hands the number 300 to the cache, whose unit
  the cache library decides (`backend/package.json:41` declares version 7, which counts milliseconds). The model follows the number.

## Environment

- AES-256-GCM under the fixed key is a pair of functions with their inverse law (sections 7.1 and 7.2 of
  NIST SP 800-38D): `EncryptionFormat.Cipher.Lawful`. IVs are arbitrary twelve-byte values.
- A database transaction is one atomic step. Other actors are arbitrary changes of the tables; each theorem over runs
  names what it asks of them (`KeepsCancelled`, `KeepsBalances`,
  `KeepsCounts`, `BumpsVersions`, `KeepsPendingSeats`).
- Redis is a map with write times; clock ticks and evictions can happen between any two actions of a request.
- An API call answers with a value or an error, and the store can be edited while it is pending.

## Model

| member | source | states |
|---|---|---|
| `Decimals.Decimal.Round` | backend/prisma/test-client/runtime/index-browser.js:1 | In-place rounding `p`: for every canonical number, every number of digits (also zero and negative) and every mode 0..8 the new value is the reference rounding of the old one at the named unit, the result is canonical and keeps its sign. A zero rounded left of the units place in a mode that points away from zero becomes one unit, as the code has it. |
| `DecimalValue.RoundingContract` | backend/prisma/test-client/runtime/index-browser.js:1 | What the reference rounding promises, for all reals, units and modes: a multiple of the unit, off by less than one unit (at most half a unit for modes 4..8), on the side the mode names, exact on multiples, and with ties away from zero, to zero, to the even multiple, up or down in modes 4 to 8. |
| `DecimalValue.CorrectlyRoundedUnique` | backend/prisma/test-client/runtime/index-browser.js:1 | "Correctly rounded" determines the result, so the statements about sums and products leave no choice. |
| `DecimalValue.RoundedDigits` | backend/prisma/test-client/runtime/index-browser.js:1 | A number rounded to sd >= 1 digits is a whole number of last-digit units, at most 10^sd of them in size. |
| `Rounding.SplitAtDigit` | backend/prisma/test-client/runtime/index-browser.js:1 | Cutting a limb list after any digit of any limb splits its value into whole units and a dropped part. |
| `Rounding.RoundsUpIsRoundsAway` | backend/prisma/test-client/runtime/index-browser.js:1 | The branchy round-up test (next digit, sticky remainder, parity of the last kept digit) equals the reference decision on the exact dropped part, for every mode. |
| `Rounding.CarryUp` | backend/prisma/test-client/runtime/index-browser.js:1 | Adding a unit ripples through any number of full limbs, moves the exponent when the first limb overflows, and adds exactly that unit to the value. |
| `Decimals.Decimal.Compare` | backend/prisma/test-client/runtime/index-browser.js:1 | `cmp` returns the order of the two values, through signs, zeros, exponents, limbs and lengths. |
| `Decimals.Decimal.Plus` | backend/prisma/test-client/runtime/index-browser.js:1 | With rounding off the result is the exact sum if and only if the limb exponents are within the cut-off; with rounding on it is the exact sum correctly rounded for all operands, near or far. The result is canonical; operands are untouched. |
| `Decimals.Decimal.Minus` | backend/prisma/test-client/runtime/index-browser.js:1 | The same for the difference, with alignment, swap, borrow, stripping at both ends, and mutual recursion with `plus` on opposite signs. |
| `Decimals.Decimal.Times` | backend/prisma/test-client/runtime/index-browser.js:1 | With rounding off the exact product for all finite operands; with rounding on the exact product correctly rounded; canonical either way. |
| `Decimals.Decimal.ZeroDifference` | backend/prisma/test-client/runtime/index-browser.js:1 | An empty difference is the zero whose sign is negative only in mode 3. |
| `Decimals.AddMagnitudes` | backend/prisma/test-client/runtime/index-browser.js:1 | Alignment, carry loop, carry limb in front and stripping give exactly the sum of the operands that enter it, without leading or trailing zero limbs. |
| `Decimals.SubtractMagnitudes` | backend/prisma/test-client/runtime/index-browser.js:1 | Alignment, swap, borrow loop and stripping give exactly the difference of larger and smaller. |
| `Decimals.MultiplyMagnitudes` | backend/prisma/test-client/runtime/index-browser.js:1 | Product rows, stripping and the final shift-or-increment of the exponent give the exact product with nonzero first and last limb. |
| `Alignment.ExactIffWithinCutoff` | backend/prisma/test-client/runtime/index-browser.js:1 | Replacing the far operand by its first limb changes the sum exactly when the limb exponents differ by more than the cut-off. |
| `Alignment.CutoffAsGap` | backend/prisma/test-client/runtime/index-browser.js:1 | The cut-off as a gap in limbs: the larger of the limbs for the precision and the leading operand's length, plus one for equal signs or two for opposite signs. |
| `Alignment.CutIsRounded` | backend/prisma/test-client/runtime/index-browser.js:1 | Beyond the cut-off, rounding the sum with the replaced operand still rounds the exact sum, in every mode. |
| `Alignment.Align` | backend/prisma/test-client/runtime/index-browser.js:1 | Reverse, pad, reverse: both operands under one limb exponent, with their values. |
| `Alignment.ExponentOf` | backend/prisma/test-client/runtime/index-browser.js:1 | `ue`: the base-10 exponent from the limb exponent and the digits of the first limb. |
| `DecimalValue.RoundedThroughCell` | backend/prisma/test-client/runtime/index-browser.js:1 | Two numbers inside one cell of a grid at least ten times finer than the rounding unit round alike and have one leading-digit position. |
| `LimbLoops.AddLimbs` | backend/prisma/test-client/runtime/index-browser.js:1 | The carry loop keeps the sum: new limbs plus last carry equal the two operands. |
| `LimbLoops.Borrow` | backend/prisma/test-client/runtime/index-browser.js:1 | Borrowing across any run of zero limbs keeps the value and makes the requesting limb large enough. |
| `LimbLoops.SubtractLimbs` | backend/prisma/test-client/runtime/index-browser.js:1 | The borrow loop yields the exact difference in proper limbs whenever the minuend is at least the subtrahend. |
| `LimbLoops.MultiplyRow` | backend/prisma/test-client/runtime/index-browser.js:1 | One row adds limb times multiplicand to the value; every intermediate is below 2^53 and every carry below 2^31 (asserted in the loop). |
| `LimbLoops.RowsAreProduct` | backend/prisma/test-client/runtime/index-browser.js:1 | All rows together are the product of the two limb values. |
| `LimbLoops.WordOrder` | backend/prisma/test-client/runtime/index-browser.js:1 | Limb lists under one exponent are ordered by their first difference, then by length. |
| `BaseConversion.Convert` | backend/prisma/test-client/runtime/index-browser.js:1 | `ie`: the digits in the target base denote the number that the numeral string denotes in the source base, every digit is below the base, and only zero starts with 0. |
| `BaseConversion.CarryPass` | backend/prisma/test-client/runtime/index-browser.js:1 | One carry pass, with the list growing at its end while it runs, normalises the digits and keeps the value; quotients fit 32 bits. |
| `BaseConversion.NumeralValue` | backend/prisma/test-client/runtime/index-browser.js:1 | The numerals 0-9 and a-f have their usual values, other characters none. |
| `Levenshtein.Levenshtein` | backend/prisma/test-client/runtime/edge.js:1 | The optimised distance (swap, suffix and prefix trimming, early exits, four columns per pass over one interleaved row) is the textbook edit distance for all strings. |
| `Levenshtein.ShortestPath` | backend/prisma/test-client/runtime/edge.js:1 | The textbook distance is attained by a chain of single-character edits (constructive). |
| `Levenshtein.PathIsNoShorter` | backend/prisma/test-client/runtime/edge.js:1 | No chain of single-character edits is shorter than the distance. |
| `Levenshtein.Neighbours` | backend/prisma/test-client/runtime/edge.js:1 | Neighbouring cells of the distance table differ by at most one; trimming a suffix rests on it. (The branchy minimum helper is the textbook minimum even without it.) |
| `Levenshtein.TrimPrefix` | backend/prisma/test-client/runtime/edge.js:1 | A shared prefix does not change the distance. |
| `Levenshtein.TrimSuffix` | backend/prisma/test-client/runtime/edge.js:1 | A shared suffix does not change the distance. |
| `Levenshtein.ShortDistance` | backend/prisma/test-client/runtime/edge.js:1 | Why the early exit for a remaining length below three is right. |
| `Levenshtein.FourColumns` | backend/prisma/test-client/runtime/edge.js:1 | One unrolled pass advances the rolling row by four columns of the distance table. |
| `Levenshtein.PickHint` | backend/prisma/test-client/runtime/edge.js:4 | The hint is the first candidate of least distance; there is none exactly if every candidate is farther than 3. |
| `Base64.FromByteArray` | backend/prisma/test-client/runtime/edge.js:1 | The chunked encoder (16383 bytes at a time, shifts and masks) gives the reference encoding for every byte sequence. |
| `Base64.EncodeDirectly` | backend/prisma/test-client/runtime/edge.js:11 | The second encoder, which masks before it shifts, gives the same text on every byte sequence. |
| `Base64.EncodesBits` | backend/prisma/test-client/runtime/edge.js:1 | The reference encoding spells the bits of the bytes in order, zero-filled to whole symbols, in four symbols for every three bytes begun (section 4 of RFC 4648). |
| `Base64.ToByteArray` | backend/prisma/test-client/runtime/edge.js:1 | The decoder that fills a byte array in place returns the reference decoding, and throws where the code throws. |
| `Base64.RoundTrip` | backend/prisma/test-client/runtime/edge.js:1 | Decoding an encoded byte sequence gives it back, for all byte sequences. |
| `Base64.UrlSafeRoundTrip` | backend/prisma/test-client/runtime/edge.js:1 | Decoding the URL-safe spelling of an encoded text gives the bytes back as well. |
| `Base64.DecodeFailsIff` | backend/prisma/test-client/runtime/edge.js:1 | The decoder throws exactly on a length that is no multiple of four and on a non-empty text that starts with padding. |
| `Base64.AlphabetLiteral` | backend/prisma/test-client/runtime/edge.js:1 | The symbols in order. |
| `EncryptionFormat.RoundTrip` | backend/src/common/utils/encryption.util.ts:13-46 | Decrypting an encrypted string restores it for every string and IV (empty and `enc:`-prefixed ones included), in the 5-part and in the legacy 4-part form. |
| `EncryptionFormat.DecryptsIff` | backend/src/common/utils/encryption.util.ts:23-46 | What decryption accepts, for every string: text without the prefix comes back as it is; a prefixed string is read as the 5-part form or the 4-part form with colon-free fields that open under the key, or decryption fails. |
| `EncryptionFormat.UntouchableStays` | backend/src/common/utils/encryption.util.ts:24-34 | Any number of reads leaves clear text as it is, and prefixed text of neither form too, because decryption fails on it. |
| `EncryptionFormat.TextLayout` | backend/src/common/utils/encryption.util.ts:15-20 | Marker, 24 hexadecimal digits of the IV, tag and ciphertext, at their positions. |
| `EncryptionFormat.SplitJoins` | backend/src/common/utils/encryption.util.ts:26 | Splitting gives colon-free parts that join to the string. |
| `EncryptionFormat.FormsDisjoint` | backend/src/common/utils/encryption.util.ts:26-34 | No string is both a 5-part and a legacy 4-part ciphertext. |
| `EncryptionFormat.HexRoundTrip` | backend/src/common/utils/encryption.util.ts:20-40 | Hex decoding inverts hex encoding. |
| `EncryptionFormat.SplitPart` | backend/src/common/utils/encryption.util.ts:26 | Splitting inverts joining with colons. |
| `EncryptionFormat.RemoveLayer` | backend/src/common/utils/encryption.util.ts:23-46 | Decryption never fails on a layered string and removes exactly one layer. |
| `EncryptionFormat.PeelRestores` | backend/src/common/utils/encryption.util.ts:13-46 | Removing j of k layers restores the text exactly if j = k or the text is empty. |
| `EncryptionFormat.LayersUnique` | backend/src/common/utils/encryption.util.ts:13-21 | The number of layers on a non-empty string is determined by the string. |
| `EncryptionFormat.DifferentIvDiffers` | backend/src/prisma/prisma.service.ts:85-87 | Ciphertexts under different IVs differ, so an equality filter on an encrypted field matches only by IV collision. |
| `RepairScript.MarkerOnce` | backend/scripts/fix-double-encryption.ts:10-13 | `enc:v1:` stands at position 0 of every layered string and nowhere else, in any letter case. |
| `RepairScript.DetectorMissesLayers` | backend/scripts/fix-double-encryption.ts:10-13 | The pattern `enc:v1:%enc:v1:%` matches no string built by repeated encryption. |
| `RepairScript.DetectorIff` | backend/scripts/fix-double-encryption.ts:10-13 | The pattern selects exactly the strings that start with the marker, in any letter case, and contain it again after that. |
| `RepairScript.RepairedMeaning` | backend/scripts/fix-double-encryption.ts:17-34 | A selected value that decrypts becomes its decryption; every other value stays. |
| `RepairScript.RepairIsNoOp` | backend/scripts/fix-double-encryption.ts:17-34 | Hence the script changes no genuinely encrypted column value. |
| `RepairScript.IntendedRepair` | backend/scripts/fix-double-encryption.ts:20-29 | The repair it would apply turns k+1 layers into k, never into plain text. |
| `RepairScript.PassengerTable.Repair` | backend/scripts/fix-double-encryption.ts:17-34 | The loop rewrites exactly the selected rows, each from its own value; a failed decryption leaves its row alone. |
| `PiiWalk.PiiStore.EncryptPii` | backend/src/prisma/prisma.service.ts:7-23 | On any graph, shared or cyclic, the walk terminates and puts on each personal string exactly as many layers as there are visits of its record; no other string changes. |
| `PiiWalk.PiiStore.DecryptRecord` | backend/src/prisma/prisma.service.ts:25-45 | The mirror walk removes one layer per visit, keeps what cannot be decrypted, and leaves clear text as it is. |
| `PiiWalk.Graph.VisitsCountWalks` | backend/src/prisma/prisma.service.ts:7-23 | The number of visits is the number of walks of at most the remaining depth from the root to the record: they are listed without repetition. |
| `PiiWalk.Graph.SuccCountsReferences` | backend/src/prisma/prisma.service.ts:9-20 | One step of a walk from x: y follows once per property that refers to the record y, and once per element that refers to y of an array that a property refers to; dates and other values lead nowhere. |
| `PiiWalk.LayersAreWalks` | backend/src/prisma/prisma.service.ts:5-20 | In terms of walks alone: the fields nationalId, passportNo, phone and fullName get one rewrite per walk that keeps within depth 5, any other string none. |
| `PiiWalk.OneWalkOneLayer` | backend/src/prisma/prisma.service.ts:5-11 | A personal field at the end of exactly one walk gets one layer if its length is 0 to 5 and none from 6 on. |
| `PiiWalk.ArrayElementsAreReached` | backend/src/prisma/prisma.service.ts:13-14 | A record in an array of the root, such as a passenger of a booking, does get a layer on its name. |
| `PiiWalk.Graph.SameVisitsIff` | backend/src/prisma/prisma.service.ts:8 | A deeper limit adds visits exactly if a walk of a length in between ends at the record. |
| `PiiWalk.WalksInvert` | backend/src/prisma/prisma.service.ts:7-45 | Decryption from the same root removes exactly those layers and restores the whole graph; so `findUnique` restores at every depth what `create` stored. |
| `PiiWalk.PiiStore.Create` | backend/src/prisma/prisma.service.ts:76 | What `create` stores is the layered graph; the record it hands back, whatever record the engine builds out of the stored strings, has one layer removed per visit; if that is the written record itself, it is as before. |
| `PiiWalk.CopiesRestoredIff` | backend/src/prisma/prisma.service.ts:76-87 | A string of a record that the engine builds itself is restored exactly if the read visits it as often as the write visited its origin (or it is empty); with more visits the surplus is decrypted off the plain text. |
| `PiiWalk.PiiStore.Find` | backend/src/prisma/prisma.service.ts:85-87 | What a find returns is the stored graph with one layer removed per visit from the returned root. |
| `PiiWalk.RestoredIffAllVisited` | backend/src/prisma/prisma.service.ts:25-45 | A read that visits less than the write restores the graph exactly if it misses no layer of a non-empty string. |
| `PiiWalk.FindManyRestoresIff` | backend/src/prisma/prisma.service.ts:76-86 | `findMany` restores what `create` stored exactly when no walk of length 5 from a record ends at a non-empty personal string: the result array uses up one level. |
| `PiiWalk.PiiStore.CreateManyMapped` | backend/src/prisma/prisma.service.ts:79-83 | `data.map(encryptPii)` passes each index as the depth, so element i gets the layers of a walk that starts at depth i. |
| `PiiWalk.PiiStore.CreateManyPlain` | backend/src/prisma/prisma.service.ts:121-125 | The audit-log form starts every element at depth 0. |
| `PiiWalk.MappedRowsAgreeIff` | backend/src/prisma/prisma.service.ts:79-83 | The two forms agree on a record exactly if no row i has a walk to it longer than 5 - i (and at most 5). |
| `PiiWalk.FlatRowsBeyondDepth` | backend/src/prisma/prisma.service.ts:79-83 | Of flat rows the first six are encrypted once; the seventh and later ones are stored in the clear. |
| `BookingExpiry.Database.CancelExpired` | backend/src/jobs/booking-expiry.processor.ts:24-65 | The statements of the transaction, one by one, have the effect of one atomic step, including the early return and the roll-back. |
| `BookingExpiry.Database.Process` | backend/src/jobs/booking-expiry.processor.ts:11-72 | The whole job, for all tables that others leave between its read and its transaction: nothing if the booking is not due at the read; lost exactly if it is not DRAFT or PENDING_PAYMENT at the transaction; won exactly if moreover the redemption found has its voucher row; and then every table: status, history row, freed seats with their versions, redemption and used count. |
| `BookingExpiry.CommitMeaning` | backend/src/jobs/booking-expiry.processor.ts:24-65 | When a transaction wins, loses or rolls back, and what every table then holds, said without the definition of the transaction. |
| `BookingExpiry.ExpiredAtMostOnce` | backend/src/jobs/booking-expiry.processor.ts:15-65 | Over every interleaving of duplicate jobs with steps that never leave CANCELLED: each booking is expired at most once, only out of DRAFT or PENDING_PAYMENT, stays cancelled, and gets one history row. |
| `BookingExpiry.ReleasedAtMostOnce` | backend/src/jobs/booking-expiry.processor.ts:33-54 | Over the same runs: at most one voucher release and at most one seat release per booking. |
| `BookingExpiry.CommitReleases` | backend/src/jobs/booking-expiry.processor.ts:33-54 | What a logged expiry took back: one use of the named voucher with one redemption row of this booking, and exactly the seats that went from LOCKED to AVAILABLE in that step; nothing else. |
| `BookingExpiry.OnlyEventsRelease` | backend/src/jobs/booking-expiry.processor.ts:24-65 | Every other step of the system is the environment or changes no table. |
| `BookingExpiry.CountsFollowEvents` | backend/src/jobs/booking-expiry.processor.ts:37-41 | Over every run whose environment leaves used counts alone, each used count is its start value less the number of expiries that name the voucher. |
| `BookingExpiry.VouchersConserved` | backend/src/jobs/booking-expiry.processor.ts:33-42 | For every voucher, used count minus redemption rows is the same throughout every run, so a count that covers its rows always does and never goes negative. |
| `BookingExpiry.ApplyKeepsBalance` | backend/src/modules/booking/booking.service.ts:210-232 | Applying a voucher (one row, one use) meets the hypothesis of the conservation law. |
| `BookingExpiry.ReleasesAreExact` | backend/src/jobs/booking-expiry.processor.ts:15-54 | Over every run in which no booking changes seats between its read and its transaction and no seat is shared: a winning expiry leaves none of its seats LOCKED, keeps the locks of every other live booking, and alters no seat that is not LOCKED. |
| `BookingExpiry.ReleaseCompleteIff` | backend/src/jobs/booking-expiry.processor.ts:45-54 | A release is complete exactly if no locked seat was added to the booking since the read. |
| `BookingExpiry.OtherLocksKeptIff` | backend/src/jobs/booking-expiry.processor.ts:45-54 | Another booking keeps its locks exactly if none of them is in the stale snapshot. |
| `BookingExpiry.OneJobRun` | backend/src/jobs/booking-expiry.processor.ts:15-65 | For all tables: any move of the environment can fall between the read and the transaction of a job, as a run of five states. |
| `BookingExpiry.StaleReadLeaksLock` | backend/src/jobs/booking-expiry.processor.ts:15-54 | A run (enqueue, read, seat selection, transaction) that ends with a seat LOCKED by a cancelled booking. |
| `BookingExpiry.HistoryStatusIff` | backend/src/jobs/booking-expiry.processor.ts:57-64 | The history row names the status the booking was cancelled out of exactly if that did not change since the read. |
| `BookingExpiry.StaleHistoryStatus` | backend/src/jobs/booking-expiry.processor.ts:57-64 | A run whose history says DRAFT of a booking cancelled out of PENDING_PAYMENT. |
| `BookingExpiry.CommitVersions` | backend/src/jobs/booking-expiry.processor.ts:49-54 | Versions grow by exactly one on each freed seat and by zero elsewhere. |
| `BookingExpiry.StaleVersionRejected` | README.md:104 | Over every run, a version-checked update with a version read before a release fails at every point after it. |
| `BookingExpiry.SelectMeetsHypotheses` | backend/src/modules/booking/booking.service.ts:107-139 | Seat selection (version-checked lock plus assignment to the passenger) meets every hypothesis that the theorems make of the environment, and succeeds only on the version it names. |
| `PermissionCache.BoundedStaleness` | backend/src/common/guards/authorization.guard.ts:70-107 | Over every interleaving of requests, table changes, evictions and clock ticks, every decision used the exact permission set of its role at an instant no older than the time to live plus the read-to-write delay of the request that filled the entry. |
| `PermissionCache.CacheKeyInjective` | backend/src/common/constants/cache-keys.ts:1 | One role's entry never serves another role. |
| `PermissionCache.HitIsFresh` | backend/src/common/guards/authorization.guard.ts:94-98 | A hit serves a list that was exact for this very role when it was read. |
| `PermissionCache.AuthorizationGuard.GetUserPermissions` | backend/src/common/guards/authorization.guard.ts:93-108 | For all worlds that others leave at the awaits: on a live entry the list and both instants are that entry's and nothing changes; otherwise the list is read from the table after the lookup, and afterwards the role's key holds it with its true read and write instants. |
| `PermissionCache.ServedIsYoung` | backend/src/common/guards/authorization.guard.ts:93-108 | Hence a served list is at most 300 time units past its real write, and was exact when it was read. |
| `PermissionCache.ServedBySteps` | backend/src/common/guards/authorization.guard.ts:93-108 | What the method does is a lookup step, or a lookup, a fetch and a store step, of the system that the staleness theorem is about. |
| `PermissionCache.AuthorizationGuard.CanActivate` | backend/src/common/guards/authorization.guard.ts:38-87 | The decision: exactly when authentication, role or permissions are refused, and exactly the missing codes. |
| `PermissionCache.LackingContents` | backend/src/common/guards/authorization.guard.ts:77-79 | The reported codes are those required but not granted. |
| `BookingFlow.BookingFlowStore.SubmitBooking` | frontend/src/stores/bookingFlowStore.ts:48-117 | For every import, server and store edits: success exactly if the module loads and the server answers the whole plan well; nothing is sent exactly if the module does not load; the calls are the plan for the initial snapshot and the server's own ids, up to and including the first failed call; and the store afterwards. |
| `BookingFlow.ConversationMeaning` | frontend/src/stores/bookingFlowStore.ts:55-64 | The plan is the one for the ids of the first two replies. |
| `BookingFlow.PlanEnds` | frontend/src/stores/bookingFlowStore.ts:54-111 | Draft and passengers come first, the one payment comes last, by Sepay exactly for "atm" and "sepay". |
| `BookingFlow.PlanInOrder` | frontend/src/stores/bookingFlowStore.ts:54-111 | Draft, passengers, seats, add-ons, baggage, meals, payment, in this order, and only seats repeat. |
| `BookingFlow.SeatCallsMeaning` | frontend/src/stores/bookingFlowStore.ts:67-81 | The seat calls are one for each created passenger who has a seat, with that seat, in the order of the passengers. |
| `BookingFlow.SeatOfMeaning` | frontend/src/stores/bookingFlowStore.ts:71-72 | Whose seat: the one under the id of the i-th passenger of the form unless missing or empty, else the one under the decimal index. |
| `BookingFlow.OwnSeatRequested` | frontend/src/stores/bookingFlowStore.ts:71-78 | A created passenger whose front-end id has a chosen seat is requested on that very seat. |
| `BookingFlow.ExtrasMeaning` | frontend/src/stores/bookingFlowStore.ts:84-94 | Each of the three extras is in the plan exactly if its store field is not empty, and carries that field. |
| `BookingFlow.BookingFlowStore.RequestSeats` | frontend/src/stores/bookingFlowStore.ts:67-81 | Seat calls in index order, one per created passenger with a chosen seat, up to the first failure. |
| `BookingFlow.BookingFlowStore.RequestExtras` | frontend/src/stores/bookingFlowStore.ts:84-94 | Add-ons, then baggage, then meals, each only if there are any. |
| `BookingFlow.NoSeatTwiceIff` | frontend/src/stores/bookingFlowStore.ts:67-81 | With injective seat choices, whatever fails: the seat calls sent are those of the first m created passengers (all of them on success), and some seat is requested twice exactly if two of those passengers find their seat under one key. |
| `BookingFlow.SeatCallsOnceIff` | frontend/src/stores/bookingFlowStore.ts:67-81 | The same equivalence for the list of seat calls. |
| `BookingFlow.NoSeatRequestedTwice` | frontend/src/stores/bookingFlowStore.ts:67-81 | Hence with distinct ids and no id equal to another passenger's decimal index, no seat is requested twice. |
| `BookingFlow.FormNeverCollides` | frontend/src/views/booking/PassengerInfo.tsx:13-24 | With the ids of the passenger form (`pax-0`, `pax-1`, ...) and nothing stored under "undefined", no two passengers share a key. |
| `BookingFlow.FormIdsAreDistinct` | frontend/src/views/booking/PassengerInfo.tsx:15 | Those ids are distinct and none is a decimal index. |
| `BookingFlow.DecimalInjective` | frontend/src/stores/bookingFlowStore.ts:72 | Different indices have different decimal strings. |
| `BookingFlow.DecimalMeaning` | frontend/src/stores/bookingFlowStore.ts:72 | The index is written in decimal digits without a leading zero. |
| `BookingFlow.IndexFallbackCollides` | frontend/src/stores/bookingFlowStore.ts:72 | A conversation with two seat calls for one seat: the first passenger's id is the index of the second, who chose nothing. |

## Left out

- Decimals.Decimal.Round: the flag that division and the iterative functions pass for an already discarded tail, and exponents beyond the configured maximum or minimum (which become Infinity or zero), are not modelled.
- Decimals.Decimal.Times: limb lists are sequences, so sharing of one limb array between two objects is not captured; the same holds for `Plus`, `Minus` and `Round`.
- BaseConversion.Convert: assumes valid numerals and that the product of the bases is at most 2^53 and the source base at most 2^31, beyond which the code's double arithmetic and 32-bit truncation are not exact; limb arrays are sequences.
- Levenshtein.PickHint: the text built around the hint is not part of this model.
- PiiWalk.PiiStore.Walk: the references of a graph are kept apart from its strings (the walk never changes references); `encryptPii` and `decryptRecord` share one traversal with a direction; array holes, getters and properties on dates are not modelled.
- PiiWalk.PiiStore.Create: the query engine stores strings unchanged and answers with a record whose strings are copies of stored ones; which record that is, is a parameter, not derived from the database schema. The `update`, `upsert`, `updateMany` and `where` wrappers, which call the same two walks, are not modelled.
- BookingExpiry.SelectSeat: that the booking is a DRAFT is read before the transaction and is left to the caller; passengers are positions in their booking.
- EncryptionFormat.Encrypt: UTF-8 is inside the abstract cipher, texts are well-formed Unicode; key loading and logging are absent.
- RepairScript.Like: case-insensitivity covers ASCII letters; the other folding rules of a MySQL collation and the escape character are not modelled.
- BookingExpiry.Database.CancelExpired: all statements take effect atomically; isolation levels and locks of MySQL are not modelled, and neither is delivery or retry of jobs by BullMQ (any number of duplicates is).
- BookingExpiry.ApplyKeepsBalance: covers the redemption row and the use count of applying a voucher, not discounts, limits or user checks.
- PermissionCache.AuthorizationGuard.GetUserPermissions: the cache entry carries its read and write instants so that staleness can be stated; other tasks act only at awaits.
- BookingFlow.BookingFlowStore.SubmitBooking: request payloads are the snapshot's own values; payment links in the result, browser persistence and changes made inside the snapshot's nested objects while a request is pending are not modelled.
- Base64.FromByteArray: the symbol table is written in closed form (`AlphabetLiteral` gives its text) and chunks are concatenated without the intermediate array.
- Division, powers, roots and transcendental functions of Decimal, NaN and Infinity, parsing and printing.
- `edge-esm.js`, which repeats `edge.js`; the rest of the Buffer polyfill; error rendering.
- Booking, payment, membership, session and RBAC services beyond the steps named above.
- Email, pages, other stores, admin CRUD, pagination, seed data and code-modification scripts: they would add easy members only.
