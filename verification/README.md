# Kraken order book — a Dafny model

This project models the order-book core of `kraken-rust`. That core is the
`OrderBook` type of `src/order_book.rs`. It keeps up to `depth` price levels
on each side of a market:

- asks, lowest price first;
- bids, highest price first.

The book is filled once from a snapshot (`initialize`). After that, diff
messages change it (`update`), and it can be hashed into the exchange's
CRC-32 checksum (`calculate_checksum`).

Modules, one per concern of the source:

| file | module | what it holds |
|---|---|---|
| `levels.dfy` | `Levels` | Price levels and the two sides' orders. `Rank` is the price for asks and minus the price for bids. Holds the stable sort that `sort_by` performs, the `retain` that deletes a price, and the facts relating them. |
| `wire.dfy` | `Wire` | How one entry of a snapshot or diff list is read: which shapes are used, skipped or dropped, and which make the source panic. |
| `book.dfy` | `OrderBook` | The book: `new`, `initialize`, one diff, a list of diffs, `truncate_to_depth`, `update`. |
| `format.dfy` | `Format` | The decimal text of a scaled number: `{:.5}` / `{:.8}`, dropping the point, trimming leading zeros. |
| `crc32.dfy` | `Crc32` | The reflected CRC-32 (polynomial 0xEDB88320, initial and final value 0xFFFFFFFF) that `crc32fast::Hasher` computes. |
| `checksum.dfy` | `Checksum` | `calculate_checksum`: the text it builds and its hash. |
| `fixtures.dfy` | `Fixtures` | The initialization and update tests, as lemmas on concrete books. |
| `checksum_fixture.dfy` | `ChecksumFixture` | The checksum test, as a lemma that the book hashes to 974947235. |

Numbers are exact scaled naturals:

- a price is an integer number of 10^-5;
- a volume is an integer number of 10^-8.

These are the precisions the checksum prints. A price equality in the model
is the source's `f64` equality for prices below 2^36 (about 6.9·10^10) and
volumes below 2^26 (about 6.7·10^7). Below those bounds, adjacent values at
that many decimals are more than one `f64` step apart. Above them, see the
rounding line under "## Left out". One generic function per operation takes a `Side`. It stands for
the source's two copies of the same code, one for asks and one for bids.

## Model

| member | source | states |
|---|---|---|
| Levels.SortLevels | src/order_book.rs:56-60 | Sorting a side gives a permutation of its levels, of the same length, in the side's order (asks ascending, bids descending by price). |
| Levels.SortLevelsIsStable | src/order_book.rs:56-60 | `sort_by` is stable: the levels sharing a price keep their relative order. |
| Levels.SortSortedIsIdentity | src/order_book.rs:140-145 | Sorting a side that is already in order changes nothing, so the re-sorts in `initialize` and `truncate_to_depth` are no-ops on a sorted book. |
| Levels.SortKeepsDistinct | src/order_book.rs:56-60 | Sorting neither creates nor merges prices: distinct prices stay distinct. |
| Levels.InsertLevel | src/order_book.rs:84-90 | Inserting a level adds exactly that level (as a multiset) and keeps a sorted side sorted. |
| Levels.InsertionPointSplits | src/order_book.rs:84-90 | On a sorted side, the insertion point has only strictly better levels before it and only levels no better than the new one after it. |
| Levels.InsertLevelPosition | src/order_book.rs:84-90 | A new price on a sorted side lands between the strictly better and strictly worse levels, with nothing else moved. |
| Levels.PushThenSortIsInsert | src/order_book.rs:87-89 | Pushing a level with a new price and re-sorting the whole side equals inserting it in place. |
| Levels.InsertKeepsDistinct | src/order_book.rs:84-90 | Inserting a price the side lacks keeps all prices distinct. |
| Levels.WithoutPrice | src/order_book.rs:77-79 | `retain` of the other prices leaves no level at the price, and leaves the side untouched when the price is absent. |
| Levels.WithoutPriceKeepsOthers | src/order_book.rs:77-79 | `retain` keeps the survivors in order: at every other price, the levels are the same ones in the same order. |
| Levels.WithoutPriceCounts | src/order_book.rs:77-79 | Deletion removes every copy of every level at the price, and keeps every other level exactly as often as before. |
| Levels.WithoutPriceSingle | src/order_book.rs:77-79 | When one level has the price, deletion removes exactly that position. |
| Levels.WithoutPriceKeepsOrder | src/order_book.rs:77-79 | Deletion preserves a sorted side and distinct prices. |
| Levels.StrictlySortedIff | src/order_book.rs:12-17 | A side is strictly ordered exactly when it is sorted and has no repeated price. |
| Wire.SnapshotLevel | src/order_book.rs:35-39 | A snapshot entry gives a level exactly when it is an array whose first two elements are strings that parse. The level is those two values. Where a diff entry with the same fields is applied, it reads the same price and volume. |
| Wire.ReadDiff | src/order_book.rs:69-75 | A diff entry is applied exactly when it is an array whose first three elements are strings. Its price and volume are the parsed values, or 0 when the text does not parse. An array with at least three elements never panics. |
| Wire.ReadDiffPanics | src/order_book.rs:69-75 | A diff entry panics exactly when it is an array that ends before three elements with only strings up to its end. |
| Wire.ExtraFieldsIgnored | src/order_book.rs:69-72 | A fourth element, such as the "r" republish marker, does not change how a diff entry reads. |
| OrderBook.New | src/order_book.rs:20-26 | A new book has the given depth, no levels, and satisfies the book invariant. |
| OrderBook.ParseSnapshot | src/order_book.rs:35-40 | A level is in the snapshot exactly when some entry reads as it, and nothing is dropped exactly when every entry reads. |
| OrderBook.ParseSnapshotAppend | src/order_book.rs:35-40 | `filter_map` works entry by entry: the levels of two lists joined are the levels of each, joined. With `ParseSnapshotSingle` this fixes every copy and its order. |
| OrderBook.ParseSnapshotSingle | src/order_book.rs:35-39 | A single entry gives its level, or nothing when it does not read. |
| OrderBook.ParseSnapshotKeepsOrder | src/order_book.rs:35-40 | When every entry reads, the levels come out one per entry, in entry order. |
| OrderBook.SnapshotSide | src/order_book.rs:31-41 | A snapshot side holds at most `depth` levels and is sorted. It is a permutation of the levels read from the first `depth` entries, with every copy kept. At each price the levels are in entry order, as the stable sort leaves them. |
| OrderBook.SnapshotSideCount | src/order_book.rs:33-40 | If all of the first `depth` entries read, the side has one level each. If any of them does not read, the side is shorter: a later entry does not take its place. |
| OrderBook.SnapshotSideInOrder | src/order_book.rs:31-60 | Readable entries already in book order, within the depth, are stored exactly as sent. |
| OrderBook.ParseSnapshotDistinct | src/order_book.rs:35-40 | Entries with pairwise distinct prices give levels with distinct prices. |
| OrderBook.SnapshotStrictWhenDistinct | src/order_book.rs:31-60 | A snapshot with distinct prices gives a strictly ordered side. This is how the book invariant first arises. |
| OrderBook.Initialize | src/order_book.rs:29-61 | After `initialize`, both sides are sorted and the depth is unchanged. A present side is the snapshot side of its entries: a permutation of the levels read from its first `depth` entries, in entry order at each price, and no more than `depth` of them. An absent side keeps its levels as a multiset, keeps their order at each price, and stays in place if it was sorted. |
| OrderBook.InitializeValid | src/order_book.rs:29-61 | Snapshot lists whose readable entries within the depth have distinct prices give a book that satisfies the invariant. |
| OrderBook.MalformedEntryShortensSide | src/order_book.rs:32-40 | An unreadable entry among the first `depth` leaves the side below depth. |
| OrderBook.FirstAtPrice | src/order_book.rs:82 | `find` returns the first index holding the price, or nothing exactly when no level has it. |
| OrderBook.ApplyDiff | src/order_book.rs:69-92 | A skipped entry changes nothing. One diff keeps a sorted side sorted and distinct prices distinct. |
| OrderBook.ApplyDiffDeletes | src/order_book.rs:77-79 | A zero volume removes every level at the price and keeps every other level, in its order. It changes nothing when the price is absent. |
| OrderBook.ApplyDiffOverwrites | src/order_book.rs:82-83 | A non-zero volume at a known price overwrites the volume of the first level at that price, and only that. |
| OrderBook.ApplyDiffInserts | src/order_book.rs:84-90 | A non-zero volume at a new price adds exactly one level. On a sorted side it goes between the strictly better and strictly worse levels. |
| OrderBook.ApplyDiffDeletesAt | src/order_book.rs:77-79 | Deleting the only level at a price removes exactly that position. |
| OrderBook.ApplyDiffOverwritesAt | src/order_book.rs:82-83 | Only the volume of the first level at the price changes. |
| OrderBook.ApplyDiffInsertsAt | src/order_book.rs:84-90 | A new price that ranks between `s[..k]` and `s[k..]` is inserted at `k`. |
| OrderBook.ApplyDiffs | src/order_book.rs:68-94 | A diff list keeps a sorted side sorted and distinct prices distinct. |
| OrderBook.ApplyDiffsTrace | src/order_book.rs:68-94 | A diff list applies its entries one after another, left to right. |
| OrderBook.TruncateToDepth | src/order_book.rs:130-145 | Truncation leaves both sides sorted, within the depth, and with distinct prices if they were distinct. On a sorted side it keeps exactly the first `depth` levels. |
| OrderBook.TruncateKeepsSortedBook | src/order_book.rs:130-145 | Truncating a sorted book that is within its depth changes nothing. |
| OrderBook.Update | src/order_book.rs:64-128 | After `update`, both sides are sorted and within the depth, and a book satisfying the invariant (strict order, within depth) still satisfies it. |
| OrderBook.UpdateKeepsBestLevels | src/order_book.rs:64-145 | On a sorted book, each side after `update` is the best `depth` levels of the merged side, in order. Every level evicted ranks no better than every level kept. |
| OrderBook.UpdateSidesIndependent | src/order_book.rs:66-125 | Ask diffs never affect the bids, and bid diffs never affect the asks. |
| OrderBook.UpdateWithoutDiffs | src/order_book.rs:64-128 | A message with no diffs only truncates and sorts, which leaves a valid book unchanged. |
| Format.PaddedDigits | src/order_book.rs:152 | `{:.k}` pads the fraction: zeros followed by the fraction's digits make exactly `k` digits. |
| Format.FormatFixed | src/order_book.rs:152-153 | `{:.k}` writes digits, a point, then exactly `k` digits. The digits before the point, times 10^k, plus the digits after it, give back the scaled integer. |
| Format.FixedPointValue | src/order_book.rs:152-153 | The integer part and the `k`-digit fraction are digit strings that read back as the scaled integer. |
| Format.FormatFixedWithoutDot | src/order_book.rs:152-153 | Removing the point from the fixed-point text leaves the integer part followed by the `k` fraction digits. |
| Format.TrimFixedDigits | src/order_book.rs:154 | Trimming leading zeros from a zero-padded fraction leaves the digits of its value. |
| Format.FieldIsDigits | src/order_book.rs:152-159 | Formatting, dropping the point and trimming the zeros gives exactly the decimal digits of the scaled integer. |
| Format.CanonicalField | src/order_book.rs:152-159 | A checksum field is a digit string that reads back as the scaled integer. It is empty exactly when the value is zero. |
| Format.DigitsRoundTrip | src/order_book.rs:152-159 | A field's digits read back as the scaled integer: the field loses nothing. |
| Crc32.UpdateAppend | src/order_book.rs:179-181 | Hashing bytes in two pieces gives the same register as hashing them at once. |
| Crc32.Checksum | src/order_book.rs:179-181 | A fresh hasher finalized without input gives 0. |
| Crc32.CheckValue | src/order_book.rs:179-181 | The CRC-32 of "123456789" is 0xCBF43926, the standard check value of this CRC. |
| Checksum.SideTextIsDigitsText | src/order_book.rs:151-162 | A side's checksum text is the concatenation, level by level, of price digits then volume digits. |
| Checksum.ChecksumInput | src/order_book.rs:150-177 | The hashed text is the top ten asks' digits followed by the top ten bids' digits, and consists only of digits. |
| Checksum.AsciiBytesAppend | src/order_book.rs:180 | The bytes of a concatenation are the concatenation of the bytes. |
| Checksum.CalculateChecksum | src/order_book.rs:147-182 | The checksum hashes the top ten asks' digits from the initial register, then the top ten bids' digits, then complements the register. Both texts are ASCII. |
| Checksum.ChecksumReadsTopTen | src/order_book.rs:151-165 | Two books that agree on their first ten levels a side have the same checksum, whatever their depth or deeper levels. |
| Checksum.LevelTextRoundTrip | src/order_book.rs:152-161 | Each field of a level's text reads back as its scaled price or volume. |
| Fixtures.LoadsAsGiven | src/order_book.rs:29-61 | Rows already in book order, at most ten a side, load into a depth-ten book exactly as sent, with or without the timestamp column. |
| Fixtures.SnapshotLoads | src/order_book.rs:226-255 | The test snapshot loads as its twenty rows. |
| Fixtures.LoadedBounds | src/order_book.rs:398-409 | Two sorted ten-level lists, the best ask above a price and the best bid below it, load into a depth-ten book with ten levels a side, every ask above that price and every bid below it. |
| Fixtures.SnapshotFixture | src/order_book.rs:398-409 | The book that `initialize` builds from the test snapshot has ten levels a side. Every ask is above 5711.75 and every bid is below it. |
| Fixtures.BidUpdateGives | src/order_book.rs:64-145 | A bid-only message on a sorted book leaves the asks alone. The bids become the first `depth` levels the diffs produce. |
| Fixtures.UpdateFixture1 | src/order_book.rs:411-428 | The first diff message turns the snapshot's bids into the first expected book. |
| Fixtures.UpdateFixture2 | src/order_book.rs:430-438 | The second diff message gives the second expected book. The new 5709.4 pushes 5705.9 past depth ten. |
| Fixtures.UpdateFixture3 | src/order_book.rs:440-448 | The third diff message gives the third expected book. |
| Fixtures.ExpectedBooks | src/order_book.rs:291-396 | The expected books, loaded from their two-column rows, hold exactly the listed levels. |
| ChecksumFixture.ChecksumBookLoads | src/order_book.rs:451-481 | The checksum test's rows load as sent. |
| ChecksumFixture.CrcOfLevels | src/order_book.rs:150-180 | Hashing a side's text is hashing its levels' digits one after another. |
| ChecksumFixture.ChecksumBySides | src/order_book.rs:147-182 | A book's checksum is its asks' text hashed from the initial register, then its bids' text, then the final XOR. |
| ChecksumFixture.AskCrc | src/order_book.rs:151-162 | The test book's asks take the register from 0xFFFFFFFF to the state after the tenth ask. |
| ChecksumFixture.BidCrc | src/order_book.rs:165-177 | The test book's bids continue from there to the final register. |
| ChecksumFixture.ChecksumFixture | src/order_book.rs:451-483 | The checksum test's book hashes to 974947235. |

## Left out

- The JSON envelope (`update.get(1)`, `get("as")`, `get("a")`) is not modelled. The model starts from the ask and bid entry lists already taken out of the message, with `None` for a missing key. The source is not consistent about which value it receives:
  - `initialize` reads "as"/"bs" from the object it is given;
  - `update` first takes element 1 of an array (src/order_book.rs:65);
  - `src/main.rs:50-55` passes the inner object to both;
  - the tests pass the whole array to both.

  The fixture lemmas therefore describe the per-side algorithm on the lists the tests contain.
- The websocket loop, subscription and printing of `src/main.rs` are I/O and are not part of this model.
- `Display` for `Level` and `OrderBook` (src/order_book.rs:185-219) only formats for printing.
- `f64` is not modelled. Prices and volumes are naturals at 10^-5 and 10^-8. Left out with it are:
  - negative values;
  - NaN (whose `partial_cmp(..).unwrap()` would panic);
  - values with more decimals than `{:.5}` / `{:.8}` print;
  - rounding in `parse` and in formatting. A price at or above 2^36 or a volume at or above 2^26 can parse to the same `f64` as a neighbouring value, and the source then treats the two as one price at src/order_book.rs:79 and :82.

  What a string parses to is an input to the model (`Field.Str(scaled)`), not computed from the text.
- OrderBook.Update: requires every diff entry to be readable. An array that runs out before three elements with only strings makes `ask[i]` index past the end and the source panics. `Wire.ReadDiff` names that case (`Panic`), and `Update` and `ApplyDiff` take its absence as a precondition instead of modelling the panic.
- OrderBook.ApplyDiff: requires the entry to be readable, for the same reason as `Update`.
- Levels.SortLevels: is a stable insertion sort, not Rust's merge-based `sort_by`. A stable sort's result is fixed by the order and by stability, and both are proved here (`SortLevels`, `SortLevelsIsStable`), so only the algorithm differs.
- Crc32.Update: is the bitwise definition of CRC-32, not the table-driven or SIMD code of `crc32fast`. Both compute the same standard function, and `CheckValue` pins its check value. No lemma proves the bitwise and table-driven forms equal. `Update` has no contract of its own; `UpdateAppend` and `CheckValue` state what it does.
- Crc32.Checksum: its contract states only the empty input. The value on other inputs is given through `UpdateAppend`, `CheckValue` and the checksum test.
- The text that the checksum test hashes is not stated as one literal. `AskCrc` and `BidCrc` prove each level's digits and register step separately.
- `Vec::with_capacity` in `new` only reserves memory and has no observable effect.
