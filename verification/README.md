# auto_invest core in Dafny

This project models the two pieces of self-contained sequential logic in
`auto_invest`:

- **Channel list parsing** (`AssetFetcher.__parse_channels`). It takes the lines of
  the creator file. It skips the header line and splits every other line on `,`
  into a name and an integer priority. Any bad line fails the whole parse. It
  then returns the names sorted by priority, highest first, with ties in file
  order (a stable `sort(reverse=True)`).
- **Purchase plan and ledger append** (`AssetPurchaser.__init__`,
  `__purchase_assets`, `__purchase_asset`, `__get_stock_price`). Construction
  resolves the purchase amounts. It aborts when neither per-asset nor uniform
  amounts are given. Otherwise it zips assets with amounts. In simulation mode
  it appends one record `(asset, price, quantity, expiration)` per pair to the
  append-only portfolio ledger. The price is the sentinel `-1.0` when the
  lookup fails. Construction raises, before writing any row, when the
  expiration date overflows the calendar.

Modules:

- `Wrappers` (`wrappers.dfy`) has `Option` and `Result`.
- `Text` (`text.dfy`) models `str.strip()`, `str.split(',')` and `int(...)`.
- `ChannelOrder` (`channel_order.dfy`) has the channel record and the stable
  descending insertion sort.
- `AssetFetcher` (`asset_fetcher.dfy`) has the line and file parser.
- `AssetPurchaser` (`asset_purchaser.dfy`) models the ledger as a
  `seq<Record>` that only grows.

Stability is stated through `WithPriority(s, p)`: the channels of `s` with
priority `p`, in order. The sort keeps every such class unchanged. A sorted
sequence is determined by its classes (`StableOrderUnique`). So the sort is
the one and only stable descending order of the rows.

The channel file layout follows the code: each data line holds two fields,
`name,priority` (`src/auto_invest/asset_fetcher.py:17`).

## Model

| member | source | states |
|---|---|---|
| Text.StripSpec | src/auto_invest/asset_fetcher.py:17-18 | the result is a contiguous slice of the input, only whitespace is removed around it, and it has no whitespace at either end |
| Text.StripIdempotent | src/auto_invest/asset_fetcher.py:17-18 | `str.strip()` is idempotent |
| Text.StripAround | src/auto_invest/asset_fetcher.py:17 | stripping a line around a comma trims only the text before the comma from the front and the text after it from the back |
| Text.StripTrimLeft | src/auto_invest/asset_fetcher.py:17-18 | stripping the name field of an already stripped line gives the strip of the raw text before the comma |
| Text.StripTrimRight | src/auto_invest/asset_fetcher.py:17-18 | stripping the priority field of an already stripped line gives the strip of the raw text after the comma |
| Text.StripKeepsNonSpace | src/auto_invest/asset_fetcher.py:17 | stripping the line never removes a comma, so the field count is decided by the raw line |
| Text.SplitSpec | src/auto_invest/asset_fetcher.py:17 | `split(',')` yields one more field than there are commas, and no field holds a comma |
| Text.JoinSplit | src/auto_invest/asset_fetcher.py:17 | joining the fields with `,` gives back the split string |
| Text.SplitJoin | src/auto_invest/asset_fetcher.py:17 | splitting comma-joined, comma-free fields gives back the fields |
| Text.ParseIntSpec | src/auto_invest/asset_fetcher.py:18 | `int()` accepts exactly an optional sign followed by at least one digit, with the sign applied to the decimal value |
| Text.ParseShowInt | src/auto_invest/asset_fetcher.py:18 | every integer's decimal text parses back to that integer |
| ChannelOrder.Insert | src/auto_invest/asset_fetcher.py:21 | inserting into a priority-sorted sequence keeps it sorted, adds exactly the one channel, and puts either that channel or the old first channel in front |
| ChannelOrder.SortByPriority | src/auto_invest/asset_fetcher.py:21 | the sorted rows are a permutation of the input with non-increasing priorities |
| ChannelOrder.SortIsStable | src/auto_invest/asset_fetcher.py:21 | channels of equal priority keep their input order |
| ChannelOrder.StableOrderUnique | src/auto_invest/asset_fetcher.py:21 | two sorted sequences with the same priority classes in the same order are equal |
| ChannelOrder.SortCharacterized | src/auto_invest/asset_fetcher.py:21 | any sorted, class-preserving ordering of the rows is the sort's result |
| ChannelOrder.SortKeepsNames | src/auto_invest/asset_fetcher.py:21-23 | sorting neither loses nor duplicates a name |
| AssetFetcher.ParseLine | src/auto_invest/asset_fetcher.py:16-18 | a line is rejected as malformed exactly when it does not hold exactly one comma (a blank line included); parsed names are comma-free and stripped |
| AssetFetcher.ParseLineContent | src/auto_invest/asset_fetcher.py:17-18 | a line `a,b` with one comma fails with a non-integer priority exactly when the stripped `b` is not an integer, and otherwise gives the channel named by the stripped `a` with that integer as priority |
| AssetFetcher.CollectFrom | src/auto_invest/asset_fetcher.py:16-18 | the loop succeeds iff every line parses, keeps the lines in order, and otherwise reports the first failing line |
| AssetFetcher.ParseChannels | src/auto_invest/asset_fetcher.py:7-23 | an empty file fails on the header; the result exists iff every data line parses, has one name per data line and is a permutation of the parsed names; a failure names the first bad data line, never the header |
| AssetFetcher.HeaderIgnored | src/auto_invest/asset_fetcher.py:15 | the first line's content never affects the result |
| AssetFetcher.ParseChannelsRanks | src/auto_invest/asset_fetcher.py:20-23 | the result is the names of the rows in their non-increasing-priority, file-order-on-ties ordering |
| AssetFetcher.ParseFormatLine | src/auto_invest/asset_fetcher.py:17-18 | a channel written as `name,priority` parses back to the same channel when the name has no comma and no surrounding whitespace |
| AssetFetcher.ParseFormatFile | src/auto_invest/asset_fetcher.py:14-23 | a file written from channels under any header parses to their names in stable descending priority order |
| AssetFetcher.TiesKeepFileOrderExample | src/auto_invest/asset_fetcher.py:15-23 | rows `A,1`, `B,5`, `C,5` come back as `B`, `C`, `A` |
| AssetPurchaser.NewPurchaser | src/auto_invest/asset_purchaser.py:44-55 | construction aborts iff both amount sources are absent; per-asset amounts are used as given; otherwise the uniform amount is repeated once per asset |
| AssetPurchaser.Zip | src/auto_invest/asset_purchaser.py:37 | pairs are positionwise and as many as the shorter input |
| AssetPurchaser.PurchaseAsset | src/auto_invest/asset_purchaser.py:7-29 | in simulation mode exactly one record is appended, carrying the asset, the quantity, the expiration and the looked-up price or `-1.0`; otherwise the ledger is unchanged |
| AssetPurchaser.PurchaseAll | src/auto_invest/asset_purchaser.py:37-38 | the old ledger is a prefix of the new one, with one record per order, in order, all with the same expiration |
| AssetPurchaser.PurchaseAssets | src/auto_invest/asset_purchaser.py:31-38 | computes the expiration once in every mode and raises, writing nothing, when it overflows; otherwise appends `min(len(assets), len(amounts))` records pairing `assets[i]` with `amounts[i]`, all with that one expiration |
| AssetPurchaser.Construct | src/auto_invest/asset_purchaser.py:40-61 | raises exactly when amounts are given and the expiration date overflows, leaving the ledger unchanged; the ledger only grows; it is unchanged on abort or outside simulation mode; otherwise row i pairs asset i with its per-asset or uniform amount and the shared expiration |
| AssetPurchaser.ConstructOnlyAppends | src/auto_invest/asset_purchaser.py:59-61 | the new ledger is the old ledger followed by rows that do not depend on the old ledger, and whether it raises does not depend on the old ledger either |
| AssetPurchaser.RerunAppendsAgain | src/auto_invest/asset_purchaser.py:59-61 | constructing twice appends the second run's rows after the first run's, each run with its own prices and date (no de-duplication) |
| AssetPurchaser.UniformAmountExample | src/auto_invest/asset_purchaser.py:24-28 | `AAPL`, `MU` at a uniform 1000.0, with no price for `MU`, append an `AAPL` row at its price and an `MU` row at `-1.0` |

## Left out

- Reading the channel file (`open`, `next`, line iteration, `asset_fetcher.py:14-16`) is I/O. The parser takes the file's lines, newlines included or not, as a `seq<string>`.
- Text.Strip: treats only ASCII whitespace (tab, line feed, vertical tab, form feed, carriage return, 0x1C-0x1F, space) as whitespace. Python's `str.strip()` also removes non-ASCII whitespace.
- Text.ParseInt: accepts an optional sign and ASCII digits only. Python's `int()` also accepts underscores between digits, non-ASCII decimal digits and surrounding whitespace. The whitespace case never arises, because the field is stripped first.
- Text.ParseIntSpec: has no upper limit on the number of digits. CPython 3.11 and later raise `ValueError` for decimal strings longer than the interpreter's digit limit (4300 by default, configurable at run time). A priority that long would fail the whole parse there, while the model accepts it. The limit depends on the interpreter version and settings, so the model leaves it out.
- `AssetFetcher.__fetch_assets` is a stub. `maxAssets` is stored but never used. The `AssetFetcher` constructor and both `__main__` blocks only wire things together. None of them is modelled.
- The price service (`yfinance`, `asset_purchaser.py:8-12`) is a network call. It is the parameter `lookup: string -> Option<real>`, where `None` stands for an empty price history.
- The wall clock and calendar formatting (`datetime.now()`, `timedelta`, `strftime`, `asset_purchaser.py:36`) are the parameter `clock: int -> Option<string>`. It is applied once to the validity window. `None` stands for the `OverflowError` that date arithmetic raises outside years 1-9999; the construction then raises before writing a row. Which windows overflow depends on today's date, so the model leaves that to the clock.
- Opening the ledger file, its path, and formatting each row as text (`asset_purchaser.py:28,57-59`) are I/O. The ledger is a `seq<Record>`, and a write is an append.
- The error messages printed on abort and on a failed price lookup are console output and are not modelled.
- Prices and quantities are `real`. Floating-point rounding and the decimal text of floats are not modelled. Quantities are only passed through.
- AssetPurchaser.PurchaseAsset: a real price of exactly `-1.0` cannot be told apart from the sentinel, in the source as in the model. The model does not separate the two cases beyond what `lookup` returns.
- Outside simulation mode, `__purchase_asset` does nothing in the source (no real purchase is implemented), and the model does nothing too.
- The rest of the pipeline (video discovery, transcripts, language-model extraction, aggregation) is not part of this model.
