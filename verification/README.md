# Randoms Wandering Traders, modelled in Dafny

The repository compiles a catalogue of wandering-trader offers into Minecraft
function commands. This project models its pure core:

- **`generate_scoreboard_commands` / `generate_trade_commands`** (module
  `GenerateTrades`). Each walks the catalogue sections in order with its own
  running index starting at 1.
  - The scoreboard generator gives every section the range `start..end`,
    sized by its trade count. It emits `maximum_quantity` pairs of lines: a
    `random value start..end` draw, then the fixed dispatch line.
  - The trade generator emits one guarded insertion line per trade.
  - The proofs show the two counters agree: any value drawn for section `i`
    is the guard of the line that inserts a trade of section `i`.
- **`Trade.add_nbt` and `Trade.unless_nbt`** (module `Trades`, with the
  `json.dumps` string escaping in `Json`). These are compact JSON encodings of
  the offer and of its absence-check key. Each encoding has a decoder that
  reads it back as exactly the fields it was built from, which makes both
  encodings injective on those fields.
- **The `trades` catalogue literal** (module `TradeCatalogue`). It is a
  constant, with lemmas about what compiling it produces.
- **`generate_mcfunction_debug_line` and the line-list logic of
  `add_or_update_debug_message`** (module `DebugHeader`). The path is a
  sequence of already-resolved components. A Python exception becomes
  `Result.Failure(ValueError)` or `Failure(IndexError)`.
- **`format_duration_long`** (module `Duration`), over an integer nanosecond
  count.

Supporting modules:
- `Wrappers`: `Option` and `Result`.
- `Text`: Python `str(int)`, `join`, `startswith`, `endswith`, `removesuffix`.
- `Catalogue`: the section datatype and trade and slot counts.

Python integers are unbounded, so they are `int` here. `range(n)` with
`n <= 0` runs no iteration. `divmod` with a positive divisor is Dafny's
Euclidean `/` and `%`. A negative count therefore yields a negative first
part, as in Python.

The docstrings of both copies of `format_duration_long`
(generate_trades.py:140-143, mcfunction_debug_message_generator.py:188-191)
give two hiding rules. Microseconds and nanoseconds are not shown for
durations of one second or more. Milliseconds are not shown for durations
of one minute or more. The code applies neither rule: it keeps the two
largest non-zero units, whatever they are. So one second and five
microseconds prints `1s5us`, and one minute and five milliseconds prints
`1m5ms`. The model follows the code. `Duration.SecondAndMicroseconds`
states the first example, and `Duration.PartsLeading` states which units
are kept in general.

## Model

| member | source | states |
|---|---|---|
| GenerateTrades.GenerateScoreboardCommands | generate_trades.py:60-84 | the scoreboard output has two lines per slot, 2 × Σ max(maximum_quantity, 0) in all, so a section whose quantity is not positive adds no line; where each pair goes is `ScoreboardLayout` |
| GenerateTrades.GenerateTradeCommands | generate_trades.py:87-100 | the two nested loops with one counter are a single walk over `AllTrades(cat)`, the trades in section-then-trade order: one line per trade, the k-th (0-based) being the insertion line of the k-th trade under index k + 1 |
| GenerateTrades.SlotPairs | generate_trades.py:72-80 | the inner loop yields two commands per iteration and none when `maximum_quantity` is not positive |
| GenerateTrades.ScoreboardLengthFrom | generate_trades.py:64-82 | the scoreboard walk emits exactly twice the sum of the sections' slot counts, from any starting index |
| GenerateTrades.ScoreboardLayout | generate_trades.py:62-84 | the output has 2 × Σ max(maximum_quantity, 0) lines; each slot of section `i` is the draw line over exactly section `i`'s range followed by the dispatch line, at the position after all earlier slots |
| GenerateTrades.ScoreboardSlot | generate_trades.py:64-82 | the command pair for slot `s` of section `i` is a draw over `SectionRange(cat, i)`, the range the running index gives, followed by the dispatch |
| GenerateTrades.ScoreboardParity | generate_trades.py:72-80 | a line is the dispatch line exactly at odd positions, and every even position reads back as a draw line |
| GenerateTrades.RangesContiguous | generate_trades.py:62-82 | the first range starts at 1; each ends at start + trade count − 1, so an empty section gets `start..start−1`; the next starts right after; the last ends at the total trade count |
| GenerateTrades.RangesDisjoint | generate_trades.py:68-82 | an earlier section's range ends below the start of any later section's range |
| GenerateTrades.RangesCover | generate_trades.py:68-82 | every index from 1 to the total trade count lies in some section's range |
| GenerateTrades.RangesPartition | generate_trades.py:62-84 | an index is allocated to some section exactly when it lies in 1..total, and the ranges are pairwise disjoint and ascending |
| GenerateTrades.DecodeRandomLineOf | generate_trades.py:73-75 | a draw line reads back as exactly the range it was built from |
| GenerateTrades.RandomLineNotDispatch | generate_trades.py:73-79 | no draw line equals the dispatch line |
| GenerateTrades.DecodeTradeLineOf | generate_trades.py:93-97 | a trade line reads back as its index, the trade's key and its offer, so the line is the fixed prefix, index, unless-infix, `unless_nbt`, insert-infix and `add_nbt` with nothing else |
| GenerateTrades.TradeCommandAt | generate_trades.py:87-100 | trade `j` of section `i` is inserted at the position after the earlier sections' trades, under index `start_i + j` |
| GenerateTrades.TradeCommandsLayout | generate_trades.py:87-100 | one command per trade in section-then-trade order; trade `j` of section `i` carries index `start_i + j`, which lies in section `i`'s range |
| GenerateTrades.TradeLineGuards | generate_trades.py:89-98 | the k-th trade line (0-based) is guarded by `matches k+1` and inserts the k-th trade of the flattened catalogue |
| GenerateTrades.DrawSelectsCommand | generate_trades.py:62-100 | a value `v` in section `i`'s range is the index of the `v`-th insertion, which carries trade `v − start_i` of section `i` |
| GenerateTrades.DrawSelectsSectionTrade | generate_trades.py:62-100 | any value the scoreboard may draw for section `i` is the guard of the trade line that installs trade `v − start_i` of section `i` |
| Catalogue.AllTradesAt | generate_trades.py:90-91 | flattening the sections in order puts trade `j` of section `i` after all trades of earlier sections |
| Json.JsonString | trades.py:14-29 | the `json.dumps` of a str value with the default `ensure_ascii`: printable ASCII between two double quotes, at least two characters longer than the text; `DecodeJsonString` reads it back |
| Json.DecodeJsonString | trades.py:15-28 | a string literal written with `ensure_ascii` escaping reads back as the original text, leaving what follows untouched |
| Json.Escape | trades.py:15-28 | escaped text is printable ASCII and never shorter than the original |
| Trades.UnlessNbt | trades.py:31-44 | the key encoding is printable ASCII |
| Trades.AddNbt | trades.py:14-29 | the offer encoding is printable ASCII |
| Trades.DecodeUnlessNbt | trades.py:31-44 | `unless_nbt` reads back as exactly the buy and sell item ids and counts |
| Trades.DecodeAddNbt | trades.py:14-29 | `add_nbt` reads back as exactly the buy and sell stacks, price multiplier and max uses |
| Trades.UnlessNbtDeterminesKey | trades.py:31-44 | two trades have equal `unless_nbt` exactly when their buy and sell items and counts agree, so price multiplier, max uses and weight never change it |
| Trades.AddNbtDeterminesOffer | trades.py:14-29 | two trades have equal `add_nbt` exactly when all fields but the weight agree |
| Trades.UnlessNbtPrefixOfAddNbt | trades.py:14-44 | `unless_nbt` ends in `}`, and without it is a proper prefix of `add_nbt`, which continues `,"priceMultiplier":…,"maxUses":…}` |
| TradeCatalogue.CatalogueShape | trades.py:47-187 | six sections with distinct names Buys, Trades, Dyes, Saplings, Plants, Generic, with 9, 18, 16, 9, 20, 31 trades and maximum quantities 1, 2, 2, 1, 3, 2 |
| TradeCatalogue.CatalogueWellFormed | trades.py:47-187 | every section has 1 = minimum ≤ maximum quantity, and every trade has positive counts and max uses and weight 1 |
| TradeCatalogue.CatalogueRanges | trades.py:47-187 | compiling the catalogue gives the ranges 1..9, 10..27, 28..43, 44..52, 53..72, 73..103 |
| TradeCatalogue.CatalogueSlots | trades.py:47-187 | the catalogue has 11 draw slots in all |
| TradeCatalogue.CatalogueTradeCount | trades.py:47-187 | the catalogue has 103 trades |
| TradeCatalogue.CatalogueOutputSizes | trades.py:47-187 | the compiled catalogue has 22 scoreboard lines and 103 trade lines |
| TradeCatalogue.MyceliumPair | trades.py:170-171 | the two emerald→mycelium trades have the same `unless_nbt` and key but different `add_nbt` and offers |
| TradeCatalogue.MyceliumLines | trades.py:170-171 | those trades are trade lines 89 and 90 (indices 88, 89), guarded by 89 and 90 and by the same key, inserting different offers |
| Duration.UnitsTable | mcfunction_debug_message_generator.py:194-204 | the unit factors are the table's products, positive, strictly decreasing, ending in 1 |
| Duration.PartsShape | mcfunction_debug_message_generator.py:205-212 | at most two parts, each with a non-zero value and a table unit, the second of a smaller unit than the first |
| Duration.PartsEmpty | mcfunction_debug_message_generator.py:205-213 | no part is collected exactly when the nanosecond count is zero |
| Duration.FormatDurationLong | generate_trades.py:139-167 | `format_duration_long` over the nanosecond count (the same code as mcfunction_debug_message_generator.py:187-215): the text is `"0s"` exactly when the count is zero; which units it keeps is `PartsLeading` |
| Duration.FormatZero | generate_trades.py:157-167 | the result is `"0s"` exactly when the count is 0; otherwise there are one or two parts, and the result is the first rendered part followed by the second, if there is one |
| Duration.PartsLeading | mcfunction_debug_message_generator.py:205-212 | the parts are the two largest non-zero units: the first part's value is `ns` divided by its unit, and every larger table unit divides into `ns` zero times; the second part's value is the remainder divided by its unit, and every unit strictly between the two divides into that remainder zero times; with one part, every smaller unit divides into the remainder zero times |
| Duration.PartsTotal | mcfunction_debug_message_generator.py:205-212 | the parts never overshoot the count; with fewer than two parts they add up to it exactly, and with two the dropped remainder is below the second part's unit |
| Duration.SecondAndMicroseconds | generate_trades.py:139-167 | 1 s + 5 µs gives the parts 1 s and 5 µs and prints `1s5us` |
| Duration.HourMinutesSeconds | mcfunction_debug_message_generator.py:187-215 | 1 h 2 min 3 s is cut to its two largest units and prints `1h2m` |
| DebugHeader.DebugLine | mcfunction_debug_message_generator.py:110-135 | `generate_mcfunction_debug_line` over the path components: without a `data` component it is a `ValueError`; a line is built only when both `data` and `function` occur, and it is the fixed tellraw text between its prefix and its gray-italic suffix; the case lemmas below pin each result |
| DebugHeader.IndexOf | mcfunction_debug_message_generator.py:126 | `tuple.index`: the first position of the item, or the error exactly when it is absent |
| DebugHeader.DebugLineFunction | mcfunction_debug_message_generator.py:124-135 | for `…/data/<ns>/function/<rest>` with no earlier `data`, the line is the fixed tellraw text for `<ns>:<rest joined by '/'>` with one trailing `.mcfunction` removed |
| DebugHeader.DebugLineNoData | mcfunction_debug_message_generator.py:126-134 | no `data` component raises `ValueError` |
| DebugHeader.DebugLineNotFunction | mcfunction_debug_message_generator.py:128-129 | a component other than `function` two after the first `data` raises `ValueError` |
| DebugHeader.DebugLineTruncated | mcfunction_debug_message_generator.py:127-128 | a first `data` among the last two components raises `IndexError`, which `except ValueError` does not catch |
| DebugHeader.DebugLineCases | mcfunction_debug_message_generator.py:124-134 | every path has one of the shapes above: no `data`, a truncated `data`, or `data` followed by two more components |
| DebugHeader.TellrawDecodes | mcfunction_debug_message_generator.py:135 | the tellraw line reads back as its namespace and path when the namespace has no `:` |
| DebugHeader.TellrawInjective | mcfunction_debug_message_generator.py:135 | distinct functions get distinct tellraw lines, for namespaces without `:` |
| DebugHeader.UpdateHeader | mcfunction_debug_message_generator.py:162-177 | the result starts with the comment line and the tellraw line, and a file that already has them is returned unchanged |
| DebugHeader.UpdateHeaderInsert | mcfunction_debug_message_generator.py:163-164 | an empty file, or one whose first line lacks the comment, gets the three header lines in front, and the rest of the line list is kept whole |
| DebugHeader.UpdateHeaderReplace | mcfunction_debug_message_generator.py:170-171 | with the comment present, only line 1 is set to the tellraw line (appended to a one-line file) and every other line is kept |
| DebugHeader.UpdateHeaderIdempotent | mcfunction_debug_message_generator.py:162-177 | a second application changes nothing |
| DebugHeader.AddOrUpdateDebugMessage | mcfunction_debug_message_generator.py:156-177 | `IndexError` escapes; `ValueError` writes nothing; otherwise nothing is written exactly when the header is already right, and whatever is written has the header |
| DebugHeader.AddOrUpdateIdempotent | mcfunction_debug_message_generator.py:156-177 | running the patcher again on the line list it has just written writes nothing; for files this needs the write-then-read round trip to return those lines, which "## Left out" limits |

## Left out

- File and process plumbing is not modelled: TOML and text-file reading and
  writing, logging setup, `main`, module loading, the `__main__` blocks,
  clocks and exit codes. Two file effects do decide what is written: a
  failed read and the write-then-read round trip, each on its own line
  below.
- A failed read is modelled as `lines == []`. `read_text_file_lines`
  (mcfunction_debug_message_generator.py:49-56) catches every exception and
  returns `[]`. `add_or_update_debug_message` then takes its first case
  (mcfunction_debug_message_generator.py:163-165) and writes a header-only
  file over the unreadable one. `DebugHeader.AddOrUpdateDebugMessage` with
  `lines == []` gives exactly that result. The model cannot tell an
  unreadable file from an empty one.
- Malformed section dictionaries are not modelled. A section without a
  `trades` or `maximum_quantity` key raises `KeyError`, and a
  non-integer `maximum_quantity` makes `range` raise `TypeError`
  (generate_trades.py:64-72, 91-92). `Catalogue.Section` always has both
  fields, and the quantity is an `int`.
- Strings are sequences of Dafny `char`, which are Unicode scalar values. A
  Python `str` holding a lone surrogate has no counterpart, so `json.dumps`
  escaping of lone surrogates is not modelled.
- `iter_matching_files` is not modelled. It depends on `os.walk` and on
  Python's regex engine (the `(?!tick|load)` lookahead, Unicode `\w`).
- `pathlib.Path.resolve()` is not modelled, because it reads the file
  system. Paths are taken as already-resolved component sequences.
- The write-then-read round trip is taken as the identity on line lists.
  `write_text_file_lines` writes each line followed by `\n`.
  `read_text_file_lines` reads in text mode, which splits lines at `\n`, `\r`
  and `\r\n`, and then `.strip()`s every line
  (mcfunction_debug_message_generator.py:49-56, 71-74). So the round trip
  returns the same lines only when no line contains `\n` or `\r` and none has
  surrounding whitespace. Every line of the file is modelled as already
  stripped, so a rewritten file losing the indentation of its lines is not
  modelled.
- DebugHeader.AddOrUpdateIdempotent: states idempotence over line lists. It
  holds for files only when the round trip above is the identity. A `\r` in a
  directory name under the function folder (the file filter's `.*` lets one
  through) puts a `\r` into the tellraw line. Re-reading then splits that
  line, so line 1 never matches, and every run rewrites the file and adds a
  line.
- The float `price_multiplier` is not modelled as a number. Its `json.dumps`
  rendering is an opaque non-empty token (`FloatRepr`) over the characters a
  float `repr` can contain. The catalogue uses `"0.05"`.
- The float→int step `int(duration_seconds * 1_000_000_000)` is not
  modelled: `format_duration_long` is modelled from the integer nanosecond
  count.
- `format_duration_long` has two identical copies (generate_trades.py:139-167
  and mcfunction_debug_message_generator.py:187-215). It is modelled once.
- What the emitted commands do in game is not modelled: the random draw, the
  scoreboard and NBT matching.
- Log messages are not modelled. The exception text of the `ValueError`
  re-raise is not modelled either, only which exception is raised.
