# M1 history tools of mt4-tools, modelled in Dafny

This project models three parts of the mt4-tools repository.

- **`updateM1Bars`** builds the one-minute (M1) history of the FX indexes. It holds a table of indexes, each naming the currency pairs it needs and their digits. For an index it walks every day from the latest history start of those pairs up to yesterday. It skips weekend days. On a trading day it reads each pair's M1 file, compressed file first, then raw. The index's calculator turns the pairs' bars into index bars. `saveBars` checks that the result is a complete day, packs it into 24-byte little-endian records and publishes it. Publishing writes a temporary file and renames it onto the target, and never overwrites a file that is already there. File and directory names come from `getVar`, which memoises them in a cache of at most 128 entries and evicts the oldest first.
- **`createHistory`** creates a MetaTrader history set for one symbol. It walks the symbol's FXT days, appends the XTrade M1 bars of every trading day, and closes the set once the walk is complete. Its own `getVar` names the XTrade files.
- **`OpenPosition`** is the model object of an open trade position. It is created from an array of position data. Its stop loss and take profit can be changed, and it can be deleted once it is stored.

Everything is written as pure functions over immutable data:

- The file system is a map from path to bytes.
- The `getVar` cache is a sequence of key/value pairs in insertion order.
- The calls into a MetaTrader history set are recorded as an event log.
- The environment the scripts read at run time is a parameter: clocks, the weekend rule, the history start table, configuration, the bar file reader and the calculators' floating-point formula.

Modules, one file each:

| module | file | models |
|---|---|---|
| Wrappers | wrappers.dfy | `Option` and `Result` |
| Php | php.dfy | truncating `%`, string falsiness, `strEndsWith`, decimal printing |
| Civil | civil.dfy | Gregorian calendar arithmetic behind GMT `date()` |
| Dates | dates.dfy | `date('Y/m/d')`, `iDate('m')`, `$t - $t%DAY` |
| Bars | bars.dfy | the M1 bar record |
| Baskets | baskets.dfy | the `$indizes` table, the digits rule, which calculators exist |
| IndexEngine | index_engine.dfy | the shared bar construction of the calculators |
| DayValidator | day_validator.dfy | step (1) of `saveBars` |
| Packer | packer.dfy | `pack('VVVVVV', ...)` and reading it back |
| FileStore | file_store.dfy | `tempnam`, write, `rename` |
| VarCache | var_cache.dfy | the `static $varCache` of both `getVar`s |
| MyfxPaths | myfx_paths.dfy | `getVar` of `updateM1Bars` |
| XtradePaths | xtrade_paths.dfy | `getVar` of `createHistory` |
| SaveBars | save_bars.dfy | `saveBars` |
| DayWalk | day_walk.dfy | the day loop both scripts share |
| UpdateM1Bars | update_m1_bars.dfy | `createIndex` |
| CreateHistory | create_history.dfy | `createHistory` |
| OpenPosition | open_position.dfy | `create`, `setStopLoss`, `setTakeProfit`, `delete` |

The system's written design and its code differ in a few places. In each case the model follows the code:

- The design calls the month-change signal progress reporting. In the code, `createIndex` prints the month line only when `$verbose > 0`, but `createHistory` prints it unconditionally. The two walks are modelled that way.
- The design has the cache evict the oldest entry before it inserts the new one. The code assigns first, either in place or by appending, and then drops the first entry once the array holds more than 128. The resulting contents are the same. The model follows the code's order.
- The design says the validator checks that the first bar is at minute 0 of "the day". The code only checks that the first bar's time modulo a day is 0 and the last bar's is 23:59, using PHP's truncating `%`. It does not compare the day being saved and does not inspect interior bars. The model states this, including the consequence for days before 1970 (`DayValidator.PreEpochDayIsRejected`).
- The design treats an already published target as a fatal error. The code prints an error and `saveBars` returns `false`, so `createIndex` returns `false`.
- The design has a calculator for every listed index. The script defines only `calculateUSDFX6` and the eight `calculate*LFX` functions. For the other six FX6 indexes the call of the missing function is a fatal error, modelled as `UndefinedCalculator`.

## Model

In the source column, paths are relative to the repository root.

| member | source | states |
|---|---|---|
| Baskets.DigitsOf | src/WEB-INF/bin/fxi/updateM1Bars.php:101 | The on-the-fly digits are 3 exactly for symbols ending in JPY, and 5 otherwise. |
| Baskets.TableFollowsDigitsRule | src/WEB-INF/bin/fxi/updateM1Bars.php:30-45 | For every index of the table, the digits written next to each instrument agree with the rule applied on line 101. |
| Baskets.CalculatorsReadTheirBasket | src/WEB-INF/bin/fxi/updateM1Bars.php:149-161 | Every calculator the script defines reads exactly the instruments its table row lists, in table order. Each walks AUDUSD's bars. |
| Php.Mod | src/WEB-INF/bin/fxi/updateM1Bars.php:103 | PHP's `%` gives the remainder of truncating division. It is bounded by the divisor and carries the dividend's sign. |
| Dates.FloorToDay | src/WEB-INF/bin/fxi/updateM1Bars.php:103-104 | `$t - $t%DAY` is a multiple of a day. From 1970 on it is the midnight at or before `t`. Before 1970 it is the midnight at or after `t`. |
| Dates.DirDateIdentifiesDay | src/WEB-INF/bin/fxi/updateM1Bars.php:747 | Two timestamps give the same `Y/m/d` directory string exactly when they fall on the same GMT day. |
| Civil.RoundTrip | src/WEB-INF/bin/fxi/updateM1Bars.php:747 | The calendar date computed for a day number determines that day number again. |
| DayWalk.InDays | src/WEB-INF/bin/fxi/updateM1Bars.php:108 | The loop visits a day exactly when it lies in [start, today) at a whole number of days from the start. |
| DayWalk.DaysIncrease | src/WEB-INF/bin/fxi/updateM1Bars.php:108 | The visited days strictly increase. |
| DayWalk.MonthChangesOfDays | src/WEB-INF/bin/fxi/updateM1Bars.php:109-113 | A month line is due for a visited day exactly when its month differs from the previous visited day's, or, on the first day, from the initial `$lastMonth`. |
| DayWalk.FirstDayStartsAMonth | src/WEB-INF/bin/fxi/updateM1Bars.php:108-113 | With `$lastMonth = -1`, the first visited day always gets a month line. |
| DayWalk.Trading | src/WEB-INF/bin/fxi/updateM1Bars.php:115 | The processed days are exactly the visited days that are not weekend days, still in increasing order. |
| IndexEngine.IndexBar | src/WEB-INF/bin/fxi/updateM1Bars.php:183-188 | An index bar keeps its time, open and close. High and low are the larger and smaller of open and close, and ticks are twice their distance. |
| IndexEngine.Calculate | src/WEB-INF/bin/fxi/updateM1Bars.php:164-190 | One index bar per AUDUSD bar, with AUDUSD's time, in order. Open and close are the formula applied to that minute's member opens and closes, with null for a member lacking that minute. |
| IndexEngine.CompleteDriverDayIsPublishable | src/WEB-INF/bin/fxi/updateM1Bars.php:164-190 | If AUDUSD has a gapless 1440-minute day, then whatever the formula yields, the index day passes the validator and packs to 34560 bytes. |
| DayValidator.Validate | src/WEB-INF/bin/fxi/updateM1Bars.php:654-661 | A day is accepted exactly when it has 1440 bars, the first at midnight and the last at 23:59, both by PHP `%`. Otherwise the first failing check is reported: count, then start, then end. |
| DayValidator.MinuteSeriesIsAccepted | src/WEB-INF/bin/fxi/updateM1Bars.php:655-657 | Every gapless minute series of a day from 1970 on is accepted. |
| DayValidator.InteriorIsNotInspected | src/WEB-INF/bin/fxi/updateM1Bars.php:655-657 | A day whose interior minutes all carry the midnight time is still accepted, because only the count and the two end bars are checked. |
| DayValidator.PreEpochDayIsRejected | src/WEB-INF/bin/fxi/updateM1Bars.php:657 | Before 1970 the truncating `%` is negative, so even a gapless day is rejected at its last bar. |
| Packer.ReadU32LEOfU32LE | src/WEB-INF/bin/fxi/updateM1Bars.php:667 | Reading back a `V` field gives the packed integer modulo 2^32. |
| Packer.U32LEOfReadU32LE | src/WEB-INF/bin/fxi/updateM1Bars.php:667 | Every 4 bytes are the `V` packing of the integer they read as. |
| Packer.Wrap | src/WEB-INF/bin/fxi/updateM1Bars.php:667-672 | A bar as it reads back from its record fits 32 bits, and a bar that already fits comes back unchanged. |
| Packer.UnpackPackBar | src/WEB-INF/bin/fxi/updateM1Bars.php:667-672 | A packed record reads back as the bar with every field modulo 2^32. |
| Packer.PackUnpackBar | src/WEB-INF/bin/fxi/updateM1Bars.php:667-672 | Every 24-byte record is the packing of the bar read from it. |
| Packer.Pack | src/WEB-INF/bin/fxi/updateM1Bars.php:665-673 | The packed day is 24 bytes per bar, with no header or padding. Bar i occupies bytes 24i to 24i+24. |
| Packer.Unpack | src/WEB-INF/bin/fxi/updateM1Bars.php:665-673 | A byte stream reads back exactly when its length is a whole number of records, giving one bar per record. |
| Packer.UnpackPack | src/WEB-INF/bin/fxi/updateM1Bars.php:665-673 | Packing and reading back returns the bars with every field modulo 2^32. |
| Packer.RoundTrip | src/WEB-INF/bin/fxi/updateM1Bars.php:665-673 | Bars whose fields fit 32 bits survive packing and reading back unchanged. |
| Packer.PackUnpack | src/WEB-INF/bin/fxi/updateM1Bars.php:665-673 | Every stream of whole records is the packing of the bars read from it. |
| FileStore.TempName | src/WEB-INF/bin/fxi/updateM1Bars.php:683 | The temporary name is a new file, distinct from the target. |
| FileStore.PublishIsAtomic | src/WEB-INF/bin/fxi/updateM1Bars.php:682-687 | A target that did not exist stays absent through the temporary-file states and then appears with the full data. Nothing else differs at the end. |
| FileStore.PublishNeverCorrupts | src/WEB-INF/bin/fxi/updateM1Bars.php:687 | In every intermediate state the target holds either its old contents or the full new data. No other existing file is touched. |
| SaveBars.Save | src/WEB-INF/bin/fxi/updateM1Bars.php:646-694 | A day is rejected exactly when the validator finds a fault, and then nothing changes. With raw output off, a valid day returns true and writes nothing. |
| SaveBars.SavePublishes | src/WEB-INF/bin/fxi/updateM1Bars.php:677-688 | With raw output on, an existing target gives false and changes nothing. A free target gets the packed bars and true. A name that cannot be formed is an error. The cache stays well-formed. |
| SaveBars.SaveOnlyAdds | src/WEB-INF/bin/fxi/updateM1Bars.php:677-688 | Saving never removes or changes an existing file. |
| VarCache.Lookup | src/WEB-INF/bin/fxi/updateM1Bars.php:735-736 | A key is found exactly when the cache holds it. With unique keys, the value found is the one stored under it. |
| VarCache.Store | src/WEB-INF/bin/fxi/updateM1Bars.php:783-784 | A store keeps keys unique and the size at most 128. The stored key then finds its value, and no entry appears but the stored one. |
| VarCache.StoreEvictsOldest | src/WEB-INF/bin/fxi/updateM1Bars.php:784 | A new key in a full cache drops exactly the oldest entry, keeps the other 127 in order and appends the new one. |
| VarCache.StoreKeepsOthers | src/WEB-INF/bin/fxi/updateM1Bars.php:783-784 | Below the bound, a store leaves every other key's lookup unchanged. |
| VarCache.StoreAllKeepsNewest | src/WEB-INF/bin/fxi/updateM1Bars.php:783-784 | Storing n distinct keys into an empty cache leaves exactly the newest min(n, 128), oldest first. The others must be recomputed. |
| MyfxPaths.ParseVar | src/WEB-INF/bin/fxi/updateM1Bars.php:745-781 | The identifier chain maps each string to the variable of that name. A string is unknown exactly when no known variable carries it. |
| MyfxPaths.ParseVarName | src/WEB-INF/bin/fxi/updateM1Bars.php:745-778 | Every known variable's name selects that variable again. |
| MyfxPaths.FileNames | src/WEB-INF/bin/fxi/updateM1Bars.php:745-781 | Input files are `<data>/history/dukascopy/<symbol>/<Y/m/d>/M1.bin` or `M1.rar`, and output files the same below `history/myfx`. A falsy symbol fails before a zero time, and an unknown identifier fails always. |
| MyfxPaths.HitSkipsChecks | src/WEB-INF/bin/fxi/updateM1Bars.php:734-736 | A cached key is answered with its stored value before any argument check, and the cache is left unchanged. |
| MyfxPaths.GetVarIsResolve | src/WEB-INF/bin/fxi/updateM1Bars.php:732-787 | From a well-formed cache, the cached, nested `getVar` returns exactly the uncached name or error. It keeps the cache well-formed and leaves it unchanged on an error. |
| MyfxPaths.StoreSound | src/WEB-INF/bin/fxi/updateM1Bars.php:783-784 | Storing a correct value keeps a well-formed cache well-formed and makes the value findable. |
| MyfxPaths.ZeroTimeNeverCached | src/WEB-INF/bin/fxi/updateM1Bars.php:745-784 | From a well-formed cache, a lookup with time 0 fails for every identifier and leaves the cache unchanged, so no key with a falsy time is ever stored. |
| MyfxPaths.TargetFileIdentifiesDay | src/WEB-INF/bin/fxi/updateM1Bars.php:771-774 | Two days of one index share a target file exactly when they are the same GMT day. |
| MyfxPaths.SourceIsNeverTarget | src/WEB-INF/bin/fxi/updateM1Bars.php:749-762 | No input file name is ever an output file name. |
| UpdateM1Bars.StartTime | src/WEB-INF/bin/fxi/updateM1Bars.php:97-100 | The start is the latest history start of the index's instruments, or 0 if none is later. |
| UpdateM1Bars.LocateIsSourceOf | src/WEB-INF/bin/fxi/updateM1Bars.php:118-123 | Locating through the cache gives the compressed file if present, else the raw one if present, else none, as the uncached names say. The cache stays well-formed. |
| UpdateM1Bars.ReadMembersFacts | src/WEB-INF/bin/fxi/updateM1Bars.php:117-126 | Reading succeeds exactly when every instrument has an input file. Otherwise it stops at an instrument of the index whose two files are both missing. |
| UpdateM1Bars.ReadCoversMembers | src/WEB-INF/bin/fxi/updateM1Bars.php:156-161 | After a successful read, every instrument the calculator uses has bars. |
| UpdateM1Bars.ProcessDayFacts | src/WEB-INF/bin/fxi/updateM1Bars.php:116-133 | A trading day that ends the run writes nothing. A day that goes on either wrote nothing (raw output off) or created its new target with 1440 records. |
| UpdateM1Bars.StoreDayFacts | src/WEB-INF/bin/fxi/updateM1Bars.php:130-133 | The same for the index bars once computed: an empty result or a failed save ends the run without writing. |
| UpdateM1Bars.CreateIndex | src/WEB-INF/bin/fxi/updateM1Bars.php:90-92 | An empty index name is an invalid argument. Nothing is printed, saved or written. |
| UpdateM1Bars.WalkFiles | src/WEB-INF/bin/fxi/updateM1Bars.php:108-135 | Whatever the outcome, no existing file is changed or removed. With raw output off nothing is written. With it on, exactly the saved days' targets are created, each new and a full day long. |
| UpdateM1Bars.WalkDays | src/WEB-INF/bin/fxi/updateM1Bars.php:108-135 | The saved days are a prefix of the trading days in order, and all of them when the run succeeds. |
| UpdateM1Bars.WalkMessages | src/WEB-INF/bin/fxi/updateM1Bars.php:108-137 | `[Ok]` is printed exactly when the run succeeds, and then last. On success, a verbose run prints a month line on every change of month and a quiet run prints none. |
| UpdateM1Bars.CreateIndexPublishesEveryTradingDay | src/WEB-INF/bin/fxi/updateM1Bars.php:90-138 | A successful run has published every trading day from the start day up to yesterday, each as a new 1440-record file. It created no other file and changed none. |
| UpdateM1Bars.ReadBarsFromSources | src/WEB-INF/bin/fxi/updateM1Bars.php:118-125 | After a successful read, each instrument's bars are the reading of its own input file, the compressed one when it exists and the raw one otherwise. |
| UpdateM1Bars.StoreDayEnds | src/WEB-INF/bin/fxi/updateM1Bars.php:130-133 | Computed index bars end the run with false only if they are empty, with no message, or if the day's index file already exists with raw output on, with the "already exists" error. |
| UpdateM1Bars.ProcessDayEnds | src/WEB-INF/bin/fxi/updateM1Bars.php:117-133 | A trading day the run goes past had an input file for every instrument. A day on which the run returns false ends with exactly one of three causes. An instrument of the index had neither input file, and the last message names it. The day's index file already existed, and the last message says so. Or every input was there but AUDUSD's file held no bars, and no error was printed. |
| UpdateM1Bars.CreateIndexFalseEnds | src/WEB-INF/bin/fxi/updateM1Bars.php:108-135 | A run that returns false saved the trading days from the start day in order, up to some trading day before today. It stopped on that day for one of the three causes above, and only month lines come before its error message. |
| UpdateM1Bars.CreateIndexNeedsEveryInput | src/WEB-INF/bin/fxi/updateM1Bars.php:115-125 | A run that returns true found an input file for every instrument on every trading day from the start day up to yesterday. One missing file on one trading day rules out success. |
| XtradePaths.ParseVar | bin/metatrader/createHistory.php:143-165 | The identifier chain maps each string to the variable of that name. A string is unknown exactly when no known variable carries it. |
| XtradePaths.FileNames | bin/metatrader/createHistory.php:143-165 | Files are `<data>/history/xtrade/<group>/<symbol>/<Y/m/d>/M1.myfx` or `M1.rar`. A falsy symbol fails before a zero time, and an unknown identifier fails always. |
| XtradePaths.HitSkipsChecks | bin/metatrader/createHistory.php:133-135 | A cached key is answered with its stored value before any argument check, and the cache is left unchanged. |
| XtradePaths.GetVarIsResolve | bin/metatrader/createHistory.php:131-171 | From a well-formed cache, `getVar` returns exactly the uncached name or error. It keeps the cache well-formed and leaves it unchanged on an error. |
| XtradePaths.StoreSound | bin/metatrader/createHistory.php:167-168 | Storing a correct value keeps a well-formed cache well-formed and makes it findable. |
| XtradePaths.ZeroTimeNeverCached | bin/metatrader/createHistory.php:143-168 | From a well-formed cache, a lookup with time 0 fails for every identifier and leaves the cache unchanged, so no key with a falsy time is ever stored. |
| XtradePaths.CompressedIsNotRaw | bin/metatrader/createHistory.php:155-162 | The compressed and the raw file of a day are different files. |
| CreateHistory.LocateIsSourceOf | bin/metatrader/createHistory.php:98-103 | Locating through the cache gives the compressed file if present, else the raw one if present, else none. The cache stays well-formed. |
| CreateHistory.CreateHistory | bin/metatrader/createHistory.php:71-84 | An empty symbol is an invalid argument, with no history set created. Otherwise the set is created first, with the symbol's digits, format 400 and the directory below the data directory. |
| CreateHistory.WalkIsFaithful | bin/metatrader/createHistory.php:88-114 | The appended days are trading days in order, each with the bars of its own input file. The set is closed exactly when the run succeeds, then once and as the last call, with all trading days appended and a month line on every month change. A `false` run ends at a trading day whose two files are both missing. |
| CreateHistory.CreateHistoryIsFaithful | bin/metatrader/createHistory.php:71-114 | For a named symbol, the run is the set's creation followed by the walk above, from the symbol's first M1 day to today, with no month seen yet. |
| OpenPosition.Normalize | app/model/OpenPosition.php:139-140 | A null, 0 or 0.0 argument becomes null, and any other accepted value is kept. |
| OpenPosition.AssignOutcome | app/model/OpenPosition.php:135-148 | A value neither null nor a number is an illegal type, and a negative number an invalid argument. Otherwise the field takes the normalised value. The position becomes modified iff it already was, or it is stored and the value is not identical to the old one. |
| OpenPosition.SetStopLossOutcome | app/model/OpenPosition.php:135-148 | `setStopLoss` behaves as stated above on the stop loss and changes no other field. |
| OpenPosition.SetTakeProfitOutcome | app/model/OpenPosition.php:158-171 | `setTakeProfit` behaves as stated above on the take profit and changes no other field. |
| OpenPosition.SetStopLossUnchanged | app/model/OpenPosition.php:142 | Setting the value the field already holds changes nothing, not even the modified flag. |
| OpenPosition.SetStopLossIdempotent | app/model/OpenPosition.php:135-148 | Setting the same stop loss twice equals setting it once. |
| OpenPosition.SetTakeProfitIdempotent | app/model/OpenPosition.php:158-171 | Setting the same take profit twice equals setting it once. |
| OpenPosition.SettersCommute | app/model/OpenPosition.php:135-171 | Setting stop loss and take profit in either order gives the same position. |
| OpenPosition.Create | app/model/OpenPosition.php:51-71 | Creating for an unstored signal is an invalid argument. Otherwise the position is unstored and unmodified, belongs to the signal, and an absent or null optional field reads as null. |
| OpenPosition.CreatedIsTransient | app/model/OpenPosition.php:51-71 | A freshly created position cannot be deleted, and changing its stop loss never marks it modified. |
| OpenPosition.Delete | app/model/OpenPosition.php:307-326 | Deleting an unstored position is an invalid argument. Otherwise the position loses its id and nothing else changes. |
| OpenPosition.DeleteOnce | app/model/OpenPosition.php:307-326 | After a delete, a second delete fails. |

## Left out

- The floating-point part of each calculator, `round(pow(...) * 100000)` and its siblings, is a parameter `PriceFormula`. This includes the doubled scaling in `calculateCADLFX` and the LiteForex formula that the comment of `calculateNZDLFX` calls wrong. Real arithmetic, rounding, NaN and INF are not modelled.
- The FX6 calculators other than `calculateUSDFX6` do not exist in the script. Their call is modelled as the fault `UndefinedCalculator`.
- `MyFX::readBarFile` and `XTrade::readBarFile` are parameters. The decoding of `.rar` files is not modelled.
- `mkDirWritable`, directories in general, and the return values of `fopen`, `fwrite`, `fclose` and `rename` are left out. These calls are taken to succeed.
- `tempnam`'s random suffix is replaced by a deterministic search for a free name.
- The compression step (4) of `saveBars` is an empty stub in the script and is not modelled.
- `MyFX::isWeekend`, `isFxtWeekend`, `fxtTime`, `time()`, `Dukascopy::$historyStart_M1`, the `XTrade::$symbols` table (history start, digits, group) and the configured data directories are parameters. The lazily loaded static `$dataDirectory` is a fixed parameter.
- The internals of `HistorySet` (`create`, `appendBars`, `close`) are recorded as events, not modelled.
- `pcntl_signal_dispatch` and interrupt handling are not modelled.
- The command-line parts of both scripts (argument parsing, `help`, `array_unique`, exit codes), `showBuffer`, the `$verbose > 1` lines of the calculators and the text of printed messages are left out. Only which message is printed, for which symbol and day, is kept.
- The `is_string` and `is_int` checks of `createIndex`, `createHistory`, `getVar` and `saveBars` are enforced by Dafny's types, so their `IllegalTypeException`s cannot arise. A null symbol is `""`, which behaves the same in the checks and gives the same cache key. A null time is `0`, which behaves the same in the checks. PHP builds different cache keys for the two (`"$id|$symbol|"` and `"$id|$symbol|0"`), but every identifier reaches the date branch with the same time, which throws on a falsy time before anything is stored. So neither key is ever cached (`MyfxPaths.ZeroTimeNeverCached`, `XtradePaths.ZeroTimeNeverCached`).
- The cache key is the triple (identifier, symbol, time), not the string `"$id|$symbol|$time"`. No identifier contains `|` and the time is an integer, so the two identify the same entries among the keys ever stored. Those keys all have a nonzero time, and for them the triple and the string determine each other.
- The by-reference `foreach` of `createIndex` (line 99) leaves `$data` aliased, so the second `foreach` (line 117) overwrites the last instrument's `digits`. The digits are never read afterwards, so nothing observable changes, and the model does not carry them.
- `OpenPosition`'s SQL in `insert`, `update` and `delete`, the transactions, `getSignal`, the getters, `getTypeDescription`, `getOpenTime` and the formatting helpers are left out. `PersistableObject::isPersistent` is modelled as "has an id". `MyFX::fxtDate` is a parameter.
- OpenPosition.SetStopLossUnchanged: float amounts are modelled as exact reals, with no NaN or INF, so setting a value equal to the stored one changes nothing. In PHP `NAN !== NAN` holds, so setting NAN again on a stored position with NAN marks it modified. The same goes for `setTakeProfit`.
- CreateHistory.WalkIsFaithful: the month lines are stated only for successful runs. A run that stops early has printed the lines of the days up to its stop, which the contract does not spell out.
- UpdateM1Bars.WalkMessages: the month lines are stated only for successful runs, for the same reason.
