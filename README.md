# Metering loop of testing.py, modelled and verified in Dafny

`testing.py` is a MicroPython script. Once a second it samples a power draw
and prices that second (`calculate_price`). It appends a line to `/data.txt`.
It then rolls the prices up through three nested windows and writes one file
per closed window:

- every 15 ticks it writes a minute file `/HH-MM_minute.txt`;
- every 15 minutes it writes an hour file `/HH_hour.txt` and deletes every
  `*_minute.txt` file;
- every 6 hours it adds the values of all `*_hour.txt` files on top of the
  carried `previous_days_sum`, writes the result to `/day_N.txt`, and carries
  that result forward.

The model has two layers.

- `MeterSpec` is the loop body as a pure transition: `Step` over a
  `MeterState` datatype holding the module-level variables, the flash file
  system (`store`, a map from path to the price written in the file) and the
  `/data.txt` log. `Run` is a sequence of ticks.
- `Meter.Meter` is a class with the same fields. `Tick` performs one pass of
  the loop body in phases, like the source. Its two `uos.listdir` loops are
  `while` loops over a snapshot of the store's names. They pick each next
  name with `:|`, so no listing order is assumed. `Tick` is proved to
  perform exactly `Step` and to keep the counter invariant.

Supporting modules:

- `Text`: two-digit padding, decimal rendering, `endswith` and `str.split`.
- `Artifacts`: file names and the hour-file line.
- `Pricing`: the cost model.
- `Sums`: an order-free sum over a set of names.
- `DayTotals`: what a day file holds.

The window lengths are the ones the code uses: 15 seconds, 15 minutes and
6 hours (testing.py:51, 64, 87). The comments just above those lines
(testing.py:50, 65, 86) say 60, 60 and 24. The model follows the code.

The day total is cumulative. `previous_days_sum` is set to the day total
(testing.py:104) and never reset, so `/day_N.txt` holds everything paid since
boot rather than day N alone. `DayTotals.BootDayTotal` proves exactly this.
The theorem covers a fresh flash and a restart over the six hour files
`/00_hour.txt`..`/05_hour.txt` an earlier run left behind. Each of those six
is rewritten at its own hour close (testing.py:66-68) before the first day
close reads them (testing.py:87-95). A day close sums every name ending in
`_hour.txt`, though (testing.py:90-95). An hour file under any other name
already on the flash, such as `/07_hour.txt`, would therefore go into every
day total; the theorem assumes there is none.

## Model

| member | source | states |
|---|---|---|
| Pricing.Price | testing.py:24-28 | the price of one second at `power` watts is power·35/3 600 000; it is non-negative for non-negative power |
| Pricing.PriceMonotone | testing.py:24-28 | more watts never cost less |
| Pricing.PriceInDrawnRange | testing.py:33 | for the drawn range 1500..3000 W a second costs between 7/480 and 7/240, and the two ends are exactly those values |
| Pricing.FullHourAtTwoKilowatts | testing.py:24-28 | 2000 W for 3600 seconds at 35 per kWh costs 70 |
| Text.DigitChar | testing.py:52 | a digit renders as a character in '0'..'9', and as '0' exactly for 0 |
| Text.DigitCharInjective | testing.py:52 | distinct digits render as distinct characters |
| Text.NatToString | testing.py:100 | decimal rendering gives at least one digit, at least two from 10 on, only digits, and no leading zero for a positive number |
| Text.NatToStringInjective | testing.py:100 | distinct numbers render as distinct decimal strings |
| Text.Pad2 | testing.py:52 | `:02d` gives at least two digits, and for n < 100 exactly the tens digit then the units digit |
| Text.Pad2Injective | testing.py:66 | distinct numbers pad to distinct strings |
| Text.EndsWith | testing.py:76 | Python's `str.endswith`: the last characters of the string are the suffix; `Artifacts.MinuteNameKind`, `Artifacts.HourNameKind` and `Artifacts.KindsExclusive` state what it decides for the names the loop writes |
| Text.EndsWithAppend | testing.py:76 | a string built as prefix + suffix ends with that suffix |
| Text.Split | testing.py:94 | `split(sep)` yields one more part than there are separators, no part contains the separator, and joining the parts with it gives back the string |
| Text.SplitNoSeparator | testing.py:94 | a string without the separator splits into itself alone |
| Text.SplitOneSeparator | testing.py:94 | a + sep + b, with neither part holding sep, splits into exactly [a, b] |
| Artifacts.MinuteName | testing.py:52 | the minute file name "/" + HH + "-" + MM + "_minute.txt"; `Artifacts.MinuteNameKind` and `Artifacts.MinuteNameInjective` state its kind and that it is distinct per (hour, minute) |
| Artifacts.HourName | testing.py:66 | the hour file name "/" + HH + "_hour.txt"; `Artifacts.HourNameKind` and `Artifacts.HourNameInjective` state its kind and that it is distinct per hour |
| Artifacts.DayName | testing.py:100 | the day file name "/day_" + N + ".txt"; `Artifacts.DayNameKind` and `Artifacts.DayNameInjective` state its kind and that it is distinct per day |
| Artifacts.IsMinuteArtifact | testing.py:76 | the cleanup's test: the name ends in "_minute.txt"; `MeterSpec.RemoveMinuteArtifactsSpec` states that the cleanup removes exactly these |
| Artifacts.IsHourArtifact | testing.py:91 | the reconciliation's test: the name ends in "_hour.txt"; `Meter.Meter.ReconcileDay` states that the day total sums exactly these |
| Artifacts.HourLine | testing.py:68 | the line written to an hour file, "Hour HH - Price: " + the total + "\n"; `Artifacts.HourLineSplit` states that the reconciliation's split recovers the total's text from it |
| Artifacts.KindsExclusive | testing.py:76-91 | no name ends both in "_minute.txt" and in "_hour.txt" |
| Artifacts.MinuteNameKind | testing.py:52-76 | every minute file name ends in "_minute.txt" and not in "_hour.txt", so the cleanup finds it and the reconciliation skips it |
| Artifacts.HourNameKind | testing.py:66-91 | every hour file name ends in "_hour.txt" and not in "_minute.txt", so the reconciliation finds it and the cleanup keeps it |
| Artifacts.DayNameKind | testing.py:100 | no day file name ends in "_minute.txt" or "_hour.txt" |
| Artifacts.MinuteNameInjective | testing.py:52 | distinct (hour, minute) pairs below 100 give distinct minute file names |
| Artifacts.HourNameInjective | testing.py:66 | distinct hours give distinct hour file names, so each day overwrites the previous day's hour files |
| Artifacts.DayNameInjective | testing.py:100 | distinct day numbers give distinct day file names |
| Artifacts.HourLineSplit | testing.py:68-94 | an hour-file line has exactly one ':', so `split(":")[1]` is exactly " " + the written total + "\n" |
| Sums.SumOf | testing.py:89-95 | the order-free sum of the stored values over a set of names; `Sums.SumOfRemove` states that any name may be taken first, and `Sums.ListingOrderIrrelevant` that every listing order gives it |
| Sums.SumOfRemove | testing.py:89-95 | the order-free sum can take any name first: sum = value of that name + sum of the rest |
| Sums.SumOfInsert | testing.py:89-95 | adding a new name with value v adds v to the sum |
| Sums.SumOfAgree | testing.py:89-95 | stores that agree on the names have the same sum over them |
| Sums.SumOfNonNegative | testing.py:89-95 | a sum of non-negative values is non-negative |
| Sums.ListingOrderIrrelevant | testing.py:90-95 | a running total over any repetition-free listing equals the order-free sum over the listed names |
| Sums.TotalAppend | testing.py:57-71 | the total of two concatenated runs of hour totals is the sum of their totals, as `MeterSpec.RunConserves` needs when a run is split into its first tick and the rest |
| MeterSpec.Boot | testing.py:14-21 | the start state: counters 0 except the day counter at 1, sums 0, the flash as given, an empty log; `MeterSpec.BootCounters` states that it satisfies the counter invariant |
| MeterSpec.AddSecond | testing.py:36-48 | pricing, logging and counting the sample and adding its price to the minute sum; `MeterSpec.StepMinuteClose` and `MeterSpec.StepConserves` state its effect within a tick |
| MeterSpec.CloseMinute | testing.py:51-61 | the minute close, taken only when the seconds counter is a multiple of 15; `MeterSpec.StepMinuteClose` states when it happens and what it writes |
| MeterSpec.RemoveMinuteArtifacts | testing.py:74-81 | the store the cleanup loop leaves; `MeterSpec.RemoveMinuteArtifactsSpec` states that it keeps exactly the names not ending in "_minute.txt", with their values, and `Meter.Meter.RemoveMinuteFiles` that the loop computes it |
| MeterSpec.HourArtifactsAmong | testing.py:90-91 | the names among a listing that the reconciliation reads, which are all in the store; `Meter.Meter.ReconcileDay` uses it as its loop measure of what is left to read |
| MeterSpec.HourArtifacts | testing.py:90-91 | every name in the store ending in "_hour.txt"; `DayTotals.HourArtifactsWrite` and `DayTotals.HourArtifactsCleanup` state how writes and the cleanup change it |
| MeterSpec.ReconciledTotal | testing.py:89-95 | `total_day_price` after the reconciliation: the previous days' total plus the order-free sum over every hour file; `Meter.Meter.ReconcileDay` states that the loop computes it in any listing order, and `DayTotals.WriteDayDayInv` that it is everything paid |
| MeterSpec.EndHour | testing.py:64-84 | the hour phase: write the hour file, reset the hour, remove the minute files, count the hour; `MeterSpec.HourCloseEnd` states the resulting state |
| MeterSpec.WriteDay | testing.py:100-108 | the day phase after the reconciliation: write the day file, carry the total forward, start the next day; `MeterSpec.StepDayClose` states the result |
| MeterSpec.CloseDay | testing.py:87-108 | the day close, taken only when the hour counter reaches 6; `MeterSpec.HourCloseStep` states when it runs |
| MeterSpec.CloseHour | testing.py:64-108 | the hour close, taken only when the minute counter reaches 15, with the day close nested in it; `MeterSpec.StepHourClose` and `MeterSpec.StepHourCleanup` state its effect |
| MeterSpec.Step | testing.py:31-110 | one pass of the loop body; `MeterSpec.StepCounters`, `MeterSpec.StepConserves` and `DayTotals.DayStep` state the invariants it keeps, and `Meter.Meter.Tick` that the class performs it |
| MeterSpec.Run | testing.py:31-110 | passes of the loop body, one per sample; `MeterSpec.RunConserves`, `MeterSpec.RunKeepsCounters` and `DayTotals.RunDayInv` state what any run keeps |
| MeterSpec.BootCounters | testing.py:14-21 | the start state satisfies the counter invariant |
| MeterSpec.ClosedMinutesStep | testing.py:45-51 | one more second adds a closed minute exactly when the new count is a multiple of 15 |
| MeterSpec.StepCounters | testing.py:44-108 | a tick keeps 0 ≤ minute < 15, 0 ≤ hour < 6, day ≥ 1 and the mixed-radix count of closed minutes; it counts the second, appends exactly one log line stamped with the pre-tick counters, and moves each counter exactly as the three close conditions say |
| MeterSpec.StepMinuteClose | testing.py:45-61 | when the incremented seconds counter is a multiple of 15 the minute sum is 0 afterwards, and below an hour close the hour sum grows by exactly the closed minute (this tick's price included), which is written under the minute's name; on other ticks only the minute sum grows, by the price |
| MeterSpec.HourCloseTotal | testing.py:57-68 | the hour total written is the hour sum plus the open minute sum plus this tick's price |
| MeterSpec.HourCloseEnd | testing.py:64-84 | after the hour phase the store is the old one plus the last minute and the hour file, less every minute file; the minute and hour sums are 0, the carried total is untouched, the hour counter is one higher |
| MeterSpec.HourCloseStep | testing.py:64-108 | a tick that closes an hour runs the day close exactly when the hour counter reaches 6 |
| MeterSpec.StepHourClose | testing.py:64-72 | at an hour close the hour total is stored under the hour's name and the minute and hour sums restart at 0 |
| MeterSpec.HourCloseStore | testing.py:66-101 | the store after an hour close is given by the names and totals the close writes |
| MeterSpec.StepHourCleanup | testing.py:74-81 | after an hour close no minute file remains, the hour file holds the hour total, every other file is unchanged (the day file aside when a day closes), and no name is new but the hour file and, on a day close, the day file |
| MeterSpec.HourCleanupOf | testing.py:74-81 | the cleanup property for any state whose store holds an hour close's writes |
| MeterSpec.HourCloseFrame | testing.py:74-81 | for any names of the right kinds, the writes of an hour close leave the store cleaned up |
| MeterSpec.RemoveMinuteArtifactsSpec | testing.py:74-81 | the cleanup keeps exactly the names not ending in "_minute.txt", with their values |
| MeterSpec.HourCloseNames | testing.py:52-100 | an hour close writes a minute file, an hour file and a day file of those kinds, and the hour and day names differ |
| MeterSpec.StepDayClose | testing.py:87-108 | at a day close the day total is the previous total plus the value of every hour file in the store; it is written to `/day_N.txt` and carried forward; the hour counter is 0 and the day counter one higher |
| MeterSpec.StepNonNegative | testing.py:48-104 | with non-negative power a tick keeps the sums and hour files non-negative, and the carried day total never decreases |
| MeterSpec.RunNonNegative | testing.py:31-110 | over any run of non-negative samples the same holds, so successive day totals never decrease |
| MeterSpec.StepConserves | testing.py:48-71 | a tick neither loses a price nor folds one twice: price + open sums before = open sums after + hour total written |
| MeterSpec.RunConserves | testing.py:31-110 | over any run, open sums before + all prices sampled = open sums after + every hour total written |
| MeterSpec.BootConservation | testing.py:14-110 | from boot, all prices sampled = minute sum + hour sum + every hour total written so far |
| MeterSpec.RunKeepsCounters | testing.py:31-110 | any run keeps the counter invariant and advances the seconds counter by its length |
| MeterSpec.CountersDecompose | testing.py:61-108 | the mixed-radix reading of a closed-minute count (radix 15, then 6) is unique |
| MeterSpec.BootCountersAfter | testing.py:19-108 | after n ticks from boot, with q = n / 15 closed minutes: minute = q mod 15, hour = (q / 15) mod 6, day = 1 + q / 90, and the log has n lines |
| Meter.Meter.constructor | testing.py:14-21 | the start state on a flash with the given files, satisfying the counter invariant |
| Meter.Meter.Tick | testing.py:31-110 | one pass of the loop body keeps the counter invariant and performs exactly `Step` |
| Meter.Meter.SampleSecond | testing.py:36-48 | the sample is priced, logged, counted and added to the minute sum |
| Meter.Meter.CloseMinuteWindow | testing.py:51-61 | the minute file is written and the minute folded into the hour |
| Meter.Meter.CloseHourWindow | testing.py:64-108 | the hour file is written, the hour state reset, the minute files removed, the hour counted, and the day closed when due |
| Meter.Meter.CloseDayWindow | testing.py:87-108 | the day total is reconciled, written to the day file and carried forward, and the next day starts |
| Meter.Meter.RemoveMinuteFiles | testing.py:74-81 | whatever the listing order, the loop leaves the store without exactly its minute files |
| Meter.Meter.ReconcileDay | testing.py:89-95 | whatever the listing order, the loop returns the previous days' total plus the order-free sum over every hour file |
| DayTotals.HourNameAmong | testing.py:66 | the hour name of h is among the first n hour names exactly when h < n |
| DayTotals.HourNamesAbsorb | testing.py:66-68 | rewriting one of the first n hour files adds no name |
| DayTotals.HourNamesAreHourArtifacts | testing.py:66-91 | every one of the first n hour names ends in "_hour.txt" |
| DayTotals.SumOfHourNames | testing.py:89-95 | the order-free sum over the first n hour files is their hour-by-hour sum |
| DayTotals.HourSumBelowAgree | testing.py:89-95 | stores that agree on the first n hour files have the same hour-by-hour sum |
| DayTotals.HourArtifactsWrite | testing.py:53-101 | writing a file adds its name to the hour files exactly when it ends in "_hour.txt" |
| DayTotals.HourArtifactsCleanup | testing.py:74-81 | removing the minute files keeps every hour file and its value |
| DayTotals.OtherWriteKeepsHours | testing.py:52-101 | writing a file that is not an hour file changes neither the hour files nor their sum |
| DayTotals.BootDayInv | testing.py:14-21 | a flash whose hour files are among the six hour names starts the day-total invariant with nothing paid |
| DayTotals.AddSecondDayInv | testing.py:36-48 | sampling a second adds its price to what is paid and keeps the invariant |
| DayTotals.CloseMinuteDayInv | testing.py:51-61 | a minute close keeps the day-total invariant |
| DayTotals.HourWriteArtifacts | testing.py:66-81 | writing hour h then cleaning up adds hour h's name to the hour files |
| DayTotals.HourWriteSum | testing.py:66-81 | writing hour h then cleaning up extends the hour-by-hour sum by the hour total |
| DayTotals.EndHourDayInv | testing.py:64-84 | an hour close keeps the day-total invariant |
| DayTotals.WriteDayDayInv | testing.py:87-108 | at a day close the reconciled total is everything paid, and writing it keeps the invariant |
| DayTotals.DayStep | testing.py:31-110 | a tick keeps the invariant with its price added, and a tick that closes a day writes everything paid into the day file |
| DayTotals.RunDayInv | testing.py:31-110 | any run keeps the invariant with the run's prices added |
| DayTotals.BootDayTotal | testing.py:87-104 | from a flash whose hour files, if any, are among the six hour names (a fresh flash, or a restart over an earlier run), the day file written at any day close holds the price of every sample since boot, that tick's included |

## Left out

- `random.randint(1500, 3000)` (testing.py:33) is not modelled. The sample is the parameter `power` of `Tick`, with the range as its precondition. The `MeterSpec` lemmas accept any integer.
- The LED (testing.py:2, 7, 40, 42), `print` and `utime.sleep(1)` are hardware and timing side effects, so they are left out.
- The file system is modelled as a map from path to the price held in the file. Opening, writing and removing a file become map updates.
- The `/data.txt` log (testing.py:39-41) is modelled as a sequence of records rather than formatted text.
- `uos.listdir` returns bare names and the code adds "/" before opening or removing them (testing.py:78, 93). The map's keys are the full paths. The suffix tests give the same answer on both forms.
- Float formatting (`:.6f`), parsing with `float()`, and floating-point rounding are not modelled. Prices are exact reals, and reading an hour file returns the value written. `Artifacts.HourLineSplit` shows only that the split isolates the written text.
- The `OSError` branches (testing.py:80-81, 96-97) are left out. Removing or reading a listed name always succeeds in the map.
- A malformed hour file would make `float()` raise; that is not modelled either.
- The endless `while True` loop is not modelled as a loop. It appears as `Tick`, as `Step`, and as lemmas over `Run` on any finite sequence of samples.
- The global `price` (testing.py:15) is a local of `Tick`. `CURRENT` (testing.py:10) is never used by the code, so neither is modelled.
- The files on the flash at boot are a parameter of the constructor, because the script never clears the flash.
- `DayTotals.BootDayTotal` assumes that every `*_hour.txt` file on the boot flash is one of `/00_hour.txt`..`/05_hour.txt`. An hour file under any other name, for example one left by a build with different window lengths, would be added into every day total.
- `calculate_price` (testing.py:24-28) does not reject a negative power, and `Pricing.Price` prices any integer.
- `previous_days_sum` is never reset (testing.py:104), so each day file is cumulative.
