# Resident on-call billing, modelled in Dafny

This project models the billing core of a tool that pays medical residents for on-call duty
("guardias"). The tool works in three steps:

1. Each duty interval `[inicio, fin)` is cut into hour blocks (`fraccionar_por_hora`).
2. Each block is classified by the calendar date of its start (`tipo_en_fecha`). The day type is
   `especial`, `festivo` or `normal`, decided by a fixed rule list:
   - recurring "MM-DD" special dates;
   - national and regional holidays;
   - local holidays of the municipality;
   - otherwise a normal day.
3. Each block is billed as one full hour at the grade's tariff for that day type
   (`CargadorTarifas.obtener`). The block ledger (`detalle`) is then rolled up per grade
   (`resumen`).

Files:

- `wrappers.dfy`: the `Option` and `Result` types. A raised `ValueError` is a `Failure`.
- `text.dfy` (module `Text`): Python's `str.strip()` and `str.upper()` as the calendar applies
  them to municipality names, with their properties.
- `clock.dfy` (module `Clock`): naive wall-clock time.
  - A timestamp is an integer count of microseconds since 1970-01-01 00:00.
  - It provides truncation to the hour, the date of an instant, and a proleptic Gregorian date
    conversion that gives the `strftime("%m-%d")` text.
- `calendar.dfy` (module `Calendar`): `CalendarioFestivos`.
  - The calendar is a value (`Calendar`), built once and never updated.
  - The holiday layers are passed in as data.
  - `SplitByHour` is the imperative block splitter, proved against the function `HourBlocks`.
- `tariffs.dfy` (module `Tariffs`): `CargadorTarifas` as a value.
  - Construction checks the sheet's columns.
  - A lookup takes the first row of the grade.
- `billing.dfy` (module `Billing`): `calcular_importes`.
  - `CalculateAmounts` keeps the source's nested loops over shifts and blocks, and is proved to
    return `Calculate`, the specification function.
  - The rollup `Rollup` is a pure group-and-sum over the finished ledger. It is proved against
    independent per-grade counts and sums.

Conventions of the model:

- Money is an integer in units of 1/10000 euro. Rounding to four decimals (`round(x, 4)`) is
  therefore the identity, and every block amount equals its hourly rate times one billed hour.
- A holiday row's date is `None` when the file's date did not parse (`NaT`). Such a row never
  matches.
- The price dictionary is a `map<string, Money>` with the keys `normal`, `festivo` and
  `especial`, as in the source. Day types carry those labels (`DayType.Label`).

Behaviour of the code worth knowing:

- The splitter returns no blocks, and raises no error, when `fin <= inicio`.
- Only an *empty* municipality falls back to the default (`municipio or municipio_default`). A
  whitespace-only name strips to the empty name (`BlankMunicipalityIsNotDefault`).
- The local file's municipality names are upper-cased but not stripped.
- The tariff is looked up before a shift is cut. A shift with an unknown grade therefore aborts
  the call even when it yields no blocks.

## Model

| member | source | states |
|---|---|---|
| `Text.StripLeft` | app/calendario.py:77 | the result is the suffix of the name after its longest all-whitespace prefix, and does not start with whitespace |
| `Text.StripRight` | app/calendario.py:77 | the result is the prefix of the name before its longest all-whitespace suffix, and does not end with whitespace |
| `Text.Strip` | app/calendario.py:77 | no contract of its own; see `Text.StripLeft`, `Text.StripRight`, `Text.StripIgnoresPadding` |
| `Text.Upper` | app/calendario.py:77-79 | no contract of its own; see `Text.StripUpperCommute`, `Calendar.MunicipalityCaseInsensitive` |
| `Text.StripUpperCommute` | app/calendario.py:77 | `strip().upper()` equals `upper().strip()` |
| `Text.StripIgnoresPadding` | app/calendario.py:77 | whitespace added on either side of a name does not change its stripped form |
| `Clock.HourFloor` | app/calendario.py:95 | `replace(minute=0, second=0, microsecond=0)` gives the o'clock instant at or before t, less than an hour before it |
| `Clock.NextHour` | app/calendario.py:95 | the cut is an o'clock instant strictly after t and at most one hour after it |
| `Clock.DayOf` | app/calendario.py:72 | the date of t is the day whose 24 hours contain t |
| `Clock.CivilDate` | app/calendario.py:65 | every day number maps to a valid month (1-12) and a day within that month's length |
| `Clock.MonthDayText` | app/calendario.py:65 | the text is two digits spelling the month, a dash, and two digits spelling the day |
| `Clock.MonthDayKey` | app/calendario.py:65 | the text is five characters: two digits spelling the month of the date, a dash, two digits spelling its day |
| `Clock.SameKeyIffSameMonthDay` | app/calendario.py:65-66 | two dates share their "MM-DD" key exactly when month and day agree, whatever the year |
| `Clock.LeapDayOf2000` | app/calendario.py:65 | the date conversion gives 2000-01-01, 2000-02-29 and 2000-03-01 ("03-01") on the right day numbers |
| `Calendar.NewCalendar` | app/calendario.py:49-60 | the special keys are exactly the texts listed under `festivos_especiales` (none when the key is absent); the layers and default municipality are kept |
| `Calendar.NormalizeMunicipality` | app/calendario.py:77 | no contract of its own; see `Calendar.EmptyMunicipalityIsDefault`, `Calendar.BlankMunicipalityIsNotDefault`, `Calendar.MunicipalityCaseInsensitive`, `Calendar.MunicipalityTrimmed` |
| `Calendar.DayTypeAt` | app/calendario.py:62-84 | no contract of its own; see `Calendar.DayTypeIsHighestApplicable`, `Calendar.SpecialIff`, `Calendar.RegionalHolidayEverywhere`, `Calendar.LocalLayer` |
| `Calendar.DayTypeIsHighestApplicable` | app/calendario.py:62-84 | the result is one of the day types some layer assigns (normal always applies), and no applicable type ranks higher (special > holiday > normal) |
| `Calendar.SpecialIff` | app/calendario.py:64-67 | the result is `especial` exactly when the date's "MM-DD" is in the special set, even on a national or local holiday |
| `Calendar.RegionalHolidayEverywhere` | app/calendario.py:69-74 | a non-special date in the national/regional layer is `festivo` in every municipality |
| `Calendar.LocalLayer` | app/calendario.py:76-84 | below the first two layers, the result is `festivo` exactly when a local row has the date and an upper-cased municipality equal to the normalised one; otherwise it is `normal` |
| `Calendar.NoDataMeansNormal` | app/calendario.py:62-84 | with empty layers every date is normal |
| `Calendar.SameDateSameType` | app/calendario.py:62-84 | two instants on the same date get the same day type |
| `Calendar.EmptyMunicipalityIsDefault` | app/calendario.py:77 | an empty municipality is classified as the default municipality |
| `Calendar.BlankMunicipalityIsNotDefault` | app/calendario.py:77 | every non-empty municipality made only of whitespace normalises to the empty name, not to the default |
| `Calendar.MunicipalityCaseInsensitive` | app/calendario.py:77-79 | non-empty names with the same upper-case form get the same day type |
| `Calendar.MunicipalityTrimmed` | app/calendario.py:77-79 | whitespace around a non-empty name does not change the day type |
| `Calendar.HourBlocks` | app/calendario.py:91-99 | no contract of its own; see `Calendar.HourBlocksTile`, `Calendar.HourBlocksWithin`, `Calendar.HourBlocksAligned`, `Calendar.SplitByHour` |
| `Calendar.HourBlocksTile` | app/calendario.py:86-99 | the blocks tile `[inicio, fin)`: the first starts at `inicio`, the last ends at `fin`, each ends where the next starts; no blocks when `fin <= inicio` |
| `Calendar.HourBlocksWithin` | app/calendario.py:93-97 | every block is non-empty, lies inside the interval and ends no later than the next o'clock boundary after its start |
| `Calendar.HourBlocksAligned` | app/calendario.py:95-96 | every block but the last ends on the hour |
| `Calendar.HourBlocksOrdered` | app/calendario.py:91-98 | blocks come in time order |
| `Calendar.HourBlocksCount` | app/calendario.py:93-98 | with both ends on the hour, the block count times one hour is the interval's length |
| `Calendar.SplitByHour` | app/calendario.py:86-99 | the loop returns exactly `HourBlocks(inicio, fin)`, which tiles the interval with hour-shaped blocks |
| `Calendar.AcrossMidnight` | app/calendario.py:91-99 | 23:30 to 01:30 gives the blocks 23:30-00:00, 00:00-01:00 and 01:00-01:30 |
| `Calendar.ThreeHoursFromOClock` | app/calendario.py:91-99 | an o'clock start to three hours later gives three whole-hour blocks |
| `Tariffs.Load` | app/tarifas.py:6-11 | construction succeeds exactly when all four expected columns are present; otherwise it fails naming exactly the missing ones |
| `Tariffs.RowsOfGrade` | app/tarifas.py:14 | the filter keeps only rows of the grade, is empty exactly when no row has it, and starts with the first such row |
| `Tariffs.PricesOf` | app/tarifas.py:17-22 | no contract of its own; see `Tariffs.Lookup` |
| `Tariffs.Lookup` | app/tarifas.py:13-22 | succeeds exactly when some row has the grade, returning the three prices of the first such row under exactly the keys normal/festivo/especial; otherwise fails with that grade |
| `Tariffs.GradeComparedExactly` | app/tarifas.py:14-16 | the grade is compared without case folding or trimming |
| `Tariffs.LookupNonNegative` | app/tarifas.py:18-22 | non-negative table prices give non-negative looked-up prices |
| `Billing.RateFor` | app/calculo.py:23 | no contract of its own; see `Billing.LabelIsPriceKey`, `Billing.LedgerRowsPriced` |
| `Billing.PriceBlock` | app/calculo.py:21-33 | no contract of its own; see `Billing.LedgerRowsPriced` |
| `Billing.LedgerOf` | app/calculo.py:9-34 | no contract of its own; see `Billing.LedgerFollowsSlots`, `Billing.SucceedsIffAllGradesPriced`, `Billing.FailureNamesFirstUnpricedShift` |
| `Billing.Rollup` | app/calculo.py:36-44 | no contract of its own; see `Billing.RollupConsistent` |
| `Billing.Calculate` | app/calculo.py:8-45 | no contract of its own; see `Billing.CalculateAmounts`, `Billing.NoBlocksNoRows`, `Billing.ThreeNormalHours` |
| `Billing.CalculateAmounts` | app/calculo.py:8-45 | the nested loops return exactly `Calculate`: the ledger of `LedgerOf` and its rollup, or the error that aborts the call |
| `Billing.FailureIsFinal` | app/calculo.py:10-16 | once a shift's lookup fails, the whole call fails with that error |
| `Billing.LabelIsPriceKey` | app/calculo.py:21-23 | every day-type label is a price key, so the fallback to the normal price never fires |
| `Billing.LedgerRowsPriced` | app/calculo.py:20-34 | every ledger row has 1 billed hour, the day type of its block's start in its municipality, the grade's price for that type, and that price as its amount |
| `Billing.SlotsInOrder` | app/calculo.py:10-20 | blocks are listed shift by shift and, within a shift, in time order, each inside its shift's interval |
| `Billing.LedgerFollowsSlots` | app/calculo.py:10-34 | the ledger has one row per block, in that order, carrying the block and its shift's municipality and grade |
| `Billing.SucceedsIffAllGradesPriced` | app/calculo.py:10-16 | the call succeeds exactly when every shift's grade has a tariff |
| `Billing.FailureNamesFirstUnpricedShift` | app/calculo.py:10-16 | a failure names the grade of the first shift without a tariff |
| `Billing.NoBlocksNoRows` | app/calculo.py:36-38 | no shifts, or only shifts with `fin <= inicio` and priced grades, give an empty ledger and an empty rollup |
| `Billing.RollupConsistent` | app/calculo.py:39-44 | one rollup row per distinct ledger grade; its hours are that grade's block count and its amount the sum of that grade's amounts; hours add up to the ledger's length and amounts to the ledger's total |
| `Billing.AmountsNonNegative` | app/calculo.py:20-44 | non-negative tariffs give non-negative block amounts and rollup totals |
| `Billing.ThreeNormalHours` | app/calculo.py:8-45 | grade R2 at 20/30/50 euro, three o'clock hours on a day with no holiday data: three normal rows of 20.0000 and a rollup of 3 hours and 60.0000 |

## Left out

- File loading is not modelled. This covers `_cargar_csv_festivos`, `pd.read_excel` and the CSV
  readers. The holiday layers and tariff rows are parameters; a missing or unreadable file is an
  empty layer.
- `app/gui.py`, `main.py`, `app/io_csv.py` and `app.reglas` are not part of this model. The rules
  file is a map from keys to lists of texts.
- `_parse_dt` is not modelled: shifts carry timestamps, so malformed date texts cannot occur.
- The unused `reglas`, `anio` and `mes` parameters of `calcular_importes` are dropped.
- Floating point is not modelled. Prices are integers in 1/10000 euro, so a price with more than
  four decimals, `float()` on a non-numeric cell, or a NaN grade cannot occur.
- The ledger keeps block times as timestamps, not as `isoformat` texts.
- Text.UpperChar: covers ASCII, Latin-1, `ÿ` and `µ` only. Other Unicode case mappings are left
  out, including `ß` to `SS`, which changes the length.
- Billing.RollupConsistent: the rollup lists grades in order of first appearance. pandas `groupby`
  sorts the grades; that order is not modelled.
- Clock.CivilDate: its contract only bounds month and day. The full Gregorian correctness of the
  conversion is checked at the 2000 anchors only. Python's year range of 1 to 9999 is not
  enforced.
