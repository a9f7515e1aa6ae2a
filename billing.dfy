/** The billing engine (calcular_importes): every shift is cut into hour blocks, each block is
    classified by the date of its start and billed as one full hour at the tariff of its day type,
    and the block ledger is rolled up per grade. */
module Billing {
  import opened Wrappers
  import Clock
  import Calendar
  import Tariffs

  type Money = Tariffs.Money

  /** One input row: a duty interval, its municipality ("" when the column is empty) and grade. */
  datatype Shift = Shift(start: Clock.Timestamp, end: Clock.Timestamp, municipality: string, grade: string)

  /** One row of the block ledger (`detalle`). */
  datatype LedgerRow = LedgerRow(
    blockStart: Clock.Timestamp,
    blockEnd: Clock.Timestamp,
    municipality: string,
    grade: string,
    dayType: Calendar.DayType,
    hours: nat,
    rate: Money,
    amount: Money)

  /** One row of the per-grade rollup (`resumen`). */
  datatype SummaryRow = SummaryRow(grade: string, totalHours: nat, totalAmount: Money)

  datatype Report = Report(ledger: seq<LedgerRow>, summary: seq<SummaryRow>)

  /** Every block is billed as one full hour, whatever its real length. */
  const BilledHours: nat := 1

  /** `precios.get(tipo, precios["normal"])`. */
  function RateFor(prices: map<string, Money>, t: Calendar.DayType): Money
    requires "normal" in prices
  {
    if t.Label() in prices then prices[t.Label()] else prices["normal"]
  }

  /** The ledger row of one block of a shift, priced with the shift's price dictionary. */
  function PriceBlock(cal: Calendar.Calendar, s: Shift, prices: map<string, Money>, b: Calendar.Block): LedgerRow
    requires "normal" in prices
  {
    var t := Calendar.DayTypeAt(cal, b.start, s.municipality);
    var rate := RateFor(prices, t);
    LedgerRow(b.start, b.end, s.municipality, s.grade, t, BilledHours, rate, rate * BilledHours)
  }

  function PriceBlocks(cal: Calendar.Calendar, s: Shift, prices: map<string, Money>, blocks: seq<Calendar.Block>): seq<LedgerRow>
    requires "normal" in prices
  {
    seq(|blocks|, k requires 0 <= k < |blocks| => PriceBlock(cal, s, prices, blocks[k]))
  }

  /** The ledger of a list of shifts, or the error of the first shift whose grade has no tariff.
      The tariff is looked up before the shift is cut, so a shift without blocks fails too. */
  function LedgerOf(shifts: seq<Shift>, cal: Calendar.Calendar, table: Tariffs.TariffTable): Result<seq<LedgerRow>, Tariffs.TariffError>
  {
    if shifts == [] then Success([])
    else
      var last := shifts[|shifts| - 1];
      match LedgerOf(shifts[..|shifts| - 1], cal, table)
      case Failure(e) => Failure(e)
      case Success(rows) =>
        match Tariffs.Lookup(table, last.grade)
        case Failure(e) => Failure(e)
        case Success(prices) => Success(rows + PriceBlocks(cal, last, prices, Calendar.HourBlocks(last.start, last.end)))
  }

  // ---------------------------------------------------------------------------------------
  // resumen

  /** Adds one ledger row to a rollup: counts one hour and its amount under its grade, opening a
      new entry for a grade not seen before. */
  function AddToSummary(summary: seq<SummaryRow>, row: LedgerRow): seq<SummaryRow> {
    if summary == [] then [SummaryRow(row.grade, 1, row.amount)]
    else if summary[0].grade == row.grade then
      [SummaryRow(row.grade, summary[0].totalHours + 1, summary[0].totalAmount + row.amount)] + summary[1..]
    else [summary[0]] + AddToSummary(summary[1..], row)
  }

  /** The group-by-grade rollup of a ledger: one hour per row, and the sum of the amounts. */
  function Rollup(ledger: seq<LedgerRow>): seq<SummaryRow> {
    if ledger == [] then [] else AddToSummary(Rollup(ledger[..|ledger| - 1]), ledger[|ledger| - 1])
  }

  /** What `calcular_importes` returns: both tables, or the error that aborted the whole call. */
  function Calculate(shifts: seq<Shift>, cal: Calendar.Calendar, table: Tariffs.TariffTable): Result<Report, Tariffs.TariffError> {
    match LedgerOf(shifts, cal, table)
    case Failure(e) => Failure(e)
    case Success(ledger) => Success(Report(ledger, Rollup(ledger)))
  }

  /** `calcular_importes`: the nested loops over shifts and blocks that append to the ledger. */
  method CalculateAmounts(shifts: seq<Shift>, cal: Calendar.Calendar, table: Tariffs.TariffTable)
    returns (result: Result<Report, Tariffs.TariffError>)
    ensures result == Calculate(shifts, cal, table)
  {
    var ledger: seq<LedgerRow> := [];
    var i := 0;
    while i < |shifts|
      invariant 0 <= i <= |shifts|
      invariant LedgerOf(shifts[..i], cal, table) == Success(ledger)
    {
      var s := shifts[i];
      var found := Tariffs.Lookup(table, s.grade);
      if found.Failure? {
        LedgerStep(shifts, i, cal, table);
        FailureIsFinal(shifts, i + 1, cal, table);
        return Failure(found.error);
      }
      var prices := found.value;
      var blocks := Calendar.SplitByHour(s.start, s.end);
      ghost var before := ledger;
      var k := 0;
      while k < |blocks|
        invariant 0 <= k <= |blocks|
        invariant ledger == before + PriceBlocks(cal, s, prices, blocks[..k])
      {
        var b := blocks[k];
        var t := Calendar.DayTypeAt(cal, b.start, s.municipality);
        var rate := if t.Label() in prices then prices[t.Label()] else prices["normal"];
        var amount := rate * BilledHours;
        var row := LedgerRow(b.start, b.end, s.municipality, s.grade, t, BilledHours, rate, amount);
        assert row == PriceBlock(cal, s, prices, b);
        PriceBlocksStep(before, ledger, cal, s, prices, blocks, k);
        ledger := ledger + [row];
        k := k + 1;
      }
      assert blocks[..k] == blocks;
      LedgerStep(shifts, i, cal, table);
      i := i + 1;
    }
    assert shifts[..i] == shifts;
    result := Success(Report(ledger, Rollup(ledger)));
  }

  /** Once a prefix of the shifts fails, the whole call fails with that error. */
  lemma {:induction false} FailureIsFinal(shifts: seq<Shift>, n: nat, cal: Calendar.Calendar, table: Tariffs.TariffTable)
    requires n <= |shifts|
    requires LedgerOf(shifts[..n], cal, table).Failure?
    ensures LedgerOf(shifts, cal, table) == LedgerOf(shifts[..n], cal, table)
    decreases |shifts| - n
  {
    if n < |shifts| {
      var longer := shifts[..n + 1];
      assert longer[..|longer| - 1] == shifts[..n];
      FailureIsFinal(shifts, n + 1, cal, table);
    } else {
      assert shifts[..n] == shifts;
    }
  }

  lemma PriceBlocksStep(before: seq<LedgerRow>, ledger: seq<LedgerRow>, cal: Calendar.Calendar, s: Shift,
                        prices: map<string, Money>, blocks: seq<Calendar.Block>, k: nat)
    requires "normal" in prices && k < |blocks|
    requires ledger == before + PriceBlocks(cal, s, prices, blocks[..k])
    ensures ledger + [PriceBlock(cal, s, prices, blocks[k])] == before + PriceBlocks(cal, s, prices, blocks[..k + 1])
  {
    assert PriceBlocks(cal, s, prices, blocks[..k + 1]) ==
           PriceBlocks(cal, s, prices, blocks[..k]) + [PriceBlock(cal, s, prices, blocks[k])];
  }

  /** The ledger of one more shift: the error of its lookup, or its priced blocks appended. */
  lemma LedgerStep(shifts: seq<Shift>, i: nat, cal: Calendar.Calendar, table: Tariffs.TariffTable)
    requires i < |shifts|
    requires LedgerOf(shifts[..i], cal, table).Success?
    ensures var found := Tariffs.Lookup(table, shifts[i].grade);
            LedgerOf(shifts[..i + 1], cal, table) ==
              if found.Failure? then Failure(found.error)
              else Success(LedgerOf(shifts[..i], cal, table).value +
                           PriceBlocks(cal, shifts[i], found.value, Calendar.HourBlocks(shifts[i].start, shifts[i].end)))
  {
    var longer := shifts[..i + 1];
    assert longer[..|longer| - 1] == shifts[..i] && longer[|longer| - 1] == shifts[i];
  }

  // ---------------------------------------------------------------------------------------
  // What the ledger holds

  /** Every day-type label is a key of every price dictionary, so the fallback to the normal
      price in `precios.get(tipo, precios["normal"])` never fires. */
  lemma LabelIsPriceKey(t: Calendar.DayType)
    ensures t.Label() in Tariffs.PriceKeys
  {
  }

  /** A ledger row as the engine must produce it: one billed hour, the day type of the block's
      start in the shift's municipality, the grade's price for that day type, and that price as
      the amount. */
  ghost predicate RowPriced(cal: Calendar.Calendar, table: Tariffs.TariffTable, r: LedgerRow) {
    r.hours == 1 &&
    r.dayType == Calendar.DayTypeAt(cal, r.blockStart, r.municipality) &&
    Tariffs.Lookup(table, r.grade).Success? &&
    r.rate == Tariffs.Lookup(table, r.grade).value[r.dayType.Label()] &&
    r.amount == r.rate
  }

  lemma {:induction false} LedgerRowsPriced(shifts: seq<Shift>, cal: Calendar.Calendar, table: Tariffs.TariffTable)
    requires LedgerOf(shifts, cal, table).Success?
    ensures forall k :: 0 <= k < |LedgerOf(shifts, cal, table).value| ==>
              RowPriced(cal, table, LedgerOf(shifts, cal, table).value[k])
  {
    if shifts != [] {
      var last := shifts[|shifts| - 1];
      var init := shifts[..|shifts| - 1];
      LedgerRowsPriced(init, cal, table);
      var prices := Tariffs.Lookup(table, last.grade).value;
      var blocks := Calendar.HourBlocks(last.start, last.end);
      var added := PriceBlocks(cal, last, prices, blocks);
      forall k | 0 <= k < |added|
        ensures RowPriced(cal, table, added[k])
      {
        LabelIsPriceKey(Calendar.DayTypeAt(cal, blocks[k].start, last.municipality));
      }
    }
  }

  /** A block of the input, tagged with the index of the shift it was cut from. */
  datatype Slot = Slot(shift: nat, block: Calendar.Block)

  /** The blocks of all shifts, shift after shift, each shift's blocks in their own order. */
  function Slots(shifts: seq<Shift>): seq<Slot> {
    if shifts == [] then []
    else
      var last := shifts[|shifts| - 1];
      var blocks := Calendar.HourBlocks(last.start, last.end);
      Slots(shifts[..|shifts| - 1]) + seq(|blocks|, k requires 0 <= k < |blocks| => Slot(|shifts| - 1, blocks[k]))
  }

  /** The slots come in shift order, and within one shift in time order; each lies inside the
      interval of its shift. */
  lemma {:induction false} SlotsInOrder(shifts: seq<Shift>)
    ensures forall k :: 0 <= k < |Slots(shifts)| ==>
              Slots(shifts)[k].shift < |shifts| &&
              shifts[Slots(shifts)[k].shift].start <= Slots(shifts)[k].block.start &&
              Slots(shifts)[k].block.start < Slots(shifts)[k].block.end &&
              Slots(shifts)[k].block.end <= shifts[Slots(shifts)[k].shift].end
    ensures forall a, b :: 0 <= a < b < |Slots(shifts)| ==>
              Slots(shifts)[a].shift <= Slots(shifts)[b].shift &&
              (Slots(shifts)[a].shift == Slots(shifts)[b].shift ==> Slots(shifts)[a].block.end <= Slots(shifts)[b].block.start)
  {
    if shifts != [] {
      var n := |shifts| - 1;
      var init := shifts[..n];
      SlotsInOrder(init);
      var last := shifts[n];
      Calendar.HourBlocksWithin(last.start, last.end);
      Calendar.HourBlocksOrdered(last.start, last.end);
      var blocks := Calendar.HourBlocks(last.start, last.end);
      var front := Slots(init);
      var all := Slots(shifts);
      assert all == front + seq(|blocks|, k requires 0 <= k < |blocks| => Slot(n, blocks[k]));
      forall k | 0 <= k < |front|
        ensures front[k].shift < n && shifts[front[k].shift] == init[front[k].shift]
      {
      }
    }
  }

  /** The row carries the slot's block and the municipality and grade of the slot's shift. */
  ghost predicate RowOfSlot(shifts: seq<Shift>, row: LedgerRow, slot: Slot) {
    slot.shift < |shifts| &&
    row.blockStart == slot.block.start && row.blockEnd == slot.block.end &&
    row.grade == shifts[slot.shift].grade && row.municipality == shifts[slot.shift].municipality
  }

  /** The ledger has one row per slot, in slot order. */
  lemma {:induction false} LedgerFollowsSlots(shifts: seq<Shift>, cal: Calendar.Calendar, table: Tariffs.TariffTable)
    requires LedgerOf(shifts, cal, table).Success?
    ensures |LedgerOf(shifts, cal, table).value| == |Slots(shifts)|
    ensures forall k :: 0 <= k < |Slots(shifts)| ==>
              RowOfSlot(shifts, LedgerOf(shifts, cal, table).value[k], Slots(shifts)[k])
  {
    if shifts != [] {
      var n := |shifts| - 1;
      var init := shifts[..n];
      var last := shifts[n];
      LedgerOfSucceeds(shifts, cal, table);
      LedgerFollowsSlots(init, cal, table);
      LedgerStep(shifts, n, cal, table);
      assert shifts[..n + 1] == shifts;
      var prices := Tariffs.Lookup(table, last.grade).value;
      var blocks := Calendar.HourBlocks(last.start, last.end);
      var front := LedgerOf(init, cal, table).value;
      var ledger := LedgerOf(shifts, cal, table).value;
      assert ledger == front + PriceBlocks(cal, last, prices, blocks);
      var slots := Slots(shifts);
      assert slots == Slots(init) + seq(|blocks|, j requires 0 <= j < |blocks| => Slot(n, blocks[j]));
      forall k | 0 <= k < |slots|
        ensures RowOfSlot(shifts, ledger[k], slots[k])
      {
        if k < |front| {
          assert ledger[k] == front[k] && slots[k] == Slots(init)[k];
          assert RowOfSlot(init, front[k], Slots(init)[k]);
          assert shifts[slots[k].shift] == init[slots[k].shift];
        } else {
          var j := k - |front|;
          assert ledger[k] == PriceBlock(cal, last, prices, blocks[j]);
          assert slots[k] == Slot(n, blocks[j]);
        }
      }
    }
  }

  /** The call succeeds exactly when every shift's grade has a tariff. */
  lemma {:induction false} SucceedsIffAllGradesPriced(shifts: seq<Shift>, cal: Calendar.Calendar, table: Tariffs.TariffTable)
    ensures LedgerOf(shifts, cal, table).Success? <==>
            forall i :: 0 <= i < |shifts| ==> Tariffs.HasTariff(table, shifts[i].grade)
  {
    if shifts != [] {
      var n := |shifts| - 1;
      var init := shifts[..n];
      SucceedsIffAllGradesPriced(init, cal, table);
      LedgerOfSucceeds(shifts, cal, table);
      if LedgerOf(shifts, cal, table).Success? {
        forall i | 0 <= i < |shifts| ensures Tariffs.HasTariff(table, shifts[i].grade) {
          if i < n { assert shifts[i] == init[i]; }
        }
      } else if LedgerOf(init, cal, table).Success? {
        assert !Tariffs.HasTariff(table, shifts[n].grade);
      } else {
        var i :| 0 <= i < n && !Tariffs.HasTariff(table, init[i].grade);
        assert shifts[i] == init[i];
      }
    }
  }

  /** One more shift keeps the call successful exactly when its grade has a tariff. */
  lemma LedgerOfSucceeds(shifts: seq<Shift>, cal: Calendar.Calendar, table: Tariffs.TariffTable)
    requires shifts != []
    ensures LedgerOf(shifts, cal, table).Success? <==>
            LedgerOf(shifts[..|shifts| - 1], cal, table).Success? && Tariffs.HasTariff(table, shifts[|shifts| - 1].grade)
  {
  }

  /** A failed call reports the grade of the first shift whose grade has no tariff. */
  lemma {:induction false} FailureNamesFirstUnpricedShift(shifts: seq<Shift>, cal: Calendar.Calendar, table: Tariffs.TariffTable)
    requires LedgerOf(shifts, cal, table).Failure?
    ensures exists i :: 0 <= i < |shifts| && !Tariffs.HasTariff(table, shifts[i].grade) &&
                        (forall j :: 0 <= j < i ==> Tariffs.HasTariff(table, shifts[j].grade)) &&
                        LedgerOf(shifts, cal, table).error == Tariffs.UndefinedTariff(shifts[i].grade)
  {
    var n := |shifts| - 1;
    var init := shifts[..n];
    assert forall i :: 0 <= i < n ==> shifts[i] == init[i];
    if LedgerOf(init, cal, table).Failure? {
      FailureNamesFirstUnpricedShift(init, cal, table);
      var i :| 0 <= i < |init| && !Tariffs.HasTariff(table, init[i].grade) &&
               (forall j :: 0 <= j < i ==> Tariffs.HasTariff(table, init[j].grade)) &&
               LedgerOf(init, cal, table).error == Tariffs.UndefinedTariff(init[i].grade);
      assert shifts[i] == init[i];
    } else {
      SucceedsIffAllGradesPriced(init, cal, table);
      assert !Tariffs.HasTariff(table, shifts[n].grade);
    }
  }

  /** Shifts that yield no block (end at or before start) give both tables empty, provided every
      grade has a tariff; no shift at all gives both tables empty. */
  lemma {:induction false} NoBlocksNoRows(shifts: seq<Shift>, cal: Calendar.Calendar, table: Tariffs.TariffTable)
    requires forall i :: 0 <= i < |shifts| ==> shifts[i].end <= shifts[i].start
    requires forall i :: 0 <= i < |shifts| ==> Tariffs.HasTariff(table, shifts[i].grade)
    ensures Calculate(shifts, cal, table) == Success(Report([], []))
  {
    if shifts != [] {
      var n := |shifts| - 1;
      NoBlocksNoRows(shifts[..n], cal, table);
      assert shifts[..n] + [shifts[n]] == shifts;
    }
  }

  // ---------------------------------------------------------------------------------------
  // What the rollup holds

  /** Ledger rows of grade g. */
  function CountOfGrade(ledger: seq<LedgerRow>, g: string): nat {
    if ledger == [] then 0
    else CountOfGrade(ledger[..|ledger| - 1], g) + (if ledger[|ledger| - 1].grade == g then 1 else 0)
  }

  /** The sum of the amounts of the ledger rows of grade g. */
  function AmountOfGrade(ledger: seq<LedgerRow>, g: string): Money {
    if ledger == [] then 0
    else AmountOfGrade(ledger[..|ledger| - 1], g) + (if ledger[|ledger| - 1].grade == g then ledger[|ledger| - 1].amount else 0)
  }

  function LedgerAmount(ledger: seq<LedgerRow>): Money {
    if ledger == [] then 0 else LedgerAmount(ledger[..|ledger| - 1]) + ledger[|ledger| - 1].amount
  }

  function LedgerGrades(ledger: seq<LedgerRow>): set<string> {
    set k | 0 <= k < |ledger| :: ledger[k].grade
  }

  function SummaryGrades(summary: seq<SummaryRow>): set<string> {
    set k | 0 <= k < |summary| :: summary[k].grade
  }

  predicate DistinctGrades(summary: seq<SummaryRow>) {
    forall a, b :: 0 <= a < b < |summary| ==> summary[a].grade != summary[b].grade
  }

  function SummaryHours(summary: seq<SummaryRow>): nat {
    if summary == [] then 0 else summary[0].totalHours + SummaryHours(summary[1..])
  }

  function SummaryAmount(summary: seq<SummaryRow>): Money {
    if summary == [] then 0 else summary[0].totalAmount + SummaryAmount(summary[1..])
  }

  /** The hours of the first rollup entry of grade g, 0 when there is none. */
  function EntryHours(summary: seq<SummaryRow>, g: string): nat {
    if summary == [] then 0 else if summary[0].grade == g then summary[0].totalHours else EntryHours(summary[1..], g)
  }

  /** The amount of the first rollup entry of grade g, 0 when there is none. */
  function EntryAmount(summary: seq<SummaryRow>, g: string): Money {
    if summary == [] then 0 else if summary[0].grade == g then summary[0].totalAmount else EntryAmount(summary[1..], g)
  }

  lemma SummaryGradesCons(summary: seq<SummaryRow>)
    requires summary != []
    ensures SummaryGrades(summary) == {summary[0].grade} + SummaryGrades(summary[1..])
  {
    var rest := summary[1..];
    forall x | x in SummaryGrades(summary) ensures x in {summary[0].grade} + SummaryGrades(rest) {
      var k :| 0 <= k < |summary| && summary[k].grade == x;
      if k > 0 { assert rest[k - 1].grade == x; }
    }
    forall x | x in SummaryGrades(rest) ensures x in SummaryGrades(summary) {
      var k :| 0 <= k < |rest| && rest[k].grade == x;
      assert summary[k + 1].grade == x;
    }
  }

  lemma DistinctGradesCons(summary: seq<SummaryRow>)
    requires summary != []
    ensures DistinctGrades(summary) <==>
            DistinctGrades(summary[1..]) && summary[0].grade !in SummaryGrades(summary[1..])
  {
    var rest := summary[1..];
    if DistinctGrades(summary) {
      forall a, b | 0 <= a < b < |rest| ensures rest[a].grade != rest[b].grade {
        assert rest[a] == summary[a + 1] && rest[b] == summary[b + 1];
      }
      forall k | 0 <= k < |rest| ensures rest[k].grade != summary[0].grade {
        assert rest[k] == summary[k + 1];
      }
    }
    if DistinctGrades(rest) && summary[0].grade !in SummaryGrades(rest) {
      forall a, b | 0 <= a < b < |summary| ensures summary[a].grade != summary[b].grade {
        assert summary[b] == rest[b - 1];
        if a > 0 {
          assert summary[a] == rest[a - 1];
        }
      }
    }
  }

  /** Adding a row adds its grade to the rollup's grades. */
  lemma {:induction false} AddToSummaryGrades(summary: seq<SummaryRow>, row: LedgerRow)
    ensures SummaryGrades(AddToSummary(summary, row)) == SummaryGrades(summary) + {row.grade}
  {
    var after := AddToSummary(summary, row);
    SummaryGradesCons(after);
    if summary != [] {
      SummaryGradesCons(summary);
      if summary[0].grade == row.grade {
        assert after[1..] == summary[1..];
      } else {
        AddToSummaryGrades(summary[1..], row);
        assert after[1..] == AddToSummary(summary[1..], row);
      }
    }
  }

  /** Adding a row keeps one entry per grade. */
  lemma {:induction false} AddToSummaryDistinct(summary: seq<SummaryRow>, row: LedgerRow)
    requires DistinctGrades(summary)
    ensures DistinctGrades(AddToSummary(summary, row))
  {
    var after := AddToSummary(summary, row);
    DistinctGradesCons(after);
    if summary != [] {
      DistinctGradesCons(summary);
      if summary[0].grade == row.grade {
        assert after[1..] == summary[1..];
      } else {
        AddToSummaryDistinct(summary[1..], row);
        AddToSummaryGrades(summary[1..], row);
        assert after[1..] == AddToSummary(summary[1..], row);
      }
    }
  }

  /** Adding a row counts one hour and its amount under its grade and nowhere else. */
  lemma {:induction false} AddToSummaryEntries(summary: seq<SummaryRow>, row: LedgerRow)
    ensures forall g :: EntryHours(AddToSummary(summary, row), g) == EntryHours(summary, g) + (if g == row.grade then 1 else 0)
    ensures forall g :: EntryAmount(AddToSummary(summary, row), g) == EntryAmount(summary, g) + (if g == row.grade then row.amount else 0)
  {
    if summary != [] && summary[0].grade != row.grade {
      AddToSummaryEntries(summary[1..], row);
    }
  }

  /** Adding a row adds one hour and its amount to the rollup's totals. */
  lemma {:induction false} AddToSummaryTotals(summary: seq<SummaryRow>, row: LedgerRow)
    ensures SummaryHours(AddToSummary(summary, row)) == SummaryHours(summary) + 1
    ensures SummaryAmount(AddToSummary(summary, row)) == SummaryAmount(summary) + row.amount
  {
    var after := AddToSummary(summary, row);
    if summary == [] {
    } else if summary[0].grade == row.grade {
      assert after[1..] == summary[1..];
    } else {
      AddToSummaryTotals(summary[1..], row);
      assert after[1..] == AddToSummary(summary[1..], row);
    }
  }

  /** In a rollup with one entry per grade, each entry is the one found for its grade. */
  lemma {:induction false} EntryOfDistinct(summary: seq<SummaryRow>, i: nat)
    requires DistinctGrades(summary) && i < |summary|
    ensures EntryHours(summary, summary[i].grade) == summary[i].totalHours
    ensures EntryAmount(summary, summary[i].grade) == summary[i].totalAmount
  {
    if i > 0 {
      assert summary[0].grade != summary[i].grade;
      EntryOfDistinct(summary[1..], i - 1);
    }
  }

  lemma {:induction false} RollupEntries(ledger: seq<LedgerRow>)
    ensures DistinctGrades(Rollup(ledger)) && SummaryGrades(Rollup(ledger)) == LedgerGrades(ledger)
    ensures forall g :: EntryHours(Rollup(ledger), g) == CountOfGrade(ledger, g)
    ensures forall g :: EntryAmount(Rollup(ledger), g) == AmountOfGrade(ledger, g)
    ensures SummaryHours(Rollup(ledger)) == |ledger| && SummaryAmount(Rollup(ledger)) == LedgerAmount(ledger)
  {
    if ledger != [] {
      var init := ledger[..|ledger| - 1];
      var last := ledger[|ledger| - 1];
      RollupEntries(init);
      AddToSummaryGrades(Rollup(init), last);
      AddToSummaryDistinct(Rollup(init), last);
      AddToSummaryEntries(Rollup(init), last);
      AddToSummaryTotals(Rollup(init), last);
      assert LedgerGrades(ledger) == LedgerGrades(init) + {last.grade} by {
        forall x | x in LedgerGrades(ledger) ensures x in LedgerGrades(init) + {last.grade} {
          var k :| 0 <= k < |ledger| && ledger[k].grade == x;
          if k < |init| { assert init[k].grade == x; }
        }
        forall x | x in LedgerGrades(init) ensures x in LedgerGrades(ledger) {
          var k :| 0 <= k < |init| && init[k].grade == x;
          assert ledger[k].grade == x;
        }
      }
    }
  }

  /** The rollup has exactly one entry per grade of the ledger; each entry's hours are the number
      of that grade's blocks and its amount the sum of their amounts; over all grades the hours
      add up to the number of ledger rows and the amounts to the ledger's total. */
  lemma RollupConsistent(ledger: seq<LedgerRow>)
    ensures DistinctGrades(Rollup(ledger)) && SummaryGrades(Rollup(ledger)) == LedgerGrades(ledger)
    ensures forall i :: 0 <= i < |Rollup(ledger)| ==>
              Rollup(ledger)[i].totalHours == CountOfGrade(ledger, Rollup(ledger)[i].grade) &&
              Rollup(ledger)[i].totalAmount == AmountOfGrade(ledger, Rollup(ledger)[i].grade)
    ensures SummaryHours(Rollup(ledger)) == |ledger| && SummaryAmount(Rollup(ledger)) == LedgerAmount(ledger)
  {
    RollupEntries(ledger);
    forall i | 0 <= i < |Rollup(ledger)|
      ensures Rollup(ledger)[i].totalHours == CountOfGrade(ledger, Rollup(ledger)[i].grade)
      ensures Rollup(ledger)[i].totalAmount == AmountOfGrade(ledger, Rollup(ledger)[i].grade)
    {
      EntryOfDistinct(Rollup(ledger), i);
    }
  }

  /** With non-negative prices in the table every ledger amount is non-negative. */
  lemma LedgerAmountsNonNegative(shifts: seq<Shift>, cal: Calendar.Calendar, table: Tariffs.TariffTable)
    requires forall i :: 0 <= i < |table.rows| ==>
               table.rows[i].normal >= 0 && table.rows[i].holiday >= 0 && table.rows[i].special >= 0
    requires LedgerOf(shifts, cal, table).Success?
    ensures forall k :: 0 <= k < |LedgerOf(shifts, cal, table).value| ==> LedgerOf(shifts, cal, table).value[k].amount >= 0
  {
    var ledger := LedgerOf(shifts, cal, table).value;
    LedgerRowsPriced(shifts, cal, table);
    forall k | 0 <= k < |ledger| ensures ledger[k].amount >= 0 {
      assert RowPriced(cal, table, ledger[k]);
      Tariffs.LookupNonNegative(table, ledger[k].grade);
    }
  }

  /** With non-negative prices in the table every ledger amount and every rollup total is
      non-negative. */
  lemma AmountsNonNegative(shifts: seq<Shift>, cal: Calendar.Calendar, table: Tariffs.TariffTable)
    requires forall i :: 0 <= i < |table.rows| ==>
               table.rows[i].normal >= 0 && table.rows[i].holiday >= 0 && table.rows[i].special >= 0
    requires Calculate(shifts, cal, table).Success?
    ensures forall k :: 0 <= k < |Calculate(shifts, cal, table).value.ledger| ==>
              Calculate(shifts, cal, table).value.ledger[k].amount >= 0
    ensures forall i :: 0 <= i < |Calculate(shifts, cal, table).value.summary| ==>
              Calculate(shifts, cal, table).value.summary[i].totalAmount >= 0
  {
    var ledger := LedgerOf(shifts, cal, table).value;
    LedgerAmountsNonNegative(shifts, cal, table);
    RollupConsistent(ledger);
    var summary := Rollup(ledger);
    forall i | 0 <= i < |summary| ensures summary[i].totalAmount >= 0 {
      GradeAmountNonNegative(ledger, summary[i].grade);
    }
  }

  lemma {:induction false} GradeAmountNonNegative(ledger: seq<LedgerRow>, g: string)
    requires forall k :: 0 <= k < |ledger| ==> ledger[k].amount >= 0
    ensures AmountOfGrade(ledger, g) >= 0
  {
    if ledger != [] {
      GradeAmountNonNegative(ledger[..|ledger| - 1], g);
    }
  }

  /** The ledger of the example below: three normal blocks priced at 20.0000. */
  lemma ThreeNormalHoursLedger(start: Clock.Timestamp)
    requires start % Clock.MicrosPerHour == 0
    ensures var h := Clock.MicrosPerHour;
            var cal := Calendar.Calendar({}, [], [], "Sevilla");
            var table := Tariffs.TariffTable([Tariffs.TariffRow("R2", 200000, 300000, 500000)]);
            LedgerOf([Shift(start, start + 3 * h, "", "R2")], cal, table) ==
              Success([LedgerRow(start, start + h, "", "R2", Calendar.Normal, 1, 200000, 200000),
                       LedgerRow(start + h, start + 2 * h, "", "R2", Calendar.Normal, 1, 200000, 200000),
                       LedgerRow(start + 2 * h, start + 3 * h, "", "R2", Calendar.Normal, 1, 200000, 200000)])
  {
    var h := Clock.MicrosPerHour;
    var end := start + 3 * h;
    var cal := Calendar.Calendar({}, [], [], "Sevilla");
    var row := Tariffs.TariffRow("R2", 200000, 300000, 500000);
    var table := Tariffs.TariffTable([row]);
    var shift := Shift(start, end, "", "R2");
    var shifts := [shift];

    var blocks := [Calendar.Block(start, start + h), Calendar.Block(start + h, start + 2 * h), Calendar.Block(start + 2 * h, end)];
    Calendar.ThreeHoursFromOClock(start);

    var prices := Tariffs.PricesOf(row);
    assert Tariffs.Lookup(table, "R2") == Success(prices) by {
      assert table.rows[1..] == [];
    }

    var rows := [LedgerRow(start, start + h, "", "R2", Calendar.Normal, 1, 200000, 200000),
                 LedgerRow(start + h, start + 2 * h, "", "R2", Calendar.Normal, 1, 200000, 200000),
                 LedgerRow(start + 2 * h, end, "", "R2", Calendar.Normal, 1, 200000, 200000)];
    forall j | 0 <= j < 3
      ensures PriceBlock(cal, shift, prices, blocks[j]) == rows[j]
    {
      Calendar.NoDataMeansNormal(cal, blocks[j].start, "");
    }
    assert PriceBlocks(cal, shift, prices, blocks) == rows;

    assert shifts[..0] == [];
    assert LedgerOf(shifts[..0], cal, table) == Success([]);
    LedgerStep(shifts, 0, cal, table);
    assert LedgerOf(shifts[..1], cal, table) == Success([] + rows);
    assert [] + rows == rows;
    assert shifts[..1] == shifts;
  }

  /** Grade R2 at 20, 30 and 50 euro per hour (normal, holiday, special), from an o'clock start
      (08:00, say) to three hours later (11:00), with no holiday data: three normal blocks of
      20.0000 each, rolled up as 3 hours and 60.0000. */
  lemma ThreeNormalHours(start: Clock.Timestamp)
    requires start % Clock.MicrosPerHour == 0
    ensures var h := Clock.MicrosPerHour;
            var cal := Calendar.Calendar({}, [], [], "Sevilla");
            var table := Tariffs.TariffTable([Tariffs.TariffRow("R2", 200000, 300000, 500000)]);
            Calculate([Shift(start, start + 3 * h, "", "R2")], cal, table) ==
              Success(Report(
                [LedgerRow(start, start + h, "", "R2", Calendar.Normal, 1, 200000, 200000),
                 LedgerRow(start + h, start + 2 * h, "", "R2", Calendar.Normal, 1, 200000, 200000),
                 LedgerRow(start + 2 * h, start + 3 * h, "", "R2", Calendar.Normal, 1, 200000, 200000)],
                [SummaryRow("R2", 3, 600000)]))
  {
    var h := Clock.MicrosPerHour;
    ThreeNormalHoursLedger(start);
    var r0 := LedgerRow(start, start + h, "", "R2", Calendar.Normal, 1, 200000, 200000);
    var r1 := LedgerRow(start + h, start + 2 * h, "", "R2", Calendar.Normal, 1, 200000, 200000);
    var r2 := LedgerRow(start + 2 * h, start + 3 * h, "", "R2", Calendar.Normal, 1, 200000, 200000);
    assert Rollup([r0]) == [SummaryRow("R2", 1, 200000)] by {
      assert [r0][..0] == [];
    }
    assert Rollup([r0, r1]) == [SummaryRow("R2", 2, 400000)] by {
      assert [r0, r1][..1] == [r0];
    }
    assert Rollup([r0, r1, r2]) == [SummaryRow("R2", 3, 600000)] by {
      assert [r0, r1, r2][..2] == [r0, r1];
    }
  }
}
