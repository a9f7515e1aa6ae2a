/** The holiday calendar of one billing year (CalendarioFestivos): the day type of a date in a
    municipality, and the cutting of a duty interval into hour blocks. */
module Calendar {
  import opened Wrappers
  import Text
  import Clock

  /** The three day types, with the labels the billing code and the tariff table use. */
  datatype DayType = Normal | Holiday | Special {
    function Label(): string {
      match this
      case Normal => "normal"
      case Holiday => "festivo"
      case Special => "especial"
    }
  }

  /** One row of a holiday file. `date` is None when the file's date did not parse (NaT). */
  datatype HolidayRow = HolidayRow(date: Option<int>, municipality: string)

  /** The three classification layers and the municipality used when a shift names none. */
  datatype Calendar = Calendar(
    specials: set<string>,          // "MM-DD" texts that are special every year
    regional: seq<HolidayRow>,      // national and regional holidays of the year
    local: seq<HolidayRow>,         // local holidays of the year, per municipality
    defaultMunicipality: string)

  const SpecialsKey: string := "festivos_especiales"

  /** Builds the calendar from the rules file's entries and the two holiday files already read
      (a missing or unreadable file is an empty sequence of rows). */
  function NewCalendar(rules: map<string, seq<string>>, regional: seq<HolidayRow>,
                       local: seq<HolidayRow>, defaultMunicipality: string): (c: Calendar)
    ensures forall k :: k in c.specials <==> SpecialsKey in rules && k in rules[SpecialsKey]
    ensures c.regional == regional && c.local == local && c.defaultMunicipality == defaultMunicipality
  {
    var listed := if SpecialsKey in rules then rules[SpecialsKey] else [];
    Calendar((set k | k in listed), regional, local, defaultMunicipality)
  }

  /** `(municipio or municipio_default).strip().upper()`: only the empty string falls back. */
  function NormalizeMunicipality(municipality: string, default: string): string {
    Text.Upper(Text.Strip(if municipality == "" then default else municipality))
  }

  /** Some national or regional row falls on day d. */
  predicate OnRegionalHoliday(cal: Calendar, d: int) {
    exists i :: 0 <= i < |cal.regional| && cal.regional[i].date == Some(d)
  }

  /** Some local row falls on day d for the municipality; the row's name is upper-cased only. */
  predicate OnLocalHoliday(cal: Calendar, d: int, municipality: string) {
    var muni := NormalizeMunicipality(municipality, cal.defaultMunicipality);
    exists i :: 0 <= i < |cal.local| && cal.local[i].date == Some(d) &&
                Text.Upper(cal.local[i].municipality) == muni
  }

  /** `tipo_en_fecha`: the first of the four rules that applies to the date of t. */
  function DayTypeAt(cal: Calendar, t: Clock.Timestamp, municipality: string): DayType {
    var d := Clock.DayOf(t);
    if Clock.MonthDayKey(d) in cal.specials then Special
    else if OnRegionalHoliday(cal, d) then Holiday
    else if OnLocalHoliday(cal, d, municipality) then Holiday
    else Normal
  }

  /** Precedence among day types: special over holiday over normal. */
  function Rank(t: DayType): nat {
    match t
    case Normal => 0
    case Holiday => 1
    case Special => 2
  }

  /** Every day type some layer of the calendar assigns to the date of t; normal always applies. */
  ghost function Applicable(cal: Calendar, t: Clock.Timestamp, municipality: string): set<DayType> {
    var d := Clock.DayOf(t);
    {Normal}
    + (if OnRegionalHoliday(cal, d) || OnLocalHoliday(cal, d, municipality) then {Holiday} else {})
    + (if Clock.MonthDayKey(d) in cal.specials then {Special} else {})
  }

  /** The classification is the applicable day type of highest precedence. */
  lemma DayTypeIsHighestApplicable(cal: Calendar, t: Clock.Timestamp, municipality: string)
    ensures DayTypeAt(cal, t, municipality) in Applicable(cal, t, municipality)
    ensures forall u :: u in Applicable(cal, t, municipality) ==> Rank(u) <= Rank(DayTypeAt(cal, t, municipality))
  {
  }

  /** A special month-day wins over every other layer, whatever the municipality. */
  lemma SpecialIff(cal: Calendar, t: Clock.Timestamp, municipality: string)
    ensures DayTypeAt(cal, t, municipality) == Special <==> Clock.MonthDayKey(Clock.DayOf(t)) in cal.specials
  {
  }

  /** A national or regional holiday that is not special is a holiday in every municipality. */
  lemma RegionalHolidayEverywhere(cal: Calendar, t: Clock.Timestamp, m1: string, m2: string)
    requires Clock.MonthDayKey(Clock.DayOf(t)) !in cal.specials
    requires OnRegionalHoliday(cal, Clock.DayOf(t))
    ensures DayTypeAt(cal, t, m1) == DayTypeAt(cal, t, m2) == Holiday
  {
  }

  /** Below the special and regional layers, the date is a holiday exactly when a local row
      names that date and (upper-cased) the normalized municipality; otherwise it is normal. */
  lemma LocalLayer(cal: Calendar, t: Clock.Timestamp, municipality: string)
    requires Clock.MonthDayKey(Clock.DayOf(t)) !in cal.specials
    requires !OnRegionalHoliday(cal, Clock.DayOf(t))
    ensures DayTypeAt(cal, t, municipality) == Holiday <==>
            exists i :: 0 <= i < |cal.local| && cal.local[i].date == Some(Clock.DayOf(t)) &&
                        Text.Upper(cal.local[i].municipality) == NormalizeMunicipality(municipality, cal.defaultMunicipality)
    ensures DayTypeAt(cal, t, municipality) != Holiday <==> DayTypeAt(cal, t, municipality) == Normal
  {
  }

  /** With no holiday data at all every day that is not special is normal. */
  lemma NoDataMeansNormal(cal: Calendar, t: Clock.Timestamp, municipality: string)
    requires cal.specials == {} && cal.regional == [] && cal.local == []
    ensures DayTypeAt(cal, t, municipality) == Normal
  {
  }

  /** Only the calendar date of t matters, not the time of day. */
  lemma SameDateSameType(cal: Calendar, t1: Clock.Timestamp, t2: Clock.Timestamp, municipality: string)
    requires Clock.DayOf(t1) == Clock.DayOf(t2)
    ensures DayTypeAt(cal, t1, municipality) == DayTypeAt(cal, t2, municipality)
  {
  }

  /** An empty municipality is classified as the default municipality. */
  lemma EmptyMunicipalityIsDefault(cal: Calendar, t: Clock.Timestamp)
    ensures DayTypeAt(cal, t, "") == DayTypeAt(cal, t, cal.defaultMunicipality)
  {
  }

  /** A municipality made only of whitespace does not fall back to the default: it normalizes
      to the empty name. */
  lemma BlankMunicipalityIsNotDefault(m: string, default: string)
    requires m != "" && Text.AllSpace(m)
    ensures NormalizeMunicipality(m, default) == ""
  {
    Text.StripLeftAllSpace(m);
  }

  /** Municipality matching ignores letter case: names with the same upper-case form match the
      same local rows. */
  lemma {:induction false} MunicipalityCaseInsensitive(cal: Calendar, t: Clock.Timestamp, m1: string, m2: string)
    requires m1 != "" && m2 != ""
    requires Text.Upper(m1) == Text.Upper(m2)
    ensures DayTypeAt(cal, t, m1) == DayTypeAt(cal, t, m2)
  {
    Text.StripUpperCommute(m1);
    Text.StripUpperCommute(m2);
    assert NormalizeMunicipality(m1, cal.defaultMunicipality) == NormalizeMunicipality(m2, cal.defaultMunicipality);
  }

  /** Municipality matching ignores whitespace around a non-blank name. */
  lemma {:induction false} MunicipalityTrimmed(cal: Calendar, t: Clock.Timestamp, left: string, m: string, right: string)
    requires m != [] && Text.AllSpace(left) && Text.AllSpace(right)
    ensures DayTypeAt(cal, t, left + m + right) == DayTypeAt(cal, t, m)
  {
    Text.StripIgnoresPadding(left, m, right);
    assert NormalizeMunicipality(left + m + right, cal.defaultMunicipality) == NormalizeMunicipality(m, cal.defaultMunicipality);
  }

  // ---------------------------------------------------------------------------------------
  // fraccionar_por_hora

  /** A half-open sub-interval [start, end) of a duty. */
  datatype Block = Block(start: Clock.Timestamp, end: Clock.Timestamp)

  function Min(a: int, b: int): int {
    if a <= b then a else b
  }

  /** The blocks of [start, end): each runs to the next o'clock boundary or to `end`. */
  function HourBlocks(start: Clock.Timestamp, end: Clock.Timestamp): seq<Block>
    decreases end - start
  {
    if start >= end then []
    else
      var next := Min(Clock.NextHour(start), end);
      [Block(start, next)] + HourBlocks(next, end)
  }

  /** The blocks cover [start, end) with no gap and no overlap. */
  ghost predicate Tiles(blocks: seq<Block>, start: Clock.Timestamp, end: Clock.Timestamp) {
    if start >= end then blocks == []
    else
      |blocks| > 0 && blocks[0].start == start && blocks[|blocks| - 1].end == end &&
      forall i :: 0 <= i < |blocks| - 1 ==> blocks[i].end == blocks[i + 1].start
  }

  /** Every block is non-empty, ends no later than the next o'clock boundary after its start,
      and every block but the last ends on the hour. */
  ghost predicate HourShaped(blocks: seq<Block>) {
    (forall i :: 0 <= i < |blocks| ==> blocks[i].start < blocks[i].end <= Clock.NextHour(blocks[i].start)) &&
    (forall i :: 0 <= i < |blocks| - 1 ==> blocks[i].end % Clock.MicrosPerHour == 0)
  }

  /** The blocks cover [start, end) exactly. */
  lemma {:induction false} HourBlocksTile(start: Clock.Timestamp, end: Clock.Timestamp)
    ensures Tiles(HourBlocks(start, end), start, end)
    decreases end - start
  {
    if start < end {
      var next := Min(Clock.NextHour(start), end);
      var rest := HourBlocks(next, end);
      HourBlocksTile(next, end);
      var blocks := HourBlocks(start, end);
      assert blocks == [Block(start, next)] + rest;
      if next < end {
        assert blocks[|blocks| - 1] == rest[|rest| - 1];
        forall i | 0 <= i < |blocks| - 1
          ensures blocks[i].end == blocks[i + 1].start
        {
          if i > 0 {
            assert blocks[i] == rest[i - 1] && blocks[i + 1] == rest[i];
          }
        }
      }
    }
  }

  /** Each block is non-empty, lies inside [start, end), and ends no later than the next
      o'clock boundary after its own start. */
  lemma {:induction false} HourBlocksWithin(start: Clock.Timestamp, end: Clock.Timestamp)
    ensures forall i :: 0 <= i < |HourBlocks(start, end)| ==>
              start <= HourBlocks(start, end)[i].start &&
              HourBlocks(start, end)[i].start < HourBlocks(start, end)[i].end <= Clock.NextHour(HourBlocks(start, end)[i].start) &&
              HourBlocks(start, end)[i].end <= end
    decreases end - start
  {
    if start < end {
      var next := Min(Clock.NextHour(start), end);
      var rest := HourBlocks(next, end);
      HourBlocksWithin(next, end);
      var blocks := HourBlocks(start, end);
      assert blocks == [Block(start, next)] + rest;
      forall i | 0 < i < |blocks|
        ensures start <= blocks[i].start < blocks[i].end <= Clock.NextHour(blocks[i].start) && blocks[i].end <= end
      {
        assert blocks[i] == rest[i - 1];
      }
    }
  }

  /** Every block but the last ends on an o'clock boundary. */
  lemma {:induction false} HourBlocksAligned(start: Clock.Timestamp, end: Clock.Timestamp)
    ensures forall i :: 0 <= i < |HourBlocks(start, end)| - 1 ==> HourBlocks(start, end)[i].end % Clock.MicrosPerHour == 0
    decreases end - start
  {
    if start < end {
      var next := Min(Clock.NextHour(start), end);
      var rest := HourBlocks(next, end);
      HourBlocksAligned(next, end);
      var blocks := HourBlocks(start, end);
      assert blocks == [Block(start, next)] + rest;
      forall i | 0 < i < |blocks| - 1
        ensures blocks[i].end % Clock.MicrosPerHour == 0
      {
        assert blocks[i] == rest[i - 1];
      }
    }
  }

  /** Blocks come in time order: each ends no later than any later block starts. */
  lemma {:induction false} HourBlocksOrdered(start: Clock.Timestamp, end: Clock.Timestamp)
    ensures forall a, b :: 0 <= a < b < |HourBlocks(start, end)| ==>
              HourBlocks(start, end)[a].end <= HourBlocks(start, end)[b].start
    decreases end - start
  {
    if start < end {
      var next := Min(Clock.NextHour(start), end);
      var rest := HourBlocks(next, end);
      HourBlocksOrdered(next, end);
      HourBlocksWithin(next, end);
      var blocks := HourBlocks(start, end);
      assert blocks == [Block(start, next)] + rest;
      forall a, b | 0 <= a < b < |blocks|
        ensures blocks[a].end <= blocks[b].start
      {
        assert blocks[b] == rest[b - 1];
        if a > 0 {
          assert blocks[a] == rest[a - 1];
        }
      }
    }
  }

  /** When both ends are on the hour there is one block per whole hour. */
  lemma {:induction false} HourBlocksCount(start: Clock.Timestamp, end: Clock.Timestamp)
    requires start <= end
    requires start % Clock.MicrosPerHour == 0 && end % Clock.MicrosPerHour == 0
    ensures |HourBlocks(start, end)| * Clock.MicrosPerHour == end - start
    decreases end - start
  {
    if start < end {
      assert Clock.NextHour(start) == start + Clock.MicrosPerHour;
      HourBlocksCount(start + Clock.MicrosPerHour, end);
    }
  }

  /** `fraccionar_por_hora`: cuts [start, end) into blocks; an empty or reversed interval gives
      no blocks and no error. */
  method SplitByHour(start: Clock.Timestamp, end: Clock.Timestamp) returns (blocks: seq<Block>)
    ensures blocks == HourBlocks(start, end)
    ensures Tiles(blocks, start, end) && HourShaped(blocks)
  {
    blocks := [];
    var t := start;
    while t < end
      invariant blocks + HourBlocks(t, end) == HourBlocks(start, end)
      decreases end - t
    {
      var cut := Clock.NextHour(t);
      var next := Min(cut, end);
      blocks := blocks + [Block(t, next)];
      t := next;
    }
    HourBlocksTile(start, end);
    HourBlocksWithin(start, end);
    HourBlocksAligned(start, end);
  }

  /** A duty from 23:30 to 01:30 the next day gives three blocks: to midnight, to 01:00, to 01:30. */
  lemma AcrossMidnight(midnight: Clock.Timestamp)
    requires midnight % Clock.MicrosPerDay == 0
    ensures var h, half := Clock.MicrosPerHour, Clock.MicrosPerHour / 2;
            HourBlocks(midnight - half, midnight + h + half) ==
              [Block(midnight - half, midnight), Block(midnight, midnight + h), Block(midnight + h, midnight + h + half)]
  {
    var h, half := Clock.MicrosPerHour, Clock.MicrosPerHour / 2;
    var end := midnight + h + half;
    assert midnight % h == 0 by {
      var q := midnight / Clock.MicrosPerDay;
      assert midnight == (24 * q) * h;
    }
    Clock.NextHourWithin(midnight - h, half);
    Clock.NextHourWithin(midnight, 0);
    Clock.NextHourWithin(midnight + h, half);
    assert HourBlocks(end, end) == [];
    assert HourBlocks(midnight + h, end) == [Block(midnight + h, end)];
    assert HourBlocks(midnight, end) == [Block(midnight, midnight + h), Block(midnight + h, end)];
  }

  /** A duty from an o'clock start to three hours later gives three whole-hour blocks. */
  lemma ThreeHoursFromOClock(start: Clock.Timestamp)
    requires start % Clock.MicrosPerHour == 0
    ensures var h := Clock.MicrosPerHour;
            HourBlocks(start, start + 3 * h) ==
              [Block(start, start + h), Block(start + h, start + 2 * h), Block(start + 2 * h, start + 3 * h)]
  {
    var h := Clock.MicrosPerHour;
    var end := start + 3 * h;
    Clock.NextHourWithin(start, 0);
    Clock.NextHourWithin(start + h, 0);
    Clock.NextHourWithin(start + 2 * h, 0);
    assert HourBlocks(end, end) == [];
    assert HourBlocks(start + 2 * h, end) == [Block(start + 2 * h, end)];
    assert HourBlocks(start + h, end) == [Block(start + h, start + 2 * h), Block(start + 2 * h, end)];
  }
}
