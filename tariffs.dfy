/** The tariff table (CargadorTarifas): per-hour prices of each resident grade for each day type. */
module Tariffs {
  import opened Wrappers

  /** A euro amount in units of 1/10000 euro, so that rounding to four decimals changes nothing. */
  type Money = int

  /** The columns the tariff sheet must have. */
  const ExpectedColumns: set<string> := {"grado", "eur_hora_normal", "eur_hora_festivo", "eur_hora_especial"}

  /** The keys of the price dictionary a lookup returns. */
  const PriceKeys: set<string> := {"normal", "festivo", "especial"}

  /** One sheet row, reduced to the four expected columns. */
  datatype TariffRow = TariffRow(grade: string, normal: Money, holiday: Money, special: Money)

  datatype TariffTable = TariffTable(rows: seq<TariffRow>)

  /** The two ValueErrors of the tariff code. */
  datatype TariffError = MissingColumns(missing: set<string>) | UndefinedTariff(grade: string)

  /** `CargadorTarifas.__init__` after the sheet is read: refuses a sheet that lacks any expected
      column and reports exactly the missing ones; extra columns are allowed. */
  function Load(columns: set<string>, rows: seq<TariffRow>): (r: Result<TariffTable, TariffError>)
    ensures r.Success? <==> ExpectedColumns <= columns
    ensures r.Success? ==> r.value.rows == rows
    ensures r.Failure? ==> r.error.MissingColumns? && r.error.missing != {} &&
                           forall c :: c in r.error.missing <==> c in ExpectedColumns && c !in columns
  {
    var missing := ExpectedColumns - columns;
    NothingMissingMeansPresent(columns);
    if missing != {} then Failure(MissingColumns(missing)) else Success(TariffTable(rows))
  }

  lemma NothingMissingMeansPresent(columns: set<string>)
    ensures ExpectedColumns - columns == {} <==> ExpectedColumns <= columns
  {
    if ExpectedColumns - columns == {} {
      forall c | c in ExpectedColumns ensures c in columns {
        assert c !in ExpectedColumns - columns;
      }
    }
  }

  /** Some row of the table is for this grade (compared exactly: no case folding, no trimming). */
  predicate HasTariff(table: TariffTable, grade: string) {
    exists i :: 0 <= i < |table.rows| && table.rows[i].grade == grade
  }

  /** `df[df["grado"] == grado]`: the rows of one grade, in table order. */
  function RowsOfGrade(rows: seq<TariffRow>, grade: string): (m: seq<TariffRow>)
    ensures forall k :: 0 <= k < |m| ==> m[k].grade == grade
    ensures |m| == 0 <==> forall i :: 0 <= i < |rows| ==> rows[i].grade != grade
    ensures |m| > 0 ==> exists i :: 0 <= i < |rows| && rows[i] == m[0] &&
                                    forall j :: 0 <= j < i ==> rows[j].grade != grade
  {
    if rows == [] then []
    else if rows[0].grade == grade then [rows[0]] + RowsOfGrade(rows[1..], grade)
    else
      var m := RowsOfGrade(rows[1..], grade);
      assert forall i :: 1 <= i < |rows| ==> rows[i] == rows[1..][i - 1];
      m
  }

  /** The price dictionary built from one row. */
  function PricesOf(row: TariffRow): map<string, Money> {
    map["normal" := row.normal, "festivo" := row.holiday, "especial" := row.special]
  }

  /** `CargadorTarifas.obtener`: the prices of the first row of the grade, or UndefinedTariff
      when no row has it. The table itself is a value and is never changed. */
  function Lookup(table: TariffTable, grade: string): (r: Result<map<string, Money>, TariffError>)
    ensures r.Success? <==> HasTariff(table, grade)
    ensures r.Failure? ==> r.error == UndefinedTariff(grade)
    ensures r.Success? ==> r.value.Keys == PriceKeys
    ensures r.Success? ==> exists i :: 0 <= i < |table.rows| && table.rows[i].grade == grade &&
                                       (forall j :: 0 <= j < i ==> table.rows[j].grade != grade) &&
                                       r.value["normal"] == table.rows[i].normal &&
                                       r.value["festivo"] == table.rows[i].holiday &&
                                       r.value["especial"] == table.rows[i].special
  {
    var m := RowsOfGrade(table.rows, grade);
    if |m| == 0 then Failure(UndefinedTariff(grade)) else Success(PricesOf(m[0]))
  }

  /** Grades are compared exactly: a lower-case or padded grade does not find the row. */
  lemma GradeComparedExactly(normal: Money, holiday: Money, special: Money)
    ensures Lookup(TariffTable([TariffRow("R1", normal, holiday, special)]), "r1") == Failure(UndefinedTariff("r1"))
    ensures Lookup(TariffTable([TariffRow("R1", normal, holiday, special)]), " R1") == Failure(UndefinedTariff(" R1"))
  {
    assert "R1" != "r1" && "R1" != " R1";
  }

  /** With non-negative prices in the table every looked-up price is non-negative. */
  lemma LookupNonNegative(table: TariffTable, grade: string)
    requires forall i :: 0 <= i < |table.rows| ==>
               table.rows[i].normal >= 0 && table.rows[i].holiday >= 0 && table.rows[i].special >= 0
    requires Lookup(table, grade).Success?
    ensures forall k :: k in Lookup(table, grade).value ==> Lookup(table, grade).value[k] >= 0
  {
  }
}
