/**
 * `ExperimentReporter` (core/experiment_reporter.hpp): collects the tags of
 * an experiment and named tables of rows, each row a map from column name
 * to a value.  Every table keeps the columns of its first row: `append`
 * refuses a row with other column names.
 */
module Reporter {
  import opened Common

  /** `element_value_t`, a variant of size_t, int, double, string and bool. */
  datatype Value =
    | SizeValue(size: nat)
    | IntValue(integer: int)
    | DoubleValue(double: real)
    | StringValue(str: string)
    | BoolValue(flag: bool)

  /** `table_row_t`: an ordered map from column name to value. */
  type Row = map<string, Value>

  /** The `std::runtime_error` that `append` throws. */
  datatype RuntimeError = RuntimeError(message: string)

  const ColumnCountMessage := "New row and existing ones have a different number of columns"
  const HeadingsMessage := "New row has different headings from the existing ones"

  /** A table is non-empty and every row has the column names of the first. */
  predicate Schema(rows: seq<Row>)
  {
    |rows| > 0 && forall i :: 0 <= i < |rows| ==> rows[i].Keys == rows[0].Keys
  }

  /** What `append` decides for a row: its first failing check, if any. */
  function Admit(tables: map<string, seq<Row>>, table: string, row: Row): (r: Result<(), RuntimeError>)
    requires table in tables ==> |tables[table]| > 0
  {
    if table !in tables then Ok(())
    else if |row.Keys| != |tables[table][0].Keys| then Err(RuntimeError(ColumnCountMessage))
    else if !(row.Keys <= tables[table][0].Keys) then Err(RuntimeError(HeadingsMessage))
    else Ok(())
  }

  /** A finite subset as large as its superset is the whole superset. */
  lemma SubsetSameSize<T>(a: set<T>, b: set<T>)
    requires a <= b && |a| == |b|
    ensures a == b
  {
    assert b == a + (b - a) && a * (b - a) == {};
    assert |b - a| == 0;
  }

  /** The two checks together accept exactly the rows with the first row's column names. */
  lemma AdmitExactly(tables: map<string, seq<Row>>, table: string, row: Row)
    requires table in tables ==> |tables[table]| > 0
    ensures Admit(tables, table, row).Ok? <==> table !in tables || row.Keys == tables[table][0].Keys
  {
    if table in tables && Admit(tables, table, row).Ok? {
      SubsetSameSize(row.Keys, tables[table][0].Keys);
    }
  }

  /** A row admitted to a table keeps its schema when pushed at the end. */
  lemma AdmitKeepsSchema(tables: map<string, seq<Row>>, table: string, row: Row)
    requires forall t :: t in tables ==> Schema(tables[t])
    requires table in tables ==> |tables[table]| > 0
    requires Admit(tables, table, row).Ok?
    ensures Schema((if table in tables then tables[table] else []) + [row])
  {
    AdmitExactly(tables, table, row);
    var rows := (if table in tables then tables[table] else []) + [row];
    assert rows[0].Keys == row.Keys by {
      if table in tables {
        assert rows[0] == tables[table][0];
      }
    }
  }

  class ExperimentReporter {
    var tags: map<string, Value>
    var tables: map<string, seq<Row>>

    /** Every table is non-empty and keeps the columns of its first row. */
    ghost predicate Valid()
      reads this
    {
      forall t :: t in tables ==> Schema(tables[t])
    }

    /** A reporter with no tags and no tables; the creation date is left out. */
    constructor ()
      ensures Valid() && tags == map[] && tables == map[]
    {
      tags := map[];
      tables := map[];
    }

    /** `tag(k, v)`: sets or overwrites one tag. */
    method Tag(key: string, val: Value)
      modifies this
      ensures tags == old(tags)[key := val] && tables == old(tables)
    {
      tags := tags[key := val];
    }

    /**
     * `append(table, row)`: a new table starts with the row; an existing
     * table takes it at the end only if it has the first row's number of
     * columns and only headings of the first row, and is left as it was
     * when it throws.
     */
    method Append(table: string, row: Row) returns (outcome: Result<(), RuntimeError>)
      requires Valid()
      modifies this
      ensures Valid() && tags == old(tags)
      ensures outcome == Admit(old(tables), table, row)
      ensures outcome.Err? ==> tables == old(tables)
      ensures outcome.Ok? ==>
                tables == old(tables)[table := (if table in old(tables) then old(tables)[table] else []) + [row]]
    {
      if table in tables {
        var firstRow := tables[table][0];
        var keys := firstRow.Keys;
        if |row.Keys| != |keys| {
          return Err(RuntimeError(ColumnCountMessage));
        }
        var headings := Enumerate(row.Keys);
        for i := 0 to |headings|
          invariant forall j :: 0 <= j < i ==> headings[j] in keys
        {
          if headings[i] !in keys {
            assert headings[i] in Elems(headings);
            return Err(RuntimeError(HeadingsMessage));
          }
        }
        assert row.Keys <= keys by {
          forall k | k in row.Keys
            ensures k in keys
          {
            assert k in Elems(headings);
          }
        }
      }
      AdmitKeepsSchema(tables, table, row);
      var rows := if table in tables then tables[table] else [];
      tables := tables[table := rows + [row]];
      outcome := Ok(());
    }
  }

  /**
   * Two appends to a fresh table: a second row with the same columns is
   * accepted after the first, one with a column renamed is refused.
   */
  method AppendTwice(first: Row, second: Row) returns (a: Result<(), RuntimeError>, b: Result<(), RuntimeError>, rows: seq<Row>)
    ensures a.Ok?
    ensures b.Ok? <==> second.Keys == first.Keys
    ensures b.Ok? ==> rows == [first, second]
    ensures b.Err? ==> rows == [first]
  {
    var reporter := new ExperimentReporter();
    a := reporter.Append("t", first);
    AdmitExactly(map["t" := [first]], "t", second);
    b := reporter.Append("t", second);
    rows := reporter.tables["t"];
  }
}
