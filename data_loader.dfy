/** The document table: loading it (the loaded / not-loaded state), checking
    its required columns, handing it out, and reading rows and fields the way
    pandas does. */
module DataLoader {
  import opened Wrappers

  /** One row after `fillna("")`: column name to text. */
  type Row = map<string, string>

  /** A data frame read with `dtype=str`: its column names in order and its
      rows. Every row of a data frame has exactly the frame's columns. */
  datatype Table = Table(columns: seq<string>, rows: seq<Row>) {

    ghost predicate WellFormed() {
      forall r, c :: r in rows ==> (c in r <==> c in columns)
    }
  }

  /** `row.get(column, default)`. */
  function Field(row: Row, column: string, default: string): string {
    if column in row then row[column] else default
  }

  /** `df.iloc[idx]`: a position counts from the end when it is negative, and
      a position outside the table raises, here `None`. */
  function ILoc(t: Table, idx: int): (r: Option<Row>)
    ensures r.Some? <==> -|t.rows| <= idx < |t.rows|
    ensures r.Some? ==> r.value in t.rows
    ensures 0 <= idx < |t.rows| ==> r == Some(t.rows[idx])
  {
    if 0 <= idx < |t.rows| then Some(t.rows[idx])
    else if -|t.rows| <= idx < 0 then Some(t.rows[|t.rows| + idx])
    else None
  }

  /** The errors the loader raises. */
  datatype LoadError =
    | ReadFailed
    | NotLoaded
    | ColumnsMissing(missing: seq<string>, available: seq<string>)

  /** `a` can be obtained from `b` by deleting elements. */
  predicate Subsequence(a: seq<string>, b: seq<string>) {
    a == [] || (b != [] && if a[0] == b[0] then Subsequence(a[1..], b[1..]) else Subsequence(a, b[1..]))
  }

  /** The comprehension `[col for col in required if col not in columns]`:
      exactly the absent required columns, each as often as it is required,
      in the order they are required. */
  function MissingColumns(required: seq<string>, columns: seq<string>): (missing: seq<string>)
    ensures forall c :: c in missing <==> c in required && c !in columns
    ensures forall c :: multiset(missing)[c] == if c in columns then 0 else multiset(required)[c]
    ensures Subsequence(missing, required)
  {
    if required == [] then []
    else
      var rest := MissingColumns(required[1..], columns);
      assert required == [required[0]] + required[1..];
      if required[0] in columns then rest else [required[0]] + rest
  }

  class DataLoader {
    const csvPath: string
    /** The loaded table; `None` until `LoadData` succeeds. */
    var df: Option<Table>

    constructor (csvPath: string)
      ensures this.csvPath == csvPath && df == None
    {
      this.csvPath := csvPath;
      df := None;
    }

    /** `load_data`. `csv` is what reading `csvPath` with pandas gives,
        `None` when reading raises. */
    method LoadData(csv: Option<Table>) returns (r: Result<Table, LoadError>)
      requires csv.Some? ==> csv.value.WellFormed()
      modifies this
      ensures csv.Some? ==> r == Ok(csv.value) && df == csv
      ensures csv.None? ==> r == Err(ReadFailed) && df == old(df)
    {
      if csv.None? {
        r := Err(ReadFailed);
      } else {
        df := csv;
        r := Ok(csv.value);
      }
    }

    /** `validate_columns`: fails before a load, and otherwise fails exactly
        when a required column is absent, reporting the absent ones. */
    method ValidateColumns(required: seq<string>) returns (r: Outcome<LoadError>)
      ensures df.None? ==> r == Fail(NotLoaded)
      ensures df.Some? ==> (r == Pass <==> forall c :: c in required ==> c in df.value.columns)
      ensures df.Some? && r.Fail? ==>
        r.error == ColumnsMissing(MissingColumns(required, df.value.columns), df.value.columns)
    {
      if df.None? {
        r := Fail(NotLoaded);
      } else {
        var missing := MissingColumns(required, df.value.columns);
        if missing != [] {
          r := Fail(ColumnsMissing(missing, df.value.columns));
        } else {
          r := Pass;
        }
      }
    }

    /** `get_data`: fails before a load, and returns the loaded table after. */
    method GetData() returns (r: Result<Table, LoadError>)
      ensures df.None? ==> r == Err(NotLoaded)
      ensures df.Some? ==> r == Ok(df.value)
    {
      if df.None? {
        r := Err(NotLoaded);
      } else {
        r := Ok(df.value);
      }
    }
  }
}
