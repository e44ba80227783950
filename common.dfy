/**
 * Values, rows and tables shared by the crawler and the validator.
 *
 * The crawler builds each result as a Python dict and stores results in a
 * pandas DataFrame. A row here is a map from column to cell value; a table
 * carries its column set, and every row of a table has exactly that column
 * set as keys (pandas fills a missing cell with NaN, written Null here).
 */
module Common {

  datatype Option<+T> = None | Some(value: T)

  /** A cell: Python None and pandas NaN are both Null. */
  datatype Value = Null | Int(i: int) | Str(s: string)

  /** The "not available" sentinel the extractor writes. */
  const NA: Value := Str("NA")

  /** Column names of the output store; any other column of a file is Other. */
  datatype Column =
    | Url | OriginalIndex | ProdId | ProdName | Price | OriginPrice
    | Coupon | CouponPrice | AcPrice | ExtractionTime | Date | Error
    | Other(name: string)

  type Row = map<Column, Value>

  /** Exactly three scripted attempts: the source's retry bound is 3. */
  datatype Three<T> = Three(first: T, second: T, third: T) {
    function At(k: nat): T
      requires k < 3
    {
      if k == 0 then first else if k == 1 then second else third
    }
  }

  /** A recorded sleep: the source sleeps a random amount drawn from a range. */
  datatype Pause = UrlWait | BatchWait | Backoff(seconds: nat)

  datatype Table = Table(columns: set<Column>, rows: seq<Row>) {
    ghost predicate Valid() {
      forall i :: 0 <= i < |rows| ==> rows[i].Keys == columns
    }
  }

  /** Widen a row to a column set, keeping its cells there and filling the new ones with Null. */
  function Pad(r: Row, cols: set<Column>): (p: Row)
    ensures p.Keys == cols
    ensures forall c :: c in cols && c in r ==> p[c] == r[c]
  {
    map c | c in cols :: if c in r then r[c] else Null
  }

  /** Widening in two steps is widening at once, for a row whose cells all lie in the first column set. */
  lemma PadPad(r: Row, first: set<Column>, second: set<Column>)
    requires r.Keys <= first <= second
    ensures Pad(Pad(r, first), second) == Pad(r, second)
  {
  }

  /** Every row widened to the column set. */
  function PadAll(rows: seq<Row>, cols: set<Column>): (ps: seq<Row>)
    ensures |ps| == |rows|
  {
    if rows == [] then []
    else PadAll(rows[..|rows| - 1], cols) + [Pad(rows[|rows| - 1], cols)]
  }

  lemma {:induction false} PadAllRows(rows: seq<Row>, cols: set<Column>)
    ensures forall i :: 0 <= i < |rows| ==> PadAll(rows, cols)[i] == Pad(rows[i], cols)
    decreases |rows|
  {
    if rows != [] {
      PadAllRows(rows[..|rows| - 1], cols);
    }
  }

  /** Union of the keys of a list of records. */
  function KeysOf(recs: seq<Row>): (ks: set<Column>)
    ensures recs == [] ==> ks == {}
  {
    if recs == [] then {} else KeysOf(recs[..|recs| - 1]) + recs[|recs| - 1].Keys
  }

  /** The union holds every record's keys and nothing else. */
  lemma {:induction false} KeysOfCovers(recs: seq<Row>)
    ensures forall i :: 0 <= i < |recs| ==> recs[i].Keys <= KeysOf(recs)
    ensures forall c :: c in KeysOf(recs) ==> exists i :: 0 <= i < |recs| && c in recs[i]
    decreases |recs|
  {
    if recs != [] {
      KeysOfCovers(recs[..|recs| - 1]);
      forall c | c in KeysOf(recs) ensures exists i :: 0 <= i < |recs| && c in recs[i] {
        if c !in recs[|recs| - 1] {
          var i :| 0 <= i < |recs| - 1 && c in recs[..|recs| - 1][i];
          assert c in recs[i];
        }
      }
    }
  }

  /** pd.DataFrame(list_of_dicts): the columns are the union of the keys. */
  function FromRecords(recs: seq<Row>): (t: Table)
    ensures t.columns == KeysOf(recs) && |t.rows| == |recs|
  {
    var ks := KeysOf(recs);
    Table(ks, PadAll(recs, ks))
  }

  /** pd.concat([a, b], ignore_index=True): rows of a, then rows of b. */
  function Concat(a: Table, b: Table): (t: Table)
    ensures t.columns == a.columns + b.columns
    ensures |t.rows| == |a.rows| + |b.rows|
  {
    var cols := a.columns + b.columns;
    Table(cols, PadAll(a.rows, cols) + PadAll(b.rows, cols))
  }

  /** Each row of pd.DataFrame(records) is its record, padded to the columns, so the table is well formed. */
  lemma FromRecordsRows(recs: seq<Row>)
    ensures FromRecords(recs).Valid()
    ensures forall i :: 0 <= i < |recs| ==> FromRecords(recs).rows[i] == Pad(recs[i], KeysOf(recs))
  {
    PadAllRows(recs, KeysOf(recs));
  }

  /**
   * The rows of a concatenation: a's rows, then b's, each padded to the joint
   * columns; so the concatenation is well formed.
   */
  lemma ConcatRows(a: Table, b: Table)
    ensures Concat(a, b).Valid()
    ensures forall i :: 0 <= i < |a.rows| ==> Concat(a, b).rows[i] == Pad(a.rows[i], a.columns + b.columns)
    ensures forall i :: 0 <= i < |b.rows| ==>
      Concat(a, b).rows[|a.rows| + i] == Pad(b.rows[i], a.columns + b.columns)
  {
    var cols := a.columns + b.columns;
    PadAllRows(a.rows, cols);
    PadAllRows(b.rows, cols);
    var t := Concat(a, b);
    assert t.rows == PadAll(a.rows, cols) + PadAll(b.rows, cols);
    forall i | 0 <= i < |b.rows| ensures t.rows[|a.rows| + i] == Pad(b.rows[i], cols) {
      assert t.rows[|a.rows| + i] == PadAll(b.rows, cols)[i];
    }
  }

  /** Every old row is still there, in place, with its old cells. */
  ghost predicate Extends(old_: Table, new_: Table) {
    && old_.columns <= new_.columns
    && |old_.rows| <= |new_.rows|
    && forall i, c :: 0 <= i < |old_.rows| && c in old_.rows[i] ==>
         c in new_.rows[i] && new_.rows[i][c] == old_.rows[i][c]
  }

  /** `row[c]` of a padded row, or `row.get(c)`: a missing cell reads as Null. */
  function Cell(r: Row, c: Column): (v: Value)
    ensures c !in r ==> v == Null
  {
    if c in r then r[c] else Null
  }

  /** pandas `==` on a cell: NaN equals nothing. */
  predicate CellEquals(v: Value, w: Value) {
    v != Null && v == w
  }
}
