// The roster table as the dashboard holds it in memory: a column-oriented
// frame whose columns all have one length, and the errors its lookups raise.
module Frames {
  import opened Cells

  /** A table: its header row in order, the cells of each column, and its
      number of rows. */
  datatype Table = Table(columns: seq<string>, data: map<string, seq<Cell>>, height: nat)

  /** Every listed column has cells, every column has one cell per row, and
      no header is repeated. */
  predicate Rectangular(t: Table)
  {
    && (forall c | c in t.columns :: c in t.data)
    && (forall c | c in t.data :: c in t.columns)
    && (forall c | c in t.data :: |t.data[c]| == t.height)
    && (forall i, j | 0 <= i < j < |t.columns| :: t.columns[i] != t.columns[j])
  }

  type Frame = t: Table | Rectangular(t) witness Table([], map[], 0)

  /** Why a lookup fails: a column that is not in the frame (pandas' KeyError),
      or the first row of an empty result (`.iloc[0]`, an IndexError). */
  datatype Error = KeyError(column: string) | IndexError

  datatype Result<T> = Ok(value: T) | Err(error: Error)

  /** `frame[name] = cells`: replaces an existing column, or appends a new one
      at the end of the header row; every other column is left as it was. */
  function SetColumn(t: Frame, name: string, cells: seq<Cell>): (r: Frame)
    requires |cells| == t.height
    ensures r.height == t.height
    ensures r.columns == if name in t.data then t.columns else t.columns + [name]
    ensures name in r.data && r.data[name] == cells
    ensures forall c :: c in r.data <==> c in t.data || c == name
    ensures forall c | c in t.data && c != name :: r.data[c] == t.data[c]
  {
    var columns := if name in t.data then t.columns else t.columns + [name];
    var r := Table(columns, t.data[name := cells], t.height);
    assert forall c | c in r.data :: c in r.columns;
    r
  }

  /** A column of numbers as table cells. */
  function Nums(values: seq<real>): (r: seq<Cell>)
    ensures |r| == |values| && forall k | 0 <= k < |values| :: r[k] == Num(values[k])
  {
    seq(|values|, k requires 0 <= k < |values| => Num(values[k]))
  }

  /** Reads a column of a frame back as numbers. The grouping sums apply it
      only to the `player_points` column of a scored frame, which holds
      numbers alone (`ValuesOfNums`); there every cell keeps its value. On a
      text cell pandas would concatenate or raise instead, which the model
      does not follow: it counts a non-number as 0. */
  function Values(cells: seq<Cell>): (r: seq<real>)
    ensures |r| == |cells|
    ensures forall k | 0 <= k < |cells| :: r[k] == (if cells[k].Num? then cells[k].value else 0.0)
  {
    seq(|cells|, k requires 0 <= k < |cells| => if cells[k].Num? then cells[k].value else 0.0)
  }

  lemma ValuesOfNums(values: seq<real>)
    ensures Values(Nums(values)) == values
  {
  }
}
