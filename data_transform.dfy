/**
 * `add_quotes_to_string` of the training and prediction data transforms:
 * before a good batch file is loaded into the database, every `class` cell
 * is wrapped in single quotes and every `"na"` cell becomes `"'na'"`.
 *
 * Both transforms apply the same steps to one data frame; the model holds
 * the frame as a class whose columns the method reassigns one at a time.
 */
module DataTransform {
  import opened Wrappers
  import opened Storage

  /** The label column. */
  const ClassColumn: string := "class"

  /** The text the raw files use for a missing sensor reading. */
  const Na: string := "na"

  /** `"na"` once quoted. */
  const QuotedNa: string := "'na'"

  /** `df["class"]` on a frame without that column raises `KeyError`. */
  datatype TransformFault = MissingColumn(name: string)

  /** `str(x)` for a cell: pandas' missing value prints as "nan". */
  function Str(c: Cell): string {
    match c
    case Missing => "nan"
    case Value(t) => t
  }

  /** `lambda x: "'" + str(x) + "'"`. */
  function Quote(c: Cell): Cell {
    Value("'" + Str(c) + "'")
  }

  /** `df["class"].apply(...)`: every cell of the column quoted. */
  function QuoteAll(col: seq<Cell>): seq<Cell> {
    seq(|col|, k requires 0 <= k < |col| => Quote(col[k]))
  }

  /** One cell through `replace("na", "'na'")`. */
  function FixNa(c: Cell): Cell {
    if c == Value(Na) then Value(QuotedNa) else c
  }

  /** `df[column].replace("na", "'na'")`. */
  function ReplaceNa(col: seq<Cell>): seq<Cell> {
    seq(|col|, k requires 0 <= k < |col| => FixNa(col[k]))
  }

  /** `df[column][df[column] == "na"].count()`: the number of `"na"` cells. */
  function CountNa(col: seq<Cell>): (n: nat)
    ensures n == 0 <==> forall k :: 0 <= k < |col| ==> col[k] != Value(Na)
    decreases |col|
  {
    if |col| == 0 then 0
    else (if col[0] == Value(Na) then 1 else 0) + CountNa(col[1..])
  }

  /** The index of the first column called `name`, as `df[name]` finds it. */
  function ColumnIndex(names: seq<string>, name: string): (r: Option<nat>)
    ensures r.None? <==> name !in names
    ensures r.Some? ==>
      && r.value < |names| && names[r.value] == name
      && forall j :: 0 <= j < r.value ==> names[j] != name
    decreases |names|
  {
    if |names| == 0 then None
    else if names[0] == name then Some(0)
    else match ColumnIndex(names[1..], name)
      case None => None
      case Some(j) => Some(j + 1)
  }

  /** A data frame has one name per column and all its columns have the same length. */
  predicate WellFormed(f: Frame) {
    |f.names| == |f.columns| && forall j :: 0 <= j < |f.columns| ==> |f.columns[j]| == |f.columns[0]|
  }

  /** The `na` pass over every column. */
  function NaPass(columns: seq<seq<Cell>>): seq<seq<Cell>> {
    seq(|columns|, j requires 0 <= j < |columns| => ReplaceNa(columns[j]))
  }

  /** What `add_quotes_to_string` turns one frame into. */
  function Transform(f: Frame): Result<Frame, TransformFault> {
    match ColumnIndex(f.names, ClassColumn)
    case None => Fail(MissingColumn(ClassColumn))
    case Some(ci) =>
      if ci < |f.columns| then Ok(Frame(f.names, NaPass(f.columns[ci := QuoteAll(f.columns[ci])])))
      else Fail(MissingColumn(ClassColumn))
  }

  /** A frame held by the transform while its columns are reassigned. */
  class DataFrame {
    const names: seq<string>
    var columns: seq<seq<Cell>>

    constructor (f: Frame)
      ensures names == f.names && columns == f.columns
    {
      names := f.names;
      columns := f.columns;
    }

    /** The frame as a value. */
    function Snapshot(): Frame
      reads this
    {
      Frame(names, columns)
    }

    /**
     * `add_quotes_to_string` on one frame: quote the `class` column, then
     * for every column that holds some `"na"` cell, replace those cells.
     */
    method AddQuotesToString() returns (r: Result<(), TransformFault>)
      requires WellFormed(Snapshot())
      modifies this
      ensures r.Fail? ==> ClassColumn !in names && r == Fail(MissingColumn(ClassColumn)) && columns == old(columns)
      ensures r.Ok? ==> ClassColumn in names && Transform(old(Snapshot())) == Ok(Snapshot())
    {
      var found := ColumnIndex(names, ClassColumn);
      if found.None? {
        return Fail(MissingColumn(ClassColumn));
      }
      var ci := found.value;
      columns := columns[ci := QuoteAll(columns[ci])];
      ghost var quoted := columns;
      for j := 0 to |columns|
        invariant |columns| == |quoted|
        invariant forall i :: 0 <= i < |columns| ==> columns[i] == if i < j then ReplaceNa(quoted[i]) else quoted[i]
      {
        var count := CountNa(columns[j]);
        if count != 0 {
          columns := columns[j := ReplaceNa(columns[j])];
        } else {
          NoNaUnchanged(columns[j]);
        }
      }
      assert columns == NaPass(quoted);
      r := Ok(());
    }
  }

  /** A column without `"na"` is left as it is by the replacement. */
  lemma NoNaUnchanged(col: seq<Cell>)
    requires CountNa(col) == 0
    ensures ReplaceNa(col) == col
  {
  }

  /**
   * The transform keeps the names, the number of columns and the number of
   * rows; every `class` cell `x` becomes `'x'`; in every other column a
   * `"na"` cell becomes `"'na'"` and every other cell stays as it was.
   */
  lemma TransformSpec(f: Frame)
    requires WellFormed(f)
    ensures Transform(f).Fail? <==> ClassColumn !in f.names
    ensures Transform(f).Ok? ==>
      var g, ci := Transform(f).value, ColumnIndex(f.names, ClassColumn).value;
      && WellFormed(g) && g.names == f.names && |g.columns| == |f.columns|
      && (forall j :: 0 <= j < |f.columns| ==> |g.columns[j]| == |f.columns[j]|)
      && (forall k :: 0 <= k < |f.columns[ci]| ==> g.columns[ci][k] == Value("'" + Str(f.columns[ci][k]) + "'"))
      && (forall j, k :: 0 <= j < |f.columns| && j != ci && 0 <= k < |f.columns[j]| ==>
            g.columns[j][k] == if f.columns[j][k] == Value(Na) then Value(QuotedNa) else f.columns[j][k])
  {
    if Transform(f).Ok? {
      var g, ci := Transform(f).value, ColumnIndex(f.names, ClassColumn).value;
      forall k | 0 <= k < |f.columns[ci]|
        ensures g.columns[ci][k] == Value("'" + Str(f.columns[ci][k]) + "'")
      {
        var q := "'" + Str(f.columns[ci][k]) + "'";
        assert q[0] == '\'' && Na[0] == 'n';
        assert Value(q) != Value(Na);
      }
    }
  }

  /** A `class` value `"na"` is quoted once: it ends as `"'na'"`, not `"''na''"`. */
  lemma ClassNaQuotedOnce(f: Frame, k: nat)
    requires WellFormed(f) && ClassColumn in f.names
    requires k < |f.columns[ColumnIndex(f.names, ClassColumn).value]|
    requires f.columns[ColumnIndex(f.names, ClassColumn).value][k] == Value(Na)
    ensures Transform(f).Ok?
    ensures Transform(f).value.columns[ColumnIndex(f.names, ClassColumn).value][k] == Value(QuotedNa)
  {
    TransformSpec(f);
  }

  /** Running the `na` pass again changes nothing. */
  lemma NaPassIdempotent(columns: seq<seq<Cell>>)
    ensures NaPass(NaPass(columns)) == NaPass(columns)
  {
    forall j | 0 <= j < |columns| ensures ReplaceNa(ReplaceNa(columns[j])) == ReplaceNa(columns[j]) {
      assert QuotedNa != Na;
    }
  }

  /** Running the whole transform again adds a second pair of quotes to every `class` cell. */
  lemma TransformTwiceQuotesTwice(f: Frame)
    requires WellFormed(f) && ClassColumn in f.names
    ensures Transform(f).Ok? && Transform(Transform(f).value).Ok?
    ensures var ci := ColumnIndex(f.names, ClassColumn).value;
      var twice := Transform(Transform(f).value).value;
      forall k :: 0 <= k < |f.columns[ci]| ==> twice.columns[ci][k] == Value("''" + Str(f.columns[ci][k]) + "''")
  {
    TransformSpec(f);
    var g := Transform(f).value;
    TransformSpec(g);
    var ci := ColumnIndex(f.names, ClassColumn).value;
    forall k | 0 <= k < |f.columns[ci]|
      ensures Transform(g).value.columns[ci][k] == Value("''" + Str(f.columns[ci][k]) + "''")
    {
      assert "'" + ("'" + Str(f.columns[ci][k]) + "'") + "'" == "''" + Str(f.columns[ci][k]) + "''";
    }
  }

  /** So the transform is not idempotent on any frame with a `class` cell. */
  lemma TransformNotIdempotent(f: Frame)
    requires WellFormed(f) && ClassColumn in f.names
    requires |f.columns[ColumnIndex(f.names, ClassColumn).value]| > 0
    ensures Transform(f).Ok? && Transform(Transform(f).value) != Transform(f)
  {
    TransformSpec(f);
    TransformTwiceQuotesTwice(f);
    var ci := ColumnIndex(f.names, ClassColumn).value;
    var once, twice := Transform(f).value.columns[ci][0], Transform(Transform(f).value).value.columns[ci][0];
    assert |twice.text| == |once.text| + 2;
  }
}
