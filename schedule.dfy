/** The schedule built from a grid already read from its CSV file: row 0
    holds the schedule name and one heading per column, every later row a
    time label and one block name per column. Each column becomes a list of
    blocks kept under its heading, in the order the headings first appear;
    the lists can then be merged around lunch. */
module Schedules {
  import opened Text
  import opened Results
  import opened Headings
  import opened Blocks
  import opened Scanning
  import opened Extraction
  import opened Merging

  /** At least one row, and every row as long as the first. */
  predicate Rectangular(grid: seq<seq<string>>) {
    |grid| > 0 && forall i | 0 <= i < |grid| :: |grid[i]| == |grid[0]|
  }

  /** The time labels: the first cell of every row below the headings. */
  function Labels(grid: seq<seq<string>>): (r: seq<string>)
    requires Rectangular(grid) && |grid[0]| > 0
    ensures |r| == |grid| - 1
  {
    seq(|grid| - 1, i requires 0 <= i < |grid| - 1 => grid[i + 1][0])
  }

  /** The cells of column `col` below its heading. */
  function Cells(grid: seq<seq<string>>, col: nat): (r: seq<string>)
    requires Rectangular(grid) && col < |grid[0]|
    ensures |r| == |grid| - 1
  {
    seq(|grid| - 1, i requires 0 <= i < |grid| - 1 => grid[i + 1][col])
  }

  /** One heading and the blocks stored under it. */
  datatype Entry = Entry(day: string, blocks: seq<Block>)

  /** The ordered dictionary of columns: one entry per heading, in the order
      the headings were first stored. */
  type Table = seq<Entry>

  /** Each heading is stored once. */
  predicate Distinct(t: Table) {
    forall i, j | 0 <= i < j < |t| :: t[i].day != t[j].day
  }

  /** The headings of a table, in order. */
  function KeysOf(t: Table): seq<string> {
    seq(|t|, i requires 0 <= i < |t| => t[i].day)
  }

  /** Where `day` is stored: the first entry with that heading, or `|t|` when
      there is none. */
  function IndexOf(t: Table, day: string): (r: nat)
    ensures r <= |t|
    ensures r < |t| ==> t[r].day == day
    ensures forall i | 0 <= i < r :: t[i].day != day
    decreases |t|
  {
    if |t| == 0 then 0
    else if t[0].day == day then 0
    else 1 + IndexOf(t[1..], day)
  }

  /** Storing a column under its heading, as an ordered dictionary does: a
      new heading goes last, a repeated one keeps its place and gets the new
      blocks. */
  function Insert(t: Table, day: string, blocks: seq<Block>): Table {
    var i := IndexOf(t, day);
    if i < |t| then t[i := Entry(day, blocks)] else t + [Entry(day, blocks)]
  }

  /** The headings in the order they first occur, each once: the key order
      of an ordered dictionary filled with `days` in turn. */
  function Firsts(days: seq<string>): seq<string>
    decreases |days|
  {
    if |days| == 0 then []
    else
      var p := Firsts(days[..|days| - 1]);
      if days[|days| - 1] in p then p else p + [days[|days| - 1]]
  }

  /** The blocks of column `col`: the row of time labels must exist, the
      heading must parse (its lunch, or the schedule name as the default
      lunch, goes into every block), the pre-scan must parse the labels it
      reads, and then the column's runs become blocks. */
  function ColumnOf(grid: seq<seq<string>>, col: nat): Result<seq<Block>>
    requires Rectangular(grid) && 1 <= col < |grid[0]|
  {
    if |grid| < 2 then Failure(MissingRow)
    else
      var day := grid[0][col];
      var hd :- Parse(day, Some(grid[0][0]));
      var s :- Scan(Labels(grid), Cells(grid, col));
      Extracted(Labels(grid), Cells(grid, col), Context(col, day, hd.lunch, s.b2o.last, s.o2b.first))
  }

  /** The headings of the block columns, left to right. */
  function Days(grid: seq<seq<string>>): (r: seq<string>)
    requires Rectangular(grid)
    ensures |r| == if |grid[0]| == 0 then 0 else |grid[0]| - 1
  {
    if |grid[0]| == 0 then [] else grid[0][1..]
  }

  /** What reading each block column gives, left to right, from column
      `col` on. */
  function Columns(grid: seq<seq<string>>, col: nat): (r: seq<Result<seq<Block>>>)
    requires Rectangular(grid) && 1 <= col
    ensures |r| == if col < |grid[0]| then |grid[0]| - col else 0
    decreases |grid[0]| - col
  {
    if col < |grid[0]| then [ColumnOf(grid, col)] + Columns(grid, col + 1) else []
  }

  /** The reading of column `col` is the one listed for it. */
  lemma {:induction false} ColumnsAt(grid: seq<seq<string>>, from: nat, col: nat)
    requires Rectangular(grid) && 1 <= from <= col < |grid[0]|
    ensures Columns(grid, from)[col - from] == ColumnOf(grid, col)
    decreases col - from
  {
    if from < col {
      ColumnsAt(grid, from + 1, col);
    }
  }

  /** The table of columns read in order, each stored under its heading;
      the first column that fails is the error. */
  function Stored(days: seq<string>, cols: seq<Result<seq<Block>>>): Result<Table>
    requires |days| == |cols|
    decreases |days|
  {
    if |days| == 0 then Success([])
    else
      var n := |days| - 1;
      var t :- Stored(days[..n], cols[..n]);
      var bs :- cols[n];
      Success(Insert(t, days[n], bs))
  }

  /** The table of the whole grid, which must be rectangular. */
  function Built(grid: seq<seq<string>>): Result<Table> {
    if !Rectangular(grid) then Failure(NotRectangular) else Stored(Days(grid), Columns(grid, 1))
  }

  /** The column loop of the schedule builder: each column is extracted and
      stored under its heading. */
  method Build(grid: seq<seq<string>>) returns (r: Result<Table>)
    ensures r == Built(grid)
  {
    if !Rectangular(grid) {
      return Failure(NotRectangular);
    }
    ghost var days, cols := Days(grid), Columns(grid, 1);
    var t := [];
    var col := 1;
    while col < |grid[0]|
      invariant 1 <= col && col - 1 <= |days|
      invariant Stored(days[..col - 1], cols[..col - 1]) == Success(t)
    {
      var bs := BuildColumn(grid, col);
      ColumnsAt(grid, 1, col);
      StoredStep(days, cols, col - 1);
      if bs.Failure? {
        StoredFailurePersists(days, cols, col);
        return Failure(bs.error);
      }
      t := Insert(t, grid[0][col], bs.value);
      col := col + 1;
    }
    assert days[..col - 1] == days && cols[..col - 1] == cols;
    return Success(t);
  }

  /** One column: the headings and first row are read, then the pre-scan,
      then the extraction loop. */
  method BuildColumn(grid: seq<seq<string>>, col: nat) returns (r: Result<seq<Block>>)
    requires Rectangular(grid) && 1 <= col < |grid[0]|
    ensures r == ColumnOf(grid, col)
  {
    if |grid| < 2 {
      return Failure(MissingRow);
    }
    var day := grid[0][col];
    var hd := Parse(day, Some(grid[0][0]));
    if hd.Failure? {
      return Failure(hd.error);
    }
    var labels, cells := Labels(grid), Cells(grid, col);
    var s := ScanPassing(labels, cells);
    if s.Failure? {
      return Failure(s.error);
    }
    var ctx := Context(col, day, hd.value.lunch, s.value.b2o.last, s.value.o2b.first);
    r := ExtractBlocks(labels, cells, ctx);
  }

  /** One more column read. */
  lemma StoredStep(days: seq<string>, cols: seq<Result<seq<Block>>>, k: nat)
    requires |days| == |cols| && k < |days|
    ensures Stored(days[..k + 1], cols[..k + 1]) ==
      match Stored(days[..k], cols[..k])
      case Failure(e) => Failure(e)
      case Success(t) => match cols[k] case Failure(e) => Failure(e) case Success(bs) => Success(Insert(t, days[k], bs))
  {
    assert days[..k + 1][..k] == days[..k] && cols[..k + 1][..k] == cols[..k];
  }

  /** Once a column fails, reading more columns fails with the same error. */
  lemma {:induction false} StoredFailurePersists(days: seq<string>, cols: seq<Result<seq<Block>>>, k: nat)
    requires |days| == |cols| && k <= |days| && Stored(days[..k], cols[..k]).Failure?
    ensures Stored(days, cols) == Stored(days[..k], cols[..k])
    decreases |days|
  {
    if k < |days| {
      var n := |days| - 1;
      assert days[..n][..k] == days[..k] && cols[..n][..k] == cols[..k];
      StoredFailurePersists(days[..n], cols[..n], k);
    } else {
      assert days[..k] == days && cols[..k] == cols;
    }
  }

  /** A grid that is not rectangular (or has no row) is refused first; a
      grid whose only column is the time labels has no blocks; a grid with
      block columns but no row below the headings fails with a missing
      row. */
  lemma BuiltEdges(grid: seq<seq<string>>)
    ensures !Rectangular(grid) ==> Built(grid) == Failure(NotRectangular)
    ensures Rectangular(grid) && |grid[0]| <= 1 ==> Built(grid) == Success([])
    ensures Rectangular(grid) && |grid[0]| >= 2 && |grid| < 2 ==> Built(grid) == Failure(MissingRow)
  {
    if Rectangular(grid) && |grid[0]| >= 2 && |grid| < 2 {
      var days, cols := Days(grid), Columns(grid, 1);
      assert cols[0] == ColumnOf(grid, 1) == Failure(MissingRow);
      StoredStep(days, cols, 0);
      assert days[..0] == [] && cols[..0] == [];
      StoredFailurePersists(days, cols, 1);
    }
  }

  /** Storing a column keeps each heading once, adds its heading at the end
      when it is new, puts the blocks under it, and leaves every other
      heading's blocks alone. */
  lemma InsertKeeps(t: Table, day: string, blocks: seq<Block>)
    requires Distinct(t)
    ensures Distinct(Insert(t, day, blocks))
    ensures KeysOf(Insert(t, day, blocks)) == if day in KeysOf(t) then KeysOf(t) else KeysOf(t) + [day]
    ensures Insert(t, day, blocks)[IndexOf(t, day)] == Entry(day, blocks)
    ensures forall i | 0 <= i < |t| && t[i].day != day :: Insert(t, day, blocks)[i] == t[i]
  {
    var i := IndexOf(t, day);
    if i < |t| {
      assert day in KeysOf(t) by { assert KeysOf(t)[i] == day; }
      assert KeysOf(Insert(t, day, blocks)) == KeysOf(t);
    } else {
      assert day !in KeysOf(t);
      assert KeysOf(Insert(t, day, blocks)) == KeysOf(t) + [day];
    }
  }

  /** The headings kept by an ordered dictionary are each kept once, and
      they are exactly the headings stored. */
  lemma {:induction false} FirstsShape(days: seq<string>)
    ensures forall i, j | 0 <= i < j < |Firsts(days)| :: Firsts(days)[i] != Firsts(days)[j]
    ensures forall d :: d in Firsts(days) <==> d in days
    decreases |days|
  {
    if |days| > 0 {
      var n := |days| - 1;
      FirstsShape(days[..n]);
      assert days == days[..n] + [days[n]];
    }
  }

  /** Reading succeeds exactly when every column does. */
  lemma {:induction false} StoredOk(days: seq<string>, cols: seq<Result<seq<Block>>>)
    requires |days| == |cols|
    ensures Stored(days, cols).Success? <==> forall i | 0 <= i < |cols| :: cols[i].Success?
    decreases |days|
  {
    if |days| > 0 {
      var n := |days| - 1;
      StoredOk(days[..n], cols[..n]);
      assert forall i | 0 <= i < n :: cols[..n][i] == cols[i];
    }
  }

  /** A table read in full holds each heading once, in the order the
      headings first occur. */
  lemma {:induction false} StoredKeys(days: seq<string>, cols: seq<Result<seq<Block>>>)
    requires |days| == |cols| && Stored(days, cols).Success?
    ensures Distinct(Stored(days, cols).value)
    ensures KeysOf(Stored(days, cols).value) == Firsts(days)
    decreases |days|
  {
    if |days| > 0 {
      var n := |days| - 1;
      var t := Stored(days[..n], cols[..n]).value;
      StoredKeys(days[..n], cols[..n]);
      InsertKeeps(t, days[n], cols[n].value);
    }
  }

  /** The last column with a given heading is the one whose blocks are
      kept: a repeated heading gets the blocks of its last column. */
  lemma {:induction false} StoredLastWins(days: seq<string>, cols: seq<Result<seq<Block>>>, i: nat)
    requires |days| == |cols| && Stored(days, cols).Success?
    requires i < |days| && forall j | i < j < |days| :: days[j] != days[i]
    ensures cols[i].Success?
    ensures IndexOf(Stored(days, cols).value, days[i]) < |Stored(days, cols).value|
    ensures Stored(days, cols).value[IndexOf(Stored(days, cols).value, days[i])].blocks == cols[i].value
    decreases |days|
  {
    var n := |days| - 1;
    assert Stored(days[..n], cols[..n]).Success? && cols[n].Success?;
    var t := Stored(days[..n], cols[..n]).value;
    var u := Insert(t, days[n], cols[n].value);
    assert Stored(days, cols) == Success(u);
    StoredKeys(days[..n], cols[..n]);
    InsertKeeps(t, days[n], cols[n].value);
    if i < n {
      StoredLastWins(days[..n], cols[..n], i);
      assert days[..n][i] == days[i] && cols[..n][i] == cols[i];
      var k := IndexOf(t, days[i]);
      assert t[k].day != days[n];
      assert u[k] == t[k];
      IndexOfUnique(u, k);
    } else {
      IndexOfUnique(u, IndexOf(t, days[n]));
    }
  }

  /** In a table that holds each heading once, a heading's entry is found
      where it is. */
  lemma IndexOfUnique(t: Table, k: nat)
    requires Distinct(t) && k < |t|
    ensures IndexOf(t, t[k].day) == k
  {
  }

  /** A grid's table holds each heading once, in the order the headings of
      the block columns first occur. */
  lemma BuiltKeys(grid: seq<seq<string>>)
    requires Built(grid).Success?
    ensures Distinct(Built(grid).value)
    ensures KeysOf(Built(grid).value) == Firsts(Days(grid))
  {
    StoredKeys(Days(grid), Columns(grid, 1));
  }

  /** Applying `f` to the blocks of the first `k` entries, in heading
      order; the first failure is the error. */
  function Remapped(t: Table, k: nat, f: seq<Block> -> Result<seq<Block>>): (r: Result<Table>)
    requires k <= |t|
    ensures r.Success? ==> |r.value| == |t|
    decreases k
  {
    if k == 0 then Success(t)
    else
      var m :- Remapped(t, k - 1, f);
      var bs :- f(t[k - 1].blocks);
      Success(m[k - 1 := Entry(t[k - 1].day, bs)])
  }

  /** Remapping keeps the headings and their order; each of the first `k`
      entries gets what `f` gives for its blocks and every other entry is
      left as it was. It fails exactly when `f` fails on one of those
      entries. */
  lemma {:induction false} RemappedShape(t: Table, k: nat, f: seq<Block> -> Result<seq<Block>>)
    requires k <= |t|
    ensures Remapped(t, k, f).Success? <==> forall i | 0 <= i < k :: f(t[i].blocks).Success?
    ensures Remapped(t, k, f).Success? ==>
      (forall i | 0 <= i < k :: Remapped(t, k, f).value[i] == Entry(t[i].day, f(t[i].blocks).value)) &&
      (forall i | k <= i < |t| :: Remapped(t, k, f).value[i] == t[i])
    decreases k
  {
    if k > 0 {
      RemappedShape(t, k - 1, f);
    }
  }

  /** An entry past the first `k` is left as it was. */
  lemma {:induction false} RemappedRest(t: Table, k: nat, f: seq<Block> -> Result<seq<Block>>, i: nat)
    requires k <= i < |t| && Remapped(t, k, f).Success?
    ensures Remapped(t, k, f).value[i] == t[i]
    decreases k
  {
    if k > 0 {
      RemappedRest(t, k - 1, f, i);
    }
  }

  /** Once an entry fails, remapping more entries fails with the same
      error. */
  lemma {:induction false} RemappedFailurePersists(t: Table, k: nat, n: nat, f: seq<Block> -> Result<seq<Block>>)
    requires k <= n <= |t| && Remapped(t, k, f).Failure?
    ensures Remapped(t, n, f) == Remapped(t, k, f)
    decreases n
  {
    if k < n {
      RemappedFailurePersists(t, k, n - 1, f);
    }
  }

  /** Merging every column of a table fails exactly when one of its columns
      ends with a lunch; otherwise each column is replaced by its merge,
      under the same heading. */
  lemma MergedTable(t: Table)
    ensures Remapped(t, |t|, Merged).Failure? <==>
      exists i | 0 <= i < |t| :: |t[i].blocks| > 0 && t[i].blocks[|t[i].blocks| - 1].IsLunch()
    ensures Remapped(t, |t|, Merged).Failure? ==> Remapped(t, |t|, Merged).error == LunchAtEnd
    ensures Remapped(t, |t|, Merged).Success? ==>
      forall i | 0 <= i < |t| :: Remapped(t, |t|, Merged).value[i] == Entry(t[i].day, Merged(t[i].blocks).value)
  {
    RemappedShape(t, |t|, Merged);
    forall i | 0 <= i < |t| {
      MergeFails(t[i].blocks);
    }
    if Remapped(t, |t|, Merged).Failure? {
      RemappedError(t, |t|);
    }
  }

  /** A failed merge of the first `k` columns is a lunch at the end of one. */
  lemma {:induction false} RemappedError(t: Table, k: nat)
    requires k <= |t| && Remapped(t, k, Merged).Failure?
    ensures Remapped(t, k, Merged).error == LunchAtEnd
    decreases k
  {
    if Remapped(t, k - 1, Merged).Failure? {
      RemappedError(t, k - 1);
    } else {
      MergeFails(t[k - 1].blocks);
    }
  }

  /** One schedule: the grid it was read from and the ordered dictionary of
      its columns. */
  class Schedule {
    const grid: seq<seq<string>>
    var table: Table

    /** Each heading is stored once. */
    predicate Valid()
      reads this
    {
      Distinct(table)
    }

    /** A schedule over a grid, with no column read yet. */
    constructor(grid: seq<seq<string>>)
      ensures this.grid == grid && table == []
      ensures Valid()
    {
      this.grid := grid;
      table := [];
    }

    /** Reads every column of the grid into the table, then, when `merged`
        is set, merges passing time into lunch. The table is stored only
        when every column was read. */
    method Init(merged: bool) returns (r: Outcome)
      requires Valid()
      modifies this
      ensures Valid()
      ensures Built(grid).Failure? ==> r == Fail(Built(grid).error) && table == old(table)
      ensures Built(grid).Success? && !merged ==> r == Pass && table == Built(grid).value
      ensures Built(grid).Success? && merged ==>
        KeysOf(table) == KeysOf(Built(grid).value) &&
        (r.Pass? <==> Remapped(Built(grid).value, |table|, Merged).Success?) &&
        (r.Pass? ==> table == Remapped(Built(grid).value, |table|, Merged).value) &&
        (!r.Pass? ==> r == Fail(LunchAtEnd))
    {
      var t := Build(grid);
      if t.Failure? {
        return Fail(t.error);
      }
      BuiltKeys(grid);
      table := t.value;
      r := Pass;
      if merged {
        r := Merge();
      }
    }

    /** Merges passing time into lunch in every column, in heading order,
        replacing each column in place. A column that ends with a lunch
        stops the merge with that error. */
    method Merge() returns (r: Outcome)
      requires Valid()
      modifies this
      ensures Valid() && KeysOf(table) == KeysOf(old(table))
      ensures Remapped(old(table), |table|, Merged).Success? ==>
        r == Pass && table == Remapped(old(table), |table|, Merged).value
      ensures Remapped(old(table), |table|, Merged).Failure? ==> r == Fail(LunchAtEnd)
    {
      ghost var t := table;
      var i := 0;
      while i < |table|
        invariant i <= |table| == |t|
        invariant Remapped(t, i, Merged) == Success(table)
        invariant forall j | 0 <= j < |t| :: table[j].day == t[j].day
      {
        RemappedRest(t, i, Merged, i);
        var bs := MergeColumn(table[i].blocks);
        if bs.Failure? {
          RemappedFailurePersists(t, i + 1, |t|, Merged);
          RemappedError(t, |t|);
          return Fail(bs.error);
        }
        table := table[i := Entry(table[i].day, bs.value)];
        i := i + 1;
      }
      assert KeysOf(table) == KeysOf(t);
      r := Pass;
    }
  }
}
