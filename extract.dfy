/** Block extraction for one column of the grid: every maximal run of equal
    cells becomes one block, placed at BHS or OLS, except that empty cells
    make no block and the run still open at the last row is dropped. */
module Extraction {
  import opened Text
  import opened Headings
  import opened Results
  import opened Times
  import opened Blocks
  import opened Scanning

  /** A maximal run of equal cells: rows `lo` up to (not including) `hi`,
      from the minute of its first row to the minute of its last row. */
  datatype Run = Run(name: string, lo: nat, hi: nat, start: int, end: int)

  /** The runs of a column, row by row: a row equal to the open run extends
      it, any other row opens a new run. */
  function Runs(cells: seq<string>, ms: seq<int>): seq<Run>
    requires |cells| == |ms|
    decreases |cells|
  {
    if |cells| == 0 then []
    else
      var n := |cells| - 1;
      var rs := Runs(cells[..n], ms[..n]);
      if rs != [] && cells[n] == rs[|rs| - 1].name then rs[..|rs| - 1] + [rs[|rs| - 1].(hi := n + 1, end := ms[n])]
      else rs + [Run(cells[n], n, n + 1, ms[n], ms[n])]
  }

  /** `rs` cuts the rows of a column into consecutive non-empty runs, each of
      equal cells, each different from the one before, and each carrying the
      minutes of its first and last row. */
  ghost predicate IsSegmentation(cells: seq<string>, ms: seq<int>, rs: seq<Run>)
    requires |cells| == |ms|
  {
    Tiles(|cells|, rs) && Timed(ms, rs) && Uniform(cells, rs) && Maximal(rs)
  }

  /** The runs cover rows 0 to `n`, one after the other, none empty. */
  ghost predicate Tiles(n: nat, rs: seq<Run>) {
    (|rs| == 0 <==> n == 0) &&
    (|rs| > 0 ==> rs[0].lo == 0 && rs[|rs| - 1].hi == n) &&
    (forall k | 0 <= k < |rs| :: rs[k].lo < rs[k].hi <= n) &&
    (forall k | 0 < k < |rs| :: rs[k].lo == rs[k - 1].hi)
  }

  /** Each run carries the minutes of its first and last row. */
  ghost predicate Timed(ms: seq<int>, rs: seq<Run>)
    requires Tiles(|ms|, rs)
  {
    forall k | 0 <= k < |rs| :: rs[k].start == ms[rs[k].lo] && rs[k].end == ms[rs[k].hi - 1]
  }

  /** Each run's cells are its name. */
  ghost predicate Uniform(cells: seq<string>, rs: seq<Run>)
    requires Tiles(|cells|, rs)
  {
    forall k, i | 0 <= k < |rs| && rs[k].lo <= i < rs[k].hi :: cells[i] == rs[k].name
  }

  /** No run could be longer: neighbouring runs have different names. */
  ghost predicate Maximal(rs: seq<Run>) {
    forall k | 0 < k < |rs| :: rs[k].name != rs[k - 1].name
  }

  /** The runs are the segmentation of the column into maximal runs. */
  lemma {:induction false} RunsSegment(cells: seq<string>, ms: seq<int>)
    requires |cells| == |ms|
    ensures IsSegmentation(cells, ms, Runs(cells, ms))
    decreases |cells|
  {
    if |cells| > 0 {
      var n := |cells| - 1;
      RunsSegment(cells[..n], ms[..n]);
      var rs := Runs(cells[..n], ms[..n]);
      if rs != [] && cells[n] == rs[|rs| - 1].name {
        var last := rs[|rs| - 1].(hi := n + 1, end := ms[n]);
        ExtendTimed(ms, rs);
        ExtendUniform(cells, rs, ms[n]);
        assert Maximal(rs[..|rs| - 1] + [last]);
      } else {
        var r := Run(cells[n], n, n + 1, ms[n], ms[n]);
        OpenTimed(ms, rs, r);
        OpenUniform(cells, rs, r);
        assert Maximal(rs + [r]);
      }
    }
  }

  lemma ExtendTiles(n: nat, rs: seq<Run>, e: int)
    requires Tiles(n, rs) && rs != []
    ensures Tiles(n + 1, rs[..|rs| - 1] + [rs[|rs| - 1].(hi := n + 1, end := e)])
  {
  }

  lemma ExtendTimed(ms: seq<int>, rs: seq<Run>)
    requires |ms| > 0 && Tiles(|ms| - 1, rs) && rs != [] && Timed(ms[..|ms| - 1], rs)
    ensures var n := |ms| - 1;
      Tiles(n + 1, rs[..|rs| - 1] + [rs[|rs| - 1].(hi := n + 1, end := ms[n])]) &&
      Timed(ms, rs[..|rs| - 1] + [rs[|rs| - 1].(hi := n + 1, end := ms[n])])
  {
    var n := |ms| - 1;
    ExtendTiles(n, rs, ms[n]);
    var rs' := rs[..|rs| - 1] + [rs[|rs| - 1].(hi := n + 1, end := ms[n])];
    forall k | 0 <= k < |rs'| ensures rs'[k].start == ms[rs'[k].lo] && rs'[k].end == ms[rs'[k].hi - 1] {
      assert ms[..n][rs[k].lo] == ms[rs[k].lo];
      if k < |rs| - 1 {
        assert ms[..n][rs[k].hi - 1] == ms[rs[k].hi - 1];
      }
    }
  }

  lemma ExtendUniform(cells: seq<string>, rs: seq<Run>, e: int)
    requires |cells| > 0 && Tiles(|cells| - 1, rs) && rs != [] && Uniform(cells[..|cells| - 1], rs)
    requires cells[|cells| - 1] == rs[|rs| - 1].name
    ensures var n := |cells| - 1;
      Tiles(n + 1, rs[..|rs| - 1] + [rs[|rs| - 1].(hi := n + 1, end := e)]) &&
      Uniform(cells, rs[..|rs| - 1] + [rs[|rs| - 1].(hi := n + 1, end := e)])
  {
    var n := |cells| - 1;
    ExtendTiles(n, rs, e);
    var rs' := rs[..|rs| - 1] + [rs[|rs| - 1].(hi := n + 1, end := e)];
    forall k, i | 0 <= k < |rs'| && rs'[k].lo <= i < rs'[k].hi ensures cells[i] == rs'[k].name {
      if i < n {
        assert cells[..n][i] == cells[i];
      }
    }
  }

  lemma OpenTiles(n: nat, rs: seq<Run>, r: Run)
    requires Tiles(n, rs) && r.lo == n && r.hi == n + 1
    ensures Tiles(n + 1, rs + [r])
  {
  }

  lemma OpenTimed(ms: seq<int>, rs: seq<Run>, r: Run)
    requires |ms| > 0 && Tiles(|ms| - 1, rs) && Timed(ms[..|ms| - 1], rs)
    requires r.lo == |ms| - 1 && r.hi == |ms| && r.start == ms[|ms| - 1] && r.end == ms[|ms| - 1]
    ensures Tiles(|ms|, rs + [r]) && Timed(ms, rs + [r])
  {
    var n := |ms| - 1;
    OpenTiles(n, rs, r);
    var rs' := rs + [r];
    forall k | 0 <= k < |rs'| ensures rs'[k].start == ms[rs'[k].lo] && rs'[k].end == ms[rs'[k].hi - 1] {
      if k < |rs| {
        assert ms[..n][rs[k].lo] == ms[rs[k].lo];
        assert ms[..n][rs[k].hi - 1] == ms[rs[k].hi - 1];
      }
    }
  }

  lemma OpenUniform(cells: seq<string>, rs: seq<Run>, r: Run)
    requires |cells| > 0 && Tiles(|cells| - 1, rs) && Uniform(cells[..|cells| - 1], rs)
    requires r.lo == |cells| - 1 && r.hi == |cells| && r.name == cells[|cells| - 1]
    ensures Tiles(|cells|, rs + [r]) && Uniform(cells, rs + [r])
  {
    var n := |cells| - 1;
    OpenTiles(n, rs, r);
    var rs' := rs + [r];
    forall k, i | 0 <= k < |rs'| && rs'[k].lo <= i < rs'[k].hi ensures cells[i] == rs'[k].name {
      if k < |rs| {
        assert cells[..n][i] == cells[i];
      }
    }
  }

  /** What a block's placement depends on besides its own run: the column,
      its heading and lunch, the last minute of PB2O and the first of PO2B. */
  datatype Context = Context(column: nat, day: string, lunch: Option<string>,
                             lastB2O: Option<int>, firstO2B: Option<int>)

  /** Where a block takes place: a passing token names itself; a RED column
      is at OLS once it starts after the last PB2O (or with no PB2O); a BLUE
      column is at OLS while it ends before the first PO2B (or with no PO2B);
      everything else is at BHS. Placement looks for "BLUE" in the day
      although the cohort test for the blue cohort looks for "BLU". */
  function School(name: string, start: int, end: int, ctx: Context): string {
    if Contains(name, "PB2O") || Contains(name, "PO2B") then name
    else if (Contains(Upper(ctx.day), "RED") && (ctx.lastB2O.None? || start > ctx.lastB2O.value))
         || (Contains(Upper(ctx.day), "BLUE") && (ctx.firstO2B.None? || end < ctx.firstO2B.value)) then "OLS"
    else "BHS"
  }

  function MakeBlock(name: string, start: int, end: int, ctx: Context): Block {
    Block(name, start, end, School(name, start, end, ctx), ctx.column, ctx.day, ctx.lunch)
  }

  /** One block per run with a non-empty name, in order. */
  function BlocksOf(rs: seq<Run>, ctx: Context): seq<Block>
    decreases |rs|
  {
    if |rs| == 0 then []
    else
      var r := rs[|rs| - 1];
      BlocksOf(rs[..|rs| - 1], ctx) + if r.name != "" then [MakeBlock(r.name, r.start, r.end, ctx)] else []
  }

  /** All runs but the one still open at the last row. */
  function Closed(rs: seq<Run>): seq<Run> {
    if rs == [] then [] else rs[..|rs| - 1]
  }

  /** The blocks of a column with time labels `labels` and cells `cells`:
      every label is parsed (the first that fails is the error), then every
      closed run with a non-empty name is a block. */
  function Extracted(labels: seq<string>, cells: seq<string>, ctx: Context): Result<seq<Block>>
    requires |labels| == |cells|
  {
    var ms :- Minutes(labels);
    Success(BlocksOf(Closed(Runs(cells, ms)), ctx))
  }

  /** The extraction loop as the source writes it: the open run's name,
      start and end, a block appended whenever a row differs from the open
      run (unless the run's name is empty), and the label of every row
      parsed. */
  method ExtractBlocks(labels: seq<string>, cells: seq<string>, ctx: Context) returns (r: Result<seq<Block>>)
    requires |labels| == |cells| > 0
    ensures r == Extracted(labels, cells, ctx)
  {
    var m0 := Minute(labels[0]);
    if m0.Failure? {
      assert labels[..1][..0] == [] && labels[..1][0] == labels[0];
      MinutesFailurePersists(labels, 1);
      return Failure(m0.error);
    }
    var name, start, end := cells[0], m0.value, m0.value;
    var blocks := [];
    ghost var ms := [m0.value];
    ghost var rs := ExtractStart(labels, cells, m0.value);
    var k := 1;
    while k < |labels|
      invariant 1 <= k <= |labels|
      invariant Minutes(labels[..k]) == Success(ms)
      invariant rs == Runs(cells[..k], ms) && rs != []
      invariant rs[|rs| - 1].name == name && rs[|rs| - 1].start == start && rs[|rs| - 1].end == end
      invariant blocks == BlocksOf(Closed(rs), ctx)
    {
      var mr := Minute(labels[k]);
      if mr.Failure? {
        assert labels[..k + 1][..k] == labels[..k];
        MinutesFailurePersists(labels, k + 1);
        return Failure(mr.error);
      }
      ExtractStep(labels, cells, ms, k, mr.value, ctx);
      if cells[k] == name {
        end := mr.value;
        rs := rs[..|rs| - 1] + [rs[|rs| - 1].(hi := k + 1, end := mr.value)];
      } else {
        if name != "" {
          blocks := blocks + [MakeBlock(name, start, end, ctx)];
        }
        name := cells[k];
        start, end := mr.value, mr.value;
        rs := rs + [Run(cells[k], k, k + 1, mr.value, mr.value)];
      }
      ms := ms + [mr.value];
      k := k + 1;
    }
    assert labels[..k] == labels && cells[..k] == cells;
    r := Success(blocks);
  }

  /** The state of the extraction loop after the first row: one label
      parsed, one run open, no block yet. */
  lemma ExtractStart(labels: seq<string>, cells: seq<string>, m0: int) returns (rs: seq<Run>)
    requires |labels| == |cells| > 0 && Minute(labels[0]) == Success(m0)
    ensures Minutes(labels[..1]) == Success([m0])
    ensures rs == Runs(cells[..1], [m0]) && rs == [Run(cells[0], 0, 1, m0, m0)] && Closed(rs) == []
  {
    var l1 := labels[..1];
    assert l1[..0] == [] && l1[0] == labels[0] && |l1| == 1;
    assert Minutes(l1[..0]) == Success([]);
    assert [] + [m0] == [m0];
    assert cells[..1][..0] == [] && [m0][..0] == [] && cells[..1][0] == cells[0];
    rs := Runs(cells[..1], [m0]);
  }

  /** One row of the extraction loop, on the runs: the minutes and the runs
      of one more row. */
  lemma ExtractStep(labels: seq<string>, cells: seq<string>, ms: seq<int>, k: nat, m: int, ctx: Context)
    requires |labels| == |cells| && 1 <= k < |labels| && Minutes(labels[..k]) == Success(ms)
    requires Minute(labels[k]) == Success(m)
    requires Runs(cells[..k], ms) != []
    ensures Minutes(labels[..k + 1]) == Success(ms + [m])
    ensures var rs, rs' := Runs(cells[..k], ms), Runs(cells[..k + 1], ms + [m]);
      var last := rs[|rs| - 1];
      if cells[k] == last.name then
        rs' == rs[..|rs| - 1] + [last.(hi := k + 1, end := m)] &&
        BlocksOf(Closed(rs'), ctx) == BlocksOf(Closed(rs), ctx)
      else
        rs' == rs + [Run(cells[k], k, k + 1, m, m)] &&
        BlocksOf(Closed(rs'), ctx) == BlocksOf(Closed(rs), ctx) + if last.name != "" then [MakeBlock(last.name, last.start, last.end, ctx)] else []
  {
    assert labels[..k + 1][..k] == labels[..k];
    assert cells[..k + 1][..k] == cells[..k] && (ms + [m])[..k] == ms;
    var rs := Runs(cells[..k], ms);
    var rs' := Runs(cells[..k + 1], ms + [m]);
    if cells[k] == rs[|rs| - 1].name {
      assert Closed(rs') == rs[..|rs| - 1];
    } else {
      assert Closed(rs') == rs;
    }
  }

  /** No block has an empty name, and every block belongs to the column. */
  lemma {:induction false} BlocksNamed(rs: seq<Run>, ctx: Context)
    ensures forall b | b in BlocksOf(rs, ctx) :: b.name != "" && b.column == ctx.column && b.day == ctx.day
    decreases |rs|
  {
    if |rs| > 0 {
      BlocksNamed(rs[..|rs| - 1], ctx);
    }
  }

  /** The run still open at the last row makes no block: one more row equal
      to the last one changes nothing. */
  lemma TrailingRunDropped(labels: seq<string>, cells: seq<string>, time: string, ctx: Context)
    requires |labels| == |cells| > 0 && Minute(time).Success?
    ensures Extracted(labels + [time], cells + [cells[|cells| - 1]], ctx) == Extracted(labels, cells, ctx)
  {
    var labels', cells' := labels + [time], cells + [cells[|cells| - 1]];
    var n := |cells|;
    assert labels'[..n] == labels && cells'[..n] == cells;
    if Minutes(labels).Success? {
      var ms := Minutes(labels).value;
      var m := Minute(time).value;
      assert Minutes(labels') == Success(ms + [m]);
      assert (ms + [m])[..n] == ms;
      var rs := Runs(cells, ms);
      RunsSegment(cells, ms);
      assert rs[|rs| - 1].name == cells[n - 1];
      assert Runs(cells', ms + [m]) == rs[..|rs| - 1] + [rs[|rs| - 1].(hi := n + 1, end := m)];
    }
  }

  /** Runs in time order: each starts no later than it ends, and ends before
      the next one starts. */
  predicate Chronological(rs: seq<Run>) {
    (forall k | 0 <= k < |rs| :: rs[k].start <= rs[k].end) &&
    (forall k | 0 < k < |rs| :: rs[k - 1].end < rs[k].start)
  }

  /** Blocks in time order, in the same sense. */
  predicate InTimeOrder(bs: seq<Block>) {
    (forall k | 0 <= k < |bs| :: bs[k].start <= bs[k].end) &&
    (forall k | 0 < k < |bs| :: bs[k - 1].end < bs[k].start)
  }

  /** With ascending time labels the runs are in time order. */
  lemma RunsChronological(cells: seq<string>, ms: seq<int>)
    requires |cells| == |ms| && Ascending(ms)
    ensures Chronological(Runs(cells, ms))
  {
    RunsSegment(cells, ms);
    var rs := Runs(cells, ms);
    forall k | 0 < k < |rs| ensures rs[k - 1].end < rs[k].start {
      assert rs[k - 1].hi - 1 < rs[k].lo;
    }
  }

  /** Runs in time order give blocks in time order; the last block ends no
      later than the last run. */
  lemma {:induction false} BlocksInTimeOrder(rs: seq<Run>, ctx: Context)
    requires Chronological(rs)
    ensures InTimeOrder(BlocksOf(rs, ctx))
    ensures BlocksOf(rs, ctx) != [] ==> rs != [] && BlocksOf(rs, ctx)[|BlocksOf(rs, ctx)| - 1].end <= rs[|rs| - 1].end
    decreases |rs|
  {
    if |rs| > 0 {
      var rs0 := rs[..|rs| - 1];
      assert Chronological(rs0);
      BlocksInTimeOrder(rs0, ctx);
    }
  }

  /** With ascending time labels, the extracted blocks are in time order:
      each block starts no later than it ends, and before the next begins. */
  lemma ExtractedInTimeOrder(labels: seq<string>, cells: seq<string>, ctx: Context)
    requires |labels| == |cells| && Extracted(labels, cells, ctx).Success?
    requires Ascending(Minutes(labels).value)
    ensures InTimeOrder(Extracted(labels, cells, ctx).value)
  {
    var ms := Minutes(labels).value;
    RunsChronological(cells, ms);
    var rs := Runs(cells, ms);
    assert Chronological(Closed(rs));
    BlocksInTimeOrder(Closed(rs), ctx);
  }

  /** A name holding a passing token is placed at that token; any other name
      is placed at OLS or BHS, and at BHS in a column that is neither RED nor
      BLUE. */
  lemma SchoolOfName(name: string, start: int, end: int, ctx: Context)
    ensures Contains(name, "PB2O") || Contains(name, "PO2B") ==> School(name, start, end, ctx) == name
    ensures !Contains(name, "PB2O") && !Contains(name, "PO2B") ==>
      School(name, start, end, ctx) == "OLS" || School(name, start, end, ctx) == "BHS"
    ensures !Contains(Upper(ctx.day), "RED") && !Contains(Upper(ctx.day), "BLUE") ==>
      School(name, start, end, ctx) == if Contains(name, "PB2O") || Contains(name, "PO2B") then name else "BHS"
  {
  }

  /** Every row whose cell holds `token` comes before minute `m`. */
  predicate AllBefore(ms: seq<int>, cells: seq<string>, token: string, m: int)
    requires |ms| == |cells|
  {
    forall i | 0 <= i < |cells| && Contains(cells[i], token) :: ms[i] < m
  }

  /** Every row whose cell holds `token` comes after minute `m`. */
  predicate AllAfter(ms: seq<int>, cells: seq<string>, token: string, m: int)
    requires |ms| == |cells|
  {
    forall i | 0 <= i < |cells| && Contains(cells[i], token) :: m < ms[i]
  }

  /** With ascending time labels, the pre-scan's last sighting of a token is
      before `start` (or missing) exactly when every row holding the token
      is. */
  lemma LastSightingTest(ms: seq<int>, cells: seq<string>, token: string, start: int)
    requires |ms| == |cells| && Ascending(ms)
    ensures var last := Track(Hits(ms, cells, token)).last;
      (last.None? || start > last.value) <==> AllBefore(ms, cells, token, start)
  {
    var h := Hits(ms, cells, token);
    TrackLast(h);
    HitsNone(ms, cells, token);
    if h != [] {
      var i0 := HitsFrom(ms, cells, token, |h| - 1);
      if start > h[|h| - 1] {
        forall i | 0 <= i < |cells| && Contains(cells[i], token) ensures ms[i] < start {
          HitsLastMax(ms, cells, token, i);
        }
      }
    }
  }

  /** With ascending time labels and no row holding the token at minute 0,
      the pre-scan's first sighting of a token is after `end` (or missing)
      exactly when every row holding the token is. */
  lemma FirstSightingTest(ms: seq<int>, cells: seq<string>, token: string, end: int)
    requires |ms| == |cells| && Ascending(ms)
    requires forall i | 0 <= i < |cells| && Contains(cells[i], token) :: ms[i] != 0
    ensures var first := Track(Hits(ms, cells, token)).first;
      (first.None? || end < first.value) <==> AllAfter(ms, cells, token, end)
  {
    var h := Hits(ms, cells, token);
    HitsNone(ms, cells, token);
    if h != [] {
      var i0 := HitsFrom(ms, cells, token, 0);
      var k := TrackFirst(h);
      assert k == 0;
      if end < h[0] {
        forall i | 0 <= i < |cells| && Contains(cells[i], token) ensures end < ms[i] {
          HitsFirstMin(ms, cells, token, i);
        }
      }
    }
  }

  /** On a RED day (and not a BLUE one), with ascending time labels, a block
      is at OLS exactly when it starts after every row whose cell holds PB2O;
      a RED day with no PB2O row is at OLS throughout. */
  lemma RedSchool(ms: seq<int>, cells: seq<string>, name: string, start: int, end: int, ctx: Context)
    requires |ms| == |cells| && Ascending(ms)
    requires ctx.lastB2O == Track(Hits(ms, cells, "PB2O")).last
    requires !Contains(name, "PB2O") && !Contains(name, "PO2B")
    requires Contains(Upper(ctx.day), "RED") && !Contains(Upper(ctx.day), "BLUE")
    ensures School(name, start, end, ctx) ==
      if forall i | 0 <= i < |cells| && Contains(cells[i], "PB2O") :: ms[i] < start then "OLS" else "BHS"
  {
    LastSightingTest(ms, cells, "PB2O", start);
  }

  /** On a BLUE day (and not a RED one), with ascending time labels and no
      PO2B row at minute 0, a block is at OLS exactly when it ends before
      every row whose cell holds PO2B. */
  lemma BlueSchool(ms: seq<int>, cells: seq<string>, name: string, start: int, end: int, ctx: Context)
    requires |ms| == |cells| && Ascending(ms)
    requires forall i | 0 <= i < |cells| && Contains(cells[i], "PO2B") :: ms[i] != 0
    requires ctx.firstO2B == Track(Hits(ms, cells, "PO2B")).first
    requires !Contains(name, "PB2O") && !Contains(name, "PO2B")
    requires Contains(Upper(ctx.day), "BLUE") && !Contains(Upper(ctx.day), "RED")
    ensures School(name, start, end, ctx) ==
      if forall i | 0 <= i < |cells| && Contains(cells[i], "PO2B") :: end < ms[i] then "OLS" else "BHS"
  {
    FirstSightingTest(ms, cells, "PO2B", end);
  }

  /** On a day whose heading holds both RED and BLUE the two tests are
      joined by "or": with ascending time labels and no PO2B row at minute
      0, a block is at OLS exactly when it starts after every PB2O row or
      ends before every PO2B row. */
  lemma MixedSchool(ms: seq<int>, cells: seq<string>, name: string, start: int, end: int, ctx: Context)
    requires |ms| == |cells| && Ascending(ms)
    requires forall i | 0 <= i < |cells| && Contains(cells[i], "PO2B") :: ms[i] != 0
    requires ctx.lastB2O == Track(Hits(ms, cells, "PB2O")).last
    requires ctx.firstO2B == Track(Hits(ms, cells, "PO2B")).first
    requires !Contains(name, "PB2O") && !Contains(name, "PO2B")
    requires Contains(Upper(ctx.day), "RED") && Contains(Upper(ctx.day), "BLUE")
    ensures School(name, start, end, ctx) ==
      if AllBefore(ms, cells, "PB2O", start) || AllAfter(ms, cells, "PO2B", end) then "OLS" else "BHS"
  {
    LastSightingTest(ms, cells, "PB2O", start);
    FirstSightingTest(ms, cells, "PO2B", end);
  }

  /** A string lacking one of a tag's characters does not contain the tag. */
  lemma Lacks(s: string, t: string, j: nat)
    requires j < |t| && forall i | 0 <= i < |s| :: s[i] != t[j]
    ensures !Contains(s, t)
  {
    forall i | 0 <= i <= |s| - |t| ensures !OccursAt(s, t, i) {
      assert s[i..i + |t|][j] == s[i + j] != t[j];
    }
  }

  /** The cohort test and the placement disagree on "Blu": the column
      "Monday A Blu" belongs to the blue cohort, yet none of its blocks is
      placed at OLS, because placement looks for "BLUE" in the heading. */
  lemma BluIsNotBlue(name: string, start: int, end: int, ctx: Context)
    requires ctx.day == "Monday A Blu" && !Contains(name, "PB2O") && !Contains(name, "PO2B")
    ensures Parse(ctx.day, ctx.lunch) == Success(Heading("Monday", "A", "Blu", ctx.lunch))
    ensures Parse(ctx.day, ctx.lunch).value.IsBlu()
    ensures School(name, start, end, ctx) == "BHS"
  {
    BluHeading(ctx.lunch);
    var u := Upper(ctx.day);
    BluLetters(u);
    Lacks(u, "BLUE", 3);
    Lacks(u, "RED", 0);
  }

  lemma BluHeading(d: Option<string>)
    ensures Parse("Monday A Blu", d) == Success(Heading("Monday", "A", "Blu", d))
    ensures Heading("Monday", "A", "Blu", d).IsBlu()
  {
    var ts := ["Monday", "A", "Blu"];
    assert IsWord("Monday") && IsWord("A") && IsWord("Blu");
    assert AllWords(ts) by {
      assert ts[1..][1..][1..] == [];
    }
    assert Join(ts) == "Monday A Blu";
    ParseJoin(ts, d);
    BluTag();
  }

  lemma BluTag()
    ensures Contains(Upper("Blu"), Upper("BLU"))
  {
    var u, v := Upper("Blu"), Upper("BLU");
    assert u == v by {
      assert |u| == |v| == 3;
      assert u[0] == v[0] == 'B' && u[1] == v[1] == 'L' && u[2] == v[2] == 'U';
    }
    assert u[0..|u|] == u;
    assert OccursAt(u, v, 0);
  }

  lemma BluLetters(u: string)
    requires u == Upper("Monday A Blu")
    ensures forall i | 0 <= i < |u| :: u[i] != 'E' && u[i] != 'R'
  {
  }
}
