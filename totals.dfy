/** Block totals per cohort: for every cohort key, the durations of its
    blocks grouped by the letters in front of the block number ("A" for
    "A1", "A2", ...), with lunches also grouped under "L". The source
    accumulates each group as a '+'-joined text of durations; here a group is
    the sequence of those durations, and its value is their sum. */
module Totals {
  import opened Text
  import opened Results
  import opened Headings
  import opened Blocks

  /** The end of the run of non-digits starting at `i`. */
  function SkipNonDigits(s: string, i: nat): (j: nat)
    requires i <= |s|
    ensures i <= j <= |s|
    ensures forall k | i <= k < j :: !IsDigit(s[k])
    ensures j == |s| || IsDigit(s[j])
    decreases |s| - i
  {
    if i == |s| || IsDigit(s[i]) then i else SkipNonDigits(s, i + 1)
  }

  /** The letters of a block name shaped like the pattern `(\D+)\d+$` read
      from the start: non-digits, then digits up to the end (or up to a
      final newline, where `$` also matches). A greedy `\D+` followed by a
      digit is the whole run of non-digits in front. */
  function LetterCode(name: string): Option<string> {
    var p := SkipNonDigits(name, 0);
    var e := SkipDigits(name, p);
    if 0 < p < e && (e == |name| || (e + 1 == |name| && name[e] == '\n')) then Some(name[..p]) else None
  }

  /** A group's durations with one more. */
  function AddPart(t: map<string, seq<int>>, c: string, v: int): map<string, seq<int>> {
    t[c := (if c in t then t[c] else []) + [v]]
  }

  /** What one block adds to the totals of cohort `n`: nothing unless the key
      of its column is `n`; then its duration under its letters, and once
      more under "L" if it is a lunch. */
  function Count(t: map<string, seq<int>>, b: Block, key: string, n: string): map<string, seq<int>> {
    var t1 := if key == n && LetterCode(b.name).Some? then AddPart(t, LetterCode(b.name).value, b.Duration()) else t;
    if key == n && b.IsLunch() then AddPart(t1, "L", b.Duration()) else t1
  }

  /** The totals of cohort `n` over the blocks `bs`, in order. Each block's
      column heading is parsed with the default lunch; the first that does
      not parse is the error. */
  function Tally(n: string, bs: seq<Block>, d: Option<string>): Result<map<string, seq<int>>>
    decreases |bs|
  {
    if |bs| == 0 then Success(map[])
    else
      var t :- Tally(n, bs[..|bs| - 1], d);
      var hd :- Parse(bs[|bs| - 1].day, d);
      Success(Count(t, bs[|bs| - 1], hd.Key(), n))
  }

  /** The blocks of all columns, column after column. */
  function Flatten(columns: seq<seq<Block>>): seq<Block>
    decreases |columns|
  {
    if |columns| == 0 then [] else Flatten(columns[..|columns| - 1]) + columns[|columns| - 1]
  }

  /** The totals of every cohort in `cohorts`. */
  function TotalsOf(columns: seq<seq<Block>>, cohorts: seq<string>, d: Option<string>): Result<map<string, map<string, seq<int>>>>
    decreases |cohorts|
  {
    if |cohorts| == 0 then Success(map[])
    else
      var m :- TotalsOf(columns, cohorts[..|cohorts| - 1], d);
      var t :- Tally(cohorts[|cohorts| - 1], Flatten(columns), d);
      Success(m[cohorts[|cohorts| - 1] := t])
  }

  /** The totals as the source computes them: for each cohort, for each
      column, for each block, parse the heading and add the block. */
  method ComputeTotals(columns: seq<seq<Block>>, cohorts: seq<string>, d: Option<string>)
    returns (r: Result<map<string, map<string, seq<int>>>>)
    ensures r == TotalsOf(columns, cohorts, d)
  {
    var totals := map[];
    var ci := 0;
    while ci < |cohorts|
      invariant ci <= |cohorts|
      invariant TotalsOf(columns, cohorts[..ci], d) == Success(totals)
    {
      var name := cohorts[ci];
      var t := map[];
      var col := 0;
      while col < |columns|
        invariant col <= |columns|
        invariant Tally(name, Flatten(columns[..col]), d) == Success(t)
      {
        var blocks := columns[col];
        ghost var done := Flatten(columns[..col]);
        var bi := 0;
        while bi < |blocks|
          invariant bi <= |blocks|
          invariant done == Flatten(columns[..col]) + blocks[..bi]
          invariant Tally(name, done, d) == Success(t)
        {
          var block := blocks[bi];
          var next := AddBlock(t, block, name, d);
          if next.Failure? {
            TotalsFailAt(columns, cohorts, d, ci, col, bi);
            return Failure(next.error);
          }
          TallyStep(name, done, block, d);
          t := next.value;
          done := Extend(done, Flatten(columns[..col]), blocks, bi);
          bi := bi + 1;
        }
        assert blocks[..bi] == blocks;
        FlattenStep(columns, col);
        col := col + 1;
      }
      CohortStep(columns, cohorts, d, ci, totals, t);
      totals := totals[name := t];
      ci := ci + 1;
    }
    assert cohorts[..ci] == cohorts;
    r := Success(totals);
  }

  /** One block of the innermost loop: its heading is parsed, then its
      duration added under its letters and, for a lunch, under "L". */
  method AddBlock(t: map<string, seq<int>>, block: Block, name: string, d: Option<string>)
    returns (r: Result<map<string, seq<int>>>)
    ensures Parse(block.day, d).Failure? ==> r == Failure(Parse(block.day, d).error)
    ensures Parse(block.day, d).Success? ==> r == Success(Count(t, block, Parse(block.day, d).value.Key(), name))
  {
    var hd := Parse(block.day, d);
    if hd.Failure? {
      return Failure(hd.error);
    }
    var key := hd.value.Key();
    var code := LetterCode(block.name);
    var u := t;
    if key == name && code.Some? {
      u := AddPart(u, code.value, block.Duration());
    }
    if key == name && block.IsLunch() {
      u := AddPart(u, "L", block.Duration());
    }
    r := Success(u);
  }

  /** `done` with block `i` of `blocks` added, still the blocks so far. */
  lemma Extend(done: seq<Block>, before: seq<Block>, blocks: seq<Block>, i: nat) returns (done': seq<Block>)
    requires i < |blocks| && done == before + blocks[..i]
    ensures done' == done + [blocks[i]] && done' == before + blocks[..i + 1]
  {
    assert blocks[..i + 1] == blocks[..i] + [blocks[i]];
    done' := done + [blocks[i]];
  }

  lemma FlattenStep(columns: seq<seq<Block>>, k: nat)
    requires k < |columns|
    ensures Flatten(columns[..k + 1]) == Flatten(columns[..k]) + columns[k]
  {
    assert columns[..k + 1][..k] == columns[..k];
  }

  lemma CohortStep(columns: seq<seq<Block>>, cohorts: seq<string>, d: Option<string>, ci: nat,
                   totals: map<string, map<string, seq<int>>>, t: map<string, seq<int>>)
    requires ci < |cohorts| && TotalsOf(columns, cohorts[..ci], d) == Success(totals)
    requires Tally(cohorts[ci], Flatten(columns[..|columns|]), d) == Success(t)
    ensures TotalsOf(columns, cohorts[..ci + 1], d) == Success(totals[cohorts[ci] := t])
  {
    assert columns[..|columns|] == columns;
    assert cohorts[..ci + 1][..ci] == cohorts[..ci];
  }

  lemma TallyStep(n: string, bs: seq<Block>, b: Block, d: Option<string>)
    requires Tally(n, bs, d).Success? && Parse(b.day, d).Success?
    ensures Tally(n, bs + [b], d) == Success(Count(Tally(n, bs, d).value, b, Parse(b.day, d).value.Key(), n))
  {
    assert (bs + [b])[..|bs|] == bs;
  }

  lemma TallyFailStep(n: string, bs: seq<Block>, b: Block, d: Option<string>)
    requires Tally(n, bs, d).Success? && Parse(b.day, d).Failure?
    ensures Tally(n, bs + [b], d) == Failure(Parse(b.day, d).error)
  {
    assert (bs + [b])[..|bs|] == bs;
  }

  /** A heading that does not parse, met while totalling cohort `ci`, is the
      error of all the totals. */
  lemma TotalsFailAt(columns: seq<seq<Block>>, cohorts: seq<string>, d: Option<string>, ci: nat, col: nat, bi: nat)
    requires ci < |cohorts| && col < |columns| && bi < |columns[col]|
    requires TotalsOf(columns, cohorts[..ci], d).Success?
    requires Tally(cohorts[ci], Flatten(columns[..col]) + columns[col][..bi], d).Success?
    requires Parse(columns[col][bi].day, d).Failure?
    ensures TotalsOf(columns, cohorts, d) == Failure(Parse(columns[col][bi].day, d).error)
  {
    var e := Parse(columns[col][bi].day, d).error;
    TallyFailsAt(cohorts[ci], columns, d, col, bi);
    assert cohorts[..ci + 1][..ci] == cohorts[..ci];
    assert TotalsOf(columns, cohorts[..ci + 1], d) == Failure(e);
    TotalsFailurePersists(columns, cohorts, d, ci + 1);
  }

  lemma TallyFailsAt(n: string, columns: seq<seq<Block>>, d: Option<string>, col: nat, bi: nat)
    requires col < |columns| && bi < |columns[col]|
    requires Tally(n, Flatten(columns[..col]) + columns[col][..bi], d).Success?
    requires Parse(columns[col][bi].day, d).Failure?
    ensures Tally(n, Flatten(columns), d) == Failure(Parse(columns[col][bi].day, d).error)
  {
    var p := Extend(Flatten(columns[..col]) + columns[col][..bi], Flatten(columns[..col]), columns[col], bi);
    TallyFailStep(n, Flatten(columns[..col]) + columns[col][..bi], columns[col][bi], d);
    ColumnsPrefix(columns, col, bi);
    TallyFailurePersists(n, Flatten(columns), d, |p|);
  }

  /** The blocks before block `bi` of column `col`, and that block, come
      first among all blocks. */
  lemma ColumnsPrefix(columns: seq<seq<Block>>, col: nat, bi: nat)
    requires col < |columns| && bi < |columns[col]|
    ensures var p := Flatten(columns[..col]) + columns[col][..bi + 1];
      |p| <= |Flatten(columns)| && Flatten(columns)[..|p|] == p
  {
    var p := Flatten(columns[..col]) + columns[col][..bi + 1];
    FlattenStep(columns, col);
    FlattenPrefix(columns, col + 1);
    var q := Flatten(columns[..col + 1]);
    assert q[..|p|] == p;
  }

  /** The blocks of the first columns come first among all blocks. */
  lemma {:induction false} FlattenPrefix(columns: seq<seq<Block>>, k: nat)
    requires k <= |columns|
    ensures |Flatten(columns[..k])| <= |Flatten(columns)|
    ensures Flatten(columns)[..|Flatten(columns[..k])|] == Flatten(columns[..k])
    decreases |columns|
  {
    if k == |columns| {
      assert columns[..k] == columns;
    } else {
      var n := |columns| - 1;
      FlattenPrefix(columns[..n], k);
      assert columns[..n][..k] == columns[..k];
    }
  }

  /** A failed tally stays failed when one more block is read. */
  lemma TallyFailStays(n: string, bs: seq<Block>, d: Option<string>)
    requires |bs| > 0 && Tally(n, bs[..|bs| - 1], d).Failure?
    ensures Tally(n, bs, d) == Tally(n, bs[..|bs| - 1], d)
  {
  }

  lemma {:induction false} TallyFailurePersists(n: string, bs: seq<Block>, d: Option<string>, k: nat)
    requires k <= |bs| && Tally(n, bs[..k], d).Failure?
    ensures Tally(n, bs, d) == Tally(n, bs[..k], d)
    decreases |bs| - k
  {
    if k < |bs| {
      var m := |bs| - 1;
      assert bs[..m][..k] == bs[..k];
      TallyFailurePersists(n, bs[..m], d, k);
      TallyFailStays(n, bs, d);
    } else {
      assert bs[..k] == bs;
    }
  }

  lemma {:induction false} TotalsFailurePersists(columns: seq<seq<Block>>, cohorts: seq<string>, d: Option<string>, k: nat)
    requires k <= |cohorts| && TotalsOf(columns, cohorts[..k], d).Failure?
    ensures TotalsOf(columns, cohorts, d) == TotalsOf(columns, cohorts[..k], d)
    decreases |cohorts| - k
  {
    if k < |cohorts| {
      var m := |cohorts| - 1;
      assert cohorts[..m][..k] == cohorts[..k];
      TotalsFailurePersists(columns, cohorts[..m], d, k);
    } else {
      assert cohorts[..k] == cohorts;
    }
  }

  /** The durations of group `c`, none when the group is missing. */
  function Group(t: map<string, seq<int>>, c: string): seq<int> {
    if c in t then t[c] else []
  }

  /** The value shown for group `c`: the sum of its durations, or 0 when the
      group is missing. */
  function TotalValue(t: map<string, seq<int>>, c: string): int {
    Sum(Group(t, c))
  }

  /** What one block adds to group `c` of cohort `n`, as a reference
      definition independent of the map: its duration under its letters,
      and its duration under "L" when it is a lunch, both only when the key
      of its column is `n`. */
  function Contribution(b: Block, key: string, n: string, c: string): seq<int> {
    (if key == n && LetterCode(b.name) == Some(c) then [b.Duration()] else []) +
    (if key == n && c == "L" && b.IsLunch() then [b.Duration()] else [])
  }

  /** Adding a block appends its contribution to every group and creates
      exactly the groups it contributes to. */
  lemma CountGroup(t: map<string, seq<int>>, b: Block, key: string, n: string, c: string)
    ensures Group(Count(t, b, key, n), c) == Group(t, c) + Contribution(b, key, n, c)
    ensures c in Count(t, b, key, n) <==> c in t || Contribution(b, key, n, c) != []
  {
    var t1 := if key == n && LetterCode(b.name).Some? then AddPart(t, LetterCode(b.name).value, b.Duration()) else t;
    assert Group(t1, c) == Group(t, c) + (if key == n && LetterCode(b.name) == Some(c) then [b.Duration()] else []);
  }

  /** The durations cohort `n` collects under group `c` from the blocks
      `bs`, block by block. */
  function Parts(n: string, bs: seq<Block>, d: Option<string>, c: string): seq<int>
    decreases |bs|
  {
    if |bs| == 0 then []
    else
      var b := bs[|bs| - 1];
      Parts(n, bs[..|bs| - 1], d, c) + match Parse(b.day, d) case Success(hd) => Contribution(b, hd.Key(), n, c) case Failure(_) => []
  }

  /** Each group of a cohort's totals holds the contributions of the blocks
      in order, and a group is present exactly when some block contributed
      to it. */
  lemma {:induction false} TallyParts(n: string, bs: seq<Block>, d: Option<string>, c: string)
    requires Tally(n, bs, d).Success?
    ensures Group(Tally(n, bs, d).value, c) == Parts(n, bs, d, c)
    ensures c in Tally(n, bs, d).value <==> Parts(n, bs, d, c) != []
    decreases |bs|
  {
    if |bs| > 0 {
      var m := |bs| - 1;
      TallyParts(n, bs[..m], d, c);
      var hd := Parse(bs[m].day, d).value;
      CountGroup(Tally(n, bs[..m], d).value, bs[m], hd.Key(), n, c);
    }
  }

  /** Adding a block adds its contribution to the value of every group. */
  lemma TotalAdds(t: map<string, seq<int>>, b: Block, key: string, n: string, c: string)
    ensures TotalValue(Count(t, b, key, n), c) == TotalValue(t, c) + Sum(Contribution(b, key, n, c))
  {
    CountGroup(t, b, key, n, c);
    SumConcat(Group(t, c), Contribution(b, key, n, c));
  }

  /** Every requested cohort, and no other, has totals. */
  lemma {:induction false} TotalsCohorts(columns: seq<seq<Block>>, cohorts: seq<string>, d: Option<string>)
    requires TotalsOf(columns, cohorts, d).Success?
    ensures TotalsOf(columns, cohorts, d).value.Keys == set c | c in cohorts
    decreases |cohorts|
  {
    if |cohorts| > 0 {
      var m := |cohorts| - 1;
      TotalsCohorts(columns, cohorts[..m], d);
      assert forall c :: c in cohorts <==> c in cohorts[..m] || c == cohorts[m];
    }
  }

  /** Every block's heading parses. */
  predicate Readable(bs: seq<Block>, d: Option<string>)
    decreases |bs|
  {
    |bs| == 0 || (Readable(bs[..|bs| - 1], d) && Parse(bs[|bs| - 1].day, d).Success?)
  }

  /** `Readable` holds exactly when no heading fails to parse. */
  lemma {:induction false} ReadableEach(bs: seq<Block>, d: Option<string>)
    ensures Readable(bs, d) <==> forall i | 0 <= i < |bs| :: Parse(bs[i].day, d).Success?
    decreases |bs|
  {
    if |bs| > 0 {
      var m := |bs| - 1;
      ReadableEach(bs[..m], d);
      if Readable(bs, d) {
        assert forall i | 0 <= i < m :: Parse(bs[..m][i].day, d).Success?;
        forall i | 0 <= i < |bs| ensures Parse(bs[i].day, d).Success? {
          if i < m {
            assert bs[i] == bs[..m][i];
          } else {
            assert i == m;
          }
        }
      } else if Readable(bs[..m], d) {
        assert !Parse(bs[m].day, d).Success?;
      } else {
        var i :| 0 <= i < m && !Parse(bs[..m][i].day, d).Success?;
        assert bs[..m][i] == bs[i];
      }
    }
  }

  /** The totals of one cohort fail exactly when some block's heading does
      not parse. */
  lemma {:induction false} TallyFails(n: string, bs: seq<Block>, d: Option<string>)
    ensures Tally(n, bs, d).Failure? <==> !Readable(bs, d)
    decreases |bs|
  {
    if |bs| > 0 {
      TallyFails(n, bs[..|bs| - 1], d);
    }
  }

  /** The totals fail exactly when some cohort is requested and some block's
      heading does not parse; with no cohort no heading is parsed. */
  lemma {:induction false} TotalsFail(columns: seq<seq<Block>>, cohorts: seq<string>, d: Option<string>)
    ensures TotalsOf(columns, cohorts, d).Failure? <==> |cohorts| > 0 && !Readable(Flatten(columns), d)
    decreases |cohorts|
  {
    if |cohorts| > 0 {
      var m := |cohorts| - 1;
      TotalsFail(columns, cohorts[..m], d);
      TallyFails(cohorts[m], Flatten(columns), d);
    }
  }

  /** Names shaped as letters then a number have those letters as their
      group, with or without a final newline. */
  lemma LetterCodeOf(p: string, ds: string)
    requires |p| > 0 && |ds| > 0
    requires forall k | 0 <= k < |p| :: !IsDigit(p[k])
    requires forall k | 0 <= k < |ds| :: IsDigit(ds[k])
    ensures LetterCode(p + ds) == Some(p)
    ensures LetterCode(p + ds + "\n") == Some(p)
  {
    var s := p + ds;
    var t := s + "\n";
    assert forall k | 0 <= k < |s| :: t[k] == s[k];
    assert forall k | 0 <= k < |p| :: s[k] == p[k];
    assert forall k | |p| <= k < |s| :: s[k] == ds[k - |p|];
    SkipNonDigitsAt(s, 0, |p|);
    SkipNonDigitsAt(t, 0, |p|);
    SkipDigitsAt(s, |p|, |s|);
    SkipDigitsAt(t, |p|, |s|);
    assert s[..|p|] == p && t[..|p|] == p;
  }

  /** `SkipNonDigits` stops exactly at the end of a maximal run of
      non-digits. */
  lemma {:induction false} SkipNonDigitsAt(s: string, i: nat, j: nat)
    requires i <= j <= |s|
    ensures SkipNonDigits(s, i) == j <==>
      (forall k :: i <= k < j ==> !IsDigit(s[k])) && (j == |s| || IsDigit(s[j]))
    decreases j - i
  {
    if i < j && !IsDigit(s[i]) {
      SkipNonDigitsAt(s, i + 1, j);
    }
  }

  /** A group comes from names of the shape letters, number, and optionally
      a final newline. */
  lemma LetterCodeShape(name: string)
    requires LetterCode(name).Some?
    ensures var c := LetterCode(name).value; var e := SkipDigits(name, |c|);
      0 < |c| < e && name[..|c|] == c &&
      (forall k | 0 <= k < |c| :: !IsDigit(c[k])) &&
      (forall k | |c| <= k < e :: IsDigit(name[k])) &&
      (name[e..] == "" || name[e..] == "\n")
  {
    var p := SkipNonDigits(name, 0);
    var e := SkipDigits(name, p);
    SkipDigitsAt(name, p, e);
  }

  /** Passing between the buildings, a lunch without a number and a split
      passing have no group of their own. */
  lemma NoLetterCode()
    ensures LetterCode("PB2O") == None
    ensures LetterCode("L") == None
    ensures LetterCode("PS") == None
  {
    var s := "PB2O";
    SkipNonDigitsAt(s, 0, 2);
    SkipDigitsAt(s, 2, 3);
    SkipNonDigitsAt("L", 0, 1);
    SkipNonDigitsAt("PS", 0, 2);
  }

  /** A lunch named with a number, like "L1", is counted under "L" twice:
      once for its letters and once for being a lunch. */
  lemma LunchCountedTwice(b: Block, key: string)
    requires b.name == "L1"
    ensures Contribution(b, key, key, "L") == [b.Duration(), b.Duration()]
  {
    LetterCodeOf("L", "1");
    assert "L" + "1" == "L1";
    FirstLetterTests(b);
  }
}
