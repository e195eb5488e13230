/** Merging passing time into lunch, column by column: every lunch block is
    widened over an ordinary passing block just before or just after it, and
    the neighbours of the last lunch are then removed. */
module Merging {
  import opened Text
  import opened Results
  import opened Blocks

  /** A passing time that is not a passing between the two buildings. */
  predicate Ordinary(b: Block) {
    b.IsPassing() && !b.IsSchoolPassing()
  }

  /** Block `k` after widening: a lunch takes the start of an ordinary
      passing block just before it and the end of one just after it; every
      other block is left as it is. */
  function Widen(bs: seq<Block>, k: nat): (w: Block)
    requires k < |bs|
    ensures w.name == bs[k].name && w.school == bs[k].school && w.column == bs[k].column
    ensures w.day == bs[k].day && w.lunch == bs[k].lunch
  {
    var b := bs[k];
    if !b.IsLunch() then b
    else
      b.(start := if 0 < k && Ordinary(bs[k - 1]) then bs[k - 1].start else b.start,
         end := if k + 1 < |bs| && Ordinary(bs[k + 1]) then bs[k + 1].end else b.end)
  }

  function Widened(bs: seq<Block>): (ws: seq<Block>)
    ensures |ws| == |bs|
  {
    seq(|bs|, k requires 0 <= k < |bs| => Widen(bs, k))
  }

  /** The index of the last lunch block, if any. */
  function LastLunch(bs: seq<Block>): (j: Option<nat>)
    ensures j.Some? ==> j.value < |bs|
    decreases |bs|
  {
    if |bs| == 0 then None
    else if bs[|bs| - 1].IsLunch() then Some(|bs| - 1)
    else LastLunch(bs[..|bs| - 1])
  }

  /** `LastLunch` finds no lunch exactly when there is none, and otherwise a
      lunch with no lunch after it. */
  lemma {:induction false} LastLunchIs(bs: seq<Block>)
    ensures LastLunch(bs).None? <==> forall k | 0 <= k < |bs| :: !bs[k].IsLunch()
    ensures LastLunch(bs).Some? ==>
      var j := LastLunch(bs).value;
      bs[j].IsLunch() && forall k | j < k < |bs| :: !bs[k].IsLunch()
    decreases |bs|
  {
    if |bs| > 0 && !bs[|bs| - 1].IsLunch() {
      LastLunchIs(bs[..|bs| - 1]);
      assert forall k | 0 <= k < |bs| - 1 :: bs[..|bs| - 1][k] == bs[k];
    }
  }

  /** The list without its entry `i`, as `del s[i]` leaves it. */
  function Without<T>(s: seq<T>, i: nat): (r: seq<T>)
    requires i < |s|
    ensures |r| == |s| - 1
    ensures forall k | 0 <= k < |r| :: r[k] == if k < i then s[k] else s[k + 1]
  {
    s[..i] + s[i + 1..]
  }

  /** One column after merging. A lunch in the last position has no block
      after it: the source indexes past the end of the list there. Otherwise
      every lunch is widened, then the block after the last lunch and the
      block before it are deleted unless they are passings between the
      buildings, the later one first. */
  function Merged(bs: seq<Block>): Result<seq<Block>> {
    match LastLunch(bs)
    case None => Success(bs)
    case Some(j) =>
      if j == |bs| - 1 then Failure(LunchAtEnd)
      else
        var w := Widened(bs);
        var w1 := if !bs[j + 1].IsSchoolPassing() then Without(w, j + 1) else w;
        var w2 := if 0 < j && !bs[j - 1].IsSchoolPassing() then Without(w1, j - 1) else w1;
        Success(w2)
  }

  /** The merge of one column as the source writes it: one pass widening
      every lunch, remembering the neighbours of the last one, then the two
      deletions. */
  method MergeColumn(bs: seq<Block>) returns (r: Result<seq<Block>>)
    ensures r == Merged(bs)
  {
    var col := bs;
    var but1Index: Option<nat>, and1Index: Option<nat> := None, None;
    var but1: Option<Block>, and1: Option<Block> := None, None;
    var i := 0;
    while i < |col|
      invariant i <= |col| == |bs|
      invariant forall k | 0 <= k < i :: col[k] == Widen(bs, k)
      invariant forall k | i <= k < |bs| :: col[k] == bs[k]
      invariant Memory(but1Index, but1, and1Index, and1) == Recalled(bs, i)
      invariant 0 < i == |bs| ==> !bs[i - 1].IsLunch()
    {
      if col[i].IsLunch() {
        if i == |col| - 1 {
          LastLunchAtEnd(bs);
          return Failure(LunchAtEnd);
        }
        var b, before, after := WidenLunch(col, i);
        if before.Some? {
          but1, but1Index := before, Some(i - 1);
        }
        and1, and1Index := Some(after), Some(i + 1);
        RecallLunch(bs, i);
        col := col[i := b];
      } else {
        RecallStep(bs, i);
      }
      i := i + 1;
    }
    MergeTail(bs, col);
    if and1Index.Some? && !and1.value.IsSchoolPassing() {
      col := Without(col, and1Index.value);
    }
    if but1Index.Some? && !but1.value.IsSchoolPassing() {
      col := Without(col, but1Index.value);
    }
    r := Success(col);
  }

  /** The widening of the lunch at `i`, through the blocks before and after
      it as they stand in the list. */
  method WidenLunch(col: seq<Block>, i: nat) returns (b: Block, but1: Option<Block>, and1: Block)
    requires i + 1 < |col|
    ensures but1 == (if 0 < i then Some(col[i - 1]) else None) && and1 == col[i + 1]
    ensures b == col[i].(start := if 0 < i && Ordinary(col[i - 1]) then col[i - 1].start else col[i].start,
                         end := if Ordinary(col[i + 1]) then col[i + 1].end else col[i].end)
  {
    b, but1 := col[i], None;
    if i > 0 {
      but1 := Some(col[i - 1]);
      if Ordinary(but1.value) {
        b := b.(start := but1.value.start);
      }
    }
    and1 := col[i + 1];
    if Ordinary(and1) {
      b := b.(end := and1.end);
    }
  }

  /** What the merge loop keeps about the last lunch seen so far: the index
      and block just before it and just after it. */
  datatype Memory = Memory(but1Index: Option<nat>, but1: Option<Block>, and1Index: Option<nat>, and1: Option<Block>)

  /** The memory after the first `i` blocks, all lunches among them having a
      block after them: the neighbours of the last lunch among them, the one
      before as it stands once widened. */
  function Recalled(bs: seq<Block>, i: nat): Memory
    requires i <= |bs|
  {
    match LastLunch(bs[..i])
    case None => Memory(None, None, None, None)
    case Some(j) =>
      Memory(if 0 < j then Some(j - 1) else None, if 0 < j then Some(Widen(bs, j - 1)) else None,
             Some(j + 1), if j + 1 < |bs| then Some(bs[j + 1]) else None)
  }

  lemma RecallStep(bs: seq<Block>, i: nat)
    requires i < |bs| && !bs[i].IsLunch()
    ensures Recalled(bs, i + 1) == Recalled(bs, i)
    ensures Widen(bs, i) == bs[i]
  {
    assert bs[..i + 1][..i] == bs[..i];
  }

  /** A lunch that is not the last block is widened over its ordinary
      neighbours, and the loop remembers them. */
  lemma RecallLunch(bs: seq<Block>, i: nat)
    requires i + 1 < |bs| && bs[i].IsLunch()
    ensures Widen(bs, i) == bs[i].(start := if 0 < i && Ordinary(Widen(bs, i - 1)) then Widen(bs, i - 1).start else bs[i].start,
                                   end := if Ordinary(bs[i + 1]) then bs[i + 1].end else bs[i].end)
    ensures Recalled(bs, i + 1) == Memory(if 0 < i then Some(i - 1) else Recalled(bs, i).but1Index,
                                         if 0 < i then Some(Widen(bs, i - 1)) else Recalled(bs, i).but1,
                                         Some(i + 1), Some(bs[i + 1]))
  {
    assert bs[..i + 1][..i] == bs[..i];
    if 0 < i {
      OrdinaryWiden(bs, i - 1);
    } else {
      assert bs[..0] == [];
    }
  }

  lemma LastLunchAtEnd(bs: seq<Block>)
    requires |bs| > 0 && bs[|bs| - 1].IsLunch()
    ensures Merged(bs) == Failure(LunchAtEnd)
  {
    assert LastLunch(bs) == Some(|bs| - 1);
  }

  /** Widening keeps the name, so a block is ordinary after widening exactly
      when it was before, and an ordinary block is not widened at all. */
  lemma OrdinaryWiden(bs: seq<Block>, k: nat)
    requires k < |bs|
    ensures Ordinary(Widen(bs, k)) <==> Ordinary(bs[k])
    ensures Ordinary(bs[k]) ==> Widen(bs, k) == bs[k]
  {
    NameTestsRelate(bs[k]);
  }

  /** After the loop, with no lunch in the last position: the list is the
      widened column, and the two deletions give the merge. */
  lemma MergeTail(bs: seq<Block>, col: seq<Block>)
    requires |col| == |bs| && (forall k | 0 <= k < |bs| :: col[k] == Widen(bs, k))
    requires |bs| == 0 || !bs[|bs| - 1].IsLunch()
    ensures var m := Recalled(bs, |bs|);
      (m.and1Index.Some? ==> m.and1.Some? && m.and1Index.value < |col|) &&
      (m.but1Index.Some? ==> m.but1.Some? && m.and1Index.Some? && m.but1Index.value < m.and1Index.value - 1) &&
      Merged(bs) == Success(
        var c1 := if m.and1Index.Some? && !m.and1.value.IsSchoolPassing() then Without(col, m.and1Index.value) else col;
        if m.but1Index.Some? && !m.but1.value.IsSchoolPassing() then Without(c1, m.but1Index.value) else c1)
  {
    assert bs[..|bs|] == bs;
    assert col == Widened(bs);
    LastLunchIs(bs);
    var m := Recalled(bs, |bs|);
    match LastLunch(bs)
    case None =>
      assert m == Memory(None, None, None, None);
      assert col == bs;
    case Some(j) =>
      assert j + 1 < |bs|;
      assert m.and1Index == Some(j + 1) && m.and1 == Some(bs[j + 1]);
      if 0 < j {
        OrdinaryWiden(bs, j - 1);
        assert m.but1Index == Some(j - 1) && m.but1 == Some(Widen(bs, j - 1));
        assert Widen(bs, j - 1).IsSchoolPassing() == bs[j - 1].IsSchoolPassing();
      } else {
        assert m.but1Index == None;
      }
  }

  /** A column with no lunch block is left as it is. */
  lemma MergeWithoutLunch(bs: seq<Block>)
    requires forall k | 0 <= k < |bs| :: !bs[k].IsLunch()
    ensures Merged(bs) == Success(bs)
  {
    LastLunchIs(bs);
  }

  /** The merge fails exactly when the last block is a lunch, and then with
      the error of indexing past the end. */
  lemma MergeFails(bs: seq<Block>)
    ensures Merged(bs).Failure? <==> |bs| > 0 && bs[|bs| - 1].IsLunch()
    ensures Merged(bs).Failure? ==> Merged(bs).error == LunchAtEnd
  {
    LastLunchIs(bs);
  }

  /** Merging removes exactly the neighbours of the last lunch that are not
      passings between the buildings, the one after it and the one before
      it, and keeps every other (widened) block in order. At most two blocks
      go. */
  lemma MergeRemovesNeighbours(bs: seq<Block>)
    requires Merged(bs).Success? && LastLunch(bs).Some?
    ensures var j := LastLunch(bs).value; var w := Widened(bs);
      var lo := if 0 < j && !bs[j - 1].IsSchoolPassing() then j - 1 else j;
      var hi := if !bs[j + 1].IsSchoolPassing() then j + 2 else j + 1;
      j + 1 < |bs| && Merged(bs).value == w[..lo] + [w[j]] + w[hi..]
    ensures |bs| - 2 <= |Merged(bs).value| <= |bs|
  {
    var j := LastLunch(bs).value;
    MergeFails(bs);
    DropAround(Widened(bs), j, !bs[j + 1].IsSchoolPassing(), 0 < j && !bs[j - 1].IsSchoolPassing());
  }

  /** Deleting entry `j + 1` and then entry `j - 1` leaves entry `j` between
      what came before and after the two. */
  lemma DropAround<T>(w: seq<T>, j: nat, next: bool, prev: bool)
    requires j + 1 < |w| && (prev ==> 0 < j)
    ensures var w1 := if next then Without(w, j + 1) else w;
      var lo, hi := if prev then j - 1 else j, if next then j + 2 else j + 1;
      (if prev then Without(w1, j - 1) else w1) == w[..lo] + [w[j]] + w[hi..]
  {
    var hi := if next then j + 2 else j + 1;
    var w1 := if next then Without(w, j + 1) else w;
    assert w1 == w[..j] + [w[j]] + w[hi..];
    if prev {
      assert w1[..j - 1] == w[..j - 1];
      assert w1[j..] == [w[j]] + w[hi..];
    }
  }

  /** Widening changes only lunches, and only their ends: a lunch's start
      becomes the start of an ordinary passing block just before it, and
      its end the end of an ordinary passing block just after it. */
  lemma WidenedChanges(bs: seq<Block>, k: nat)
    requires k < |bs|
    ensures var w := Widened(bs)[k];
      w.name == bs[k].name && w.school == bs[k].school && w.column == bs[k].column &&
      (w.start == bs[k].start || (bs[k].IsLunch() && 0 < k && Ordinary(bs[k - 1]) && w.start == bs[k - 1].start)) &&
      (w.end == bs[k].end || (bs[k].IsLunch() && k + 1 < |bs| && Ordinary(bs[k + 1]) && w.end == bs[k + 1].end))
    ensures !bs[k].IsLunch() ==> Widened(bs)[k] == bs[k]
  {
  }

  /** Blocks that follow one another minute by minute: each starts the
      minute after the one before ends. */
  predicate Contiguous(bs: seq<Block>) {
    forall k | 0 < k < |bs| :: bs[k].start == bs[k - 1].end + 1
  }

  /** In a contiguous column a widened lunch lasts as long as itself and the
      passing blocks it took over together. */
  lemma WidenedDuration(bs: seq<Block>, k: nat)
    requires k < |bs| && bs[k].IsLunch() && Contiguous(bs)
    ensures Widened(bs)[k].Duration() ==
      (if 0 < k && Ordinary(bs[k - 1]) then bs[k - 1].Duration() else 0) + bs[k].Duration() +
      (if k + 1 < |bs| && Ordinary(bs[k + 1]) then bs[k + 1].Duration() else 0)
  {
    if 0 < k {
      assert bs[k].start == bs[k - 1].end + 1;
    }
    if k + 1 < |bs| {
      assert bs[k + 1].start == bs[k].end + 1;
    }
  }

  /** The deletions do not ask whether a neighbour is a passing time: a
      lunch between two classes swallows neither, yet both are deleted. */
  lemma MergeDeletesClasses(a: Block, l: Block, c: Block)
    requires a.name == "A1" && l.name == "L" && c.name == "B1"
    ensures Merged([a, l, c]) == Success([l])
  {
    var bs := [a, l, c];
    NameTests(a, 'A');
    NameTests(l, 'L');
    NameTests(c, 'B');
    assert LastLunch(bs) == Some(1) by {
      assert bs[..2][..1] == [a];
    }
    var w := Widened(bs);
    assert w[1] == l;
    DropAround(w, 1, true, true);
    assert w[..0] + [w[1]] + w[3..] == [l];
  }

  /** Every lunch is widened, but only the neighbours of the last lunch are
      deleted: with passing, lunch, passing, lunch, passing the first
      passing block stays, and both lunches take over the middle one. */
  lemma MergeOnlyLastLunch(p0: Block, l1: Block, p2: Block, l3: Block, p4: Block)
    requires p0.name == p2.name == p4.name == "P" && l1.name == l3.name == "L"
    ensures Merged([p0, l1, p2, l3, p4]) ==
      Success([p0, l1.(start := p0.start, end := p2.end), l3.(start := p2.start, end := p4.end)])
  {
    var bs := [p0, l1, p2, l3, p4];
    NameTests(p0, 'P');
    NameTests(l1, 'L');
    NameTests(p2, 'P');
    NameTests(l3, 'L');
    NameTests(p4, 'P');
    assert LastLunch(bs) == Some(3) by {
      assert bs[..4] == [p0, l1, p2, l3];
    }
    var w := Widened(bs);
    assert w[0] == p0 && w[1] == l1.(start := p0.start, end := p2.end) && w[3] == l3.(start := p2.start, end := p4.end);
    DropAround(w, 3, true, true);
    assert w[..2] + [w[3]] + w[5..] == [w[0], w[1], w[3]];
  }

  /** The name tests of a block whose name is one letter. */
  lemma NameTests(b: Block, c: char)
    requires (b.name == [c] || b.name == [c, '1']) && (c == 'A' || c == 'B' || c == 'L' || c == 'P')
    ensures b.IsLunch() <==> c == 'L'
    ensures b.IsPassing() <==> c == 'P'
    ensures !b.IsSchoolPassing()
  {
    FirstLetterTests(b);
    WholeNameTests(b);
    assert Upper(b.name)[0] == c;
  }
}
