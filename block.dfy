/** Schedule blocks: a named run of minutes in one column of the grid, with
    the name tests that decide how a block is shown, merged and totalled. */
module Blocks {
  import opened Text
  import opened Results
  import opened Times

  /** One block. `start` and `end` are inclusive minutes of the day;
      `school` is "BHS", "OLS" or the passing token itself; `day` is the full
      heading of the block's column; `lunch` is the heading's lunch. The
      setters of `start` and `end` are record updates `b.(start := …)`. */
  datatype Block = Block(name: string, start: int, end: int, school: string,
                         column: nat, day: string, lunch: Option<string>)
  {
    /** Both end minutes count. */
    function Duration(): int { end - start + 1 }

    /** A passing time: the first letter is P or ?, in any case. */
    predicate IsPassing() { NameIn(name, ["P", "?"], 1) }

    predicate IsPassingSplit() { NameIn(name, ["PS"], 0) }

    predicate IsPassingQuestion() { NameIn(name, ["?"], 0) }

    /** Passing between the two buildings. */
    predicate IsSchoolPassing() { NameIn(name, ["PB2O", "PO2B"], 0) }

    /** A lunch: the first letter is L, in any case. */
    predicate IsLunch() { NameIn(name, ["L"], 1) }

    /** The clock text of the first minute and of the minute after the last
        one, "HH:MM-HH:MM"; a minute outside the day has no clock text. */
    function DurationText(): (r: Result<string>)
      ensures r.Success? <==> 0 <= start < 1440 && 0 <= end + 1 < 1440
      ensures r.Success? ==> |r.value| == 11 && r.value[5] == '-'
    {
      var s :- Clock(start);
      var e :- Clock(end + 1);
      Success(s + "-" + e)
    }
  }

  /** `name[:length]`, or the whole name when `length` is 0 (no length was
      given) or exceeds the name. */
  function Cut(name: string, length: nat): string {
    if 0 < length < |name| then name[..length] else name
  }

  /** The (cut) name equals one of `names` up to case, as `in` on a list
      compares with each entry in turn. */
  predicate NameIn(name: string, names: seq<string>, length: nat)
    decreases |names|
  {
    |names| > 0 && (Upper(Cut(name, length)) == Upper(names[0]) || NameIn(name, names[1..], length))
  }

  lemma InOne(name: string, p: string, length: nat)
    ensures NameIn(name, [p], length) <==> Upper(Cut(name, length)) == Upper(p)
  {
    assert [p][1..] == [];
  }

  lemma InTwo(name: string, p: string, q: string, length: nat)
    ensures NameIn(name, [p, q], length) <==> Upper(Cut(name, length)) == Upper(p) || Upper(Cut(name, length)) == Upper(q)
  {
    assert [p, q][1..] == [q];
    InOne(name, q, length);
  }

  /** Passing and lunch look only at the first character, ignoring case. */
  lemma FirstLetterTests(b: Block)
    ensures b.IsPassing() <==> |b.name| > 0 && (UpperChar(b.name[0]) == 'P' || b.name[0] == '?')
    ensures b.IsLunch() <==> |b.name| > 0 && UpperChar(b.name[0]) == 'L'
  {
    var c := Cut(b.name, 1);
    InTwo(b.name, "P", "?", 1);
    InOne(b.name, "L", 1);
    if |b.name| > 0 {
      assert c == [b.name[0]];
      UpperOne(c);
      UpperOne("P");
      UpperOne("?");
      UpperOne("L");
    } else {
      assert Upper(c) == "";
    }
  }

  /** The split and school-passing tests compare the whole name, ignoring
      case; the question test accepts only "?" itself. */
  lemma WholeNameTests(b: Block)
    ensures b.IsPassingSplit() <==> Upper(b.name) == "PS"
    ensures b.IsSchoolPassing() <==> Upper(b.name) == "PB2O" || Upper(b.name) == "PO2B"
    ensures b.IsPassingQuestion() <==> b.name == "?"
  {
    assert Cut(b.name, 0) == b.name;
    InOne(b.name, "PS", 0);
    InOne(b.name, "?", 0);
    InTwo(b.name, "PB2O", "PO2B", 0);
    assert Upper("PS") == "PS";
    assert Upper("PB2O") == "PB2O" && Upper("PO2B") == "PO2B";
    UpperOne("?");
    if Upper(b.name) == "?" {
      assert |b.name| == 1;
      UpperOne(b.name);
    }
  }

  /** How the name tests relate: an empty name passes none of them; a
      school passing, a split passing and a question are all passing times;
      and no passing time is a lunch. */
  lemma NameTestsRelate(b: Block)
    ensures b.name == "" ==> !b.IsPassing() && !b.IsLunch() && !b.IsPassingSplit() && !b.IsSchoolPassing() && !b.IsPassingQuestion()
    ensures b.IsSchoolPassing() ==> b.IsPassing()
    ensures b.IsPassingSplit() ==> b.IsPassing()
    ensures b.IsPassingQuestion() ==> b.IsPassing()
    ensures !(b.IsPassing() && b.IsLunch())
  {
    FirstLetterTests(b);
    WholeNameTests(b);
    if |b.name| > 0 {
      assert Upper(b.name)[0] == UpperChar(b.name[0]);
    }
  }

  /** The clock text of a block within the day shows its first minute, and
      the minute after its last one, each of which parses back. */
  lemma DurationTextRoundTrip(b: Block)
    requires 0 <= b.start < 1440 && 0 <= b.end + 1 < 1440
    ensures b.DurationText().Success?
    ensures Minute(b.DurationText().value[..5] + " " + Meridiem(b.start)) == Success(b.start)
    ensures Minute(b.DurationText().value[6..] + " " + Meridiem(b.end + 1)) == Success(b.end + 1)
  {
    var s, e := Clock(b.start).value, Clock(b.end + 1).value;
    assert b.DurationText().value == s + "-" + e;
    assert b.DurationText().value[..5] == s;
    assert b.DurationText().value[6..] == e;
    ClockRoundTrip(b.start);
    ClockRoundTrip(b.end + 1);
  }
}
