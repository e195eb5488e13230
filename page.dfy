/** The small helpers the page is drawn with: the indentation of a snippet
    (line breaking switched off), the pixel scale of a duration, and the
    class list of an ordinary passing block. */
module Page {
  import opened Text
  import opened Headings
  import opened Blocks
  import opened Merging

  /** Pixels per minute. */
  const Factor: int := 3

  /** A duration in minutes as a height in pixels. Durations are whole
      minutes, so rounding the product changes nothing. */
  function Scale(x: int): int {
    x * Factor
  }

  /** In a column of blocks that follow one another minute by minute, a
      lunch widened by the merge is drawn exactly as tall as itself and the
      ordinary passing blocks it took over, stacked. */
  lemma ScaledLunch(bs: seq<Block>, k: nat)
    requires k < |bs| && bs[k].IsLunch() && Contiguous(bs)
    ensures Scale(Widened(bs)[k].Duration()) ==
      (if 0 < k && Ordinary(bs[k - 1]) then Scale(bs[k - 1].Duration()) else 0) + Scale(bs[k].Duration()) +
      (if k + 1 < |bs| && Ordinary(bs[k + 1]) then Scale(bs[k + 1].Duration()) else 0)
  {
    WidenedDuration(bs, k);
  }

  /** `n` spaces. */
  function Spaces(n: nat): (r: string)
    ensures |r| == n && forall k | 0 <= k < n :: r[k] == ' '
  {
    seq(n, _ => ' ')
  }

  /** The lines of `s`: the pieces between line breaks, so one more than
      there are line breaks. */
  function Lines(s: string): (ls: seq<string>)
    ensures |ls| > 0
    decreases |s|
  {
    if |s| == 0 then [""]
    else
      var ls := Lines(s[..|s| - 1]);
      var c := s[|s| - 1];
      if c == '\n' then ls + [""] else ls[..|ls| - 1] + [ls[|ls| - 1] + [c]]
  }

  /** One more character: a line break opens a new line, anything else
      extends the last line. */
  lemma LinesSnoc(s: string, c: char)
    ensures var ls := Lines(s);
      Lines(s + [c]) == if c == '\n' then ls + [""] else ls[..|ls| - 1] + [ls[|ls| - 1] + [c]]
  {
    assert (s + [c])[..|s|] == s;
  }

  /** No line holds a line break. */
  lemma {:induction false} LinesNoBreak(s: string)
    ensures forall l | l in Lines(s) :: '\n' !in l
    decreases |s|
  {
    if |s| > 0 {
      var n := |s| - 1;
      LinesNoBreak(s[..n]);
      LinesSnoc(s[..n], s[n]);
      assert s[..n] + [s[n]] == s;
      var ls := Lines(s[..n]);
      if s[n] != '\n' {
        var last := ls[|ls| - 1];
        assert last in ls;
        assert forall l | l in ls[..|ls| - 1] :: l in ls;
        assert forall k | 0 <= k < |last| :: (last + [s[n]])[k] == last[k];
      }
    }
  }

  /** Each line after a line break and the prefix `pad`, one after another. */
  function Rendered(ls: seq<string>, pad: string): string
    decreases |ls|
  {
    if |ls| == 0 then "" else Rendered(ls[..|ls| - 1], pad) + "\n" + pad + ls[|ls| - 1]
  }

  /** The lines, each behind `pad`, joined with line breaks. */
  function Framed(ls: seq<string>, pad: string): string
    requires |ls| > 0
    decreases |ls|
  {
    if |ls| == 1 then pad + ls[0] else Framed(ls[..|ls| - 1], pad) + "\n" + pad + ls[|ls| - 1]
  }

  /** Rendering puts a line break before every line, framing only between
      lines. */
  lemma {:induction false} RenderedFramed(ls: seq<string>, pad: string)
    requires |ls| > 0
    ensures Rendered(ls, pad) == "\n" + Framed(ls, pad)
    decreases |ls|
  {
    var n := |ls| - 1;
    if n > 0 {
      RenderedFramed(ls[..n], pad);
    } else {
      assert ls[..n] == [];
    }
  }

  /** The snippet indentation loop with line breaking off (a width of 0):
      whitespace is stripped from both ends, then every line is put behind
      `indent` spaces. The loop reads the stripped text but copies lines out
      of the original one, which agree because the text does not start with
      whitespace. */
  method Wrap(text: string, indent: nat) returns (r: string)
    requires |text| == 0 || !IsSpace(text[0])
    ensures r == Framed(Lines(Strip(text)), Spaces(indent))
  {
    var s := Strip(text);
    StripIsPrefix(text);
    var pad := Spaces(indent);
    var result, start, last := "", 0, 0;
    ghost var done: seq<string> := [];
    var i := 0;
    while i < |s|
      invariant 0 <= last <= i <= |s| && start <= i
      invariant Lines(s[..i]) == done + [s[start..i]]
      invariant result == Rendered(done, pad)
    {
      var c := s[i];
      if c == ' ' {
        last := i + 1;
      }
      if c == '\n' {
        WrapBreak(s, i, start, done, pad);
        SliceOfPrefix(text, s, start, i);
        result := result + "\n" + pad + text[start..i];
        done := done + [s[start..i]];
        start, last := i + 1, i + 1;
      } else {
        WrapChar(s, i, start, done);
      }
      i := i + 1;
    }
    assert s[..i] == s;
    result := result + "\n" + pad + s[start..];
    assert result == Rendered(done + [s[start..]], pad) by {
      assert (done + [s[start..]])[..|done|] == done;
    }
    RenderedFramed(Lines(s), pad);
    r := result[1..];
  }

  /** A line break in the indentation loop closes the line read so far. */
  lemma WrapBreak(s: string, i: nat, start: nat, done: seq<string>, pad: string)
    requires start <= i < |s| && Lines(s[..i]) == done + [s[start..i]] && s[i] == '\n'
    ensures Lines(s[..i + 1]) == (done + [s[start..i]]) + [s[i + 1..i + 1]]
    ensures Rendered(done + [s[start..i]], pad) == Rendered(done, pad) + "\n" + pad + s[start..i]
  {
    assert s[..i + 1] == s[..i] + [s[i]];
    LinesSnoc(s[..i], s[i]);
    assert (done + [s[start..i]])[..|done|] == done;
    assert s[i + 1..i + 1] == "";
  }

  /** Any other character extends the line read so far. */
  lemma WrapChar(s: string, i: nat, start: nat, done: seq<string>)
    requires start <= i < |s| && Lines(s[..i]) == done + [s[start..i]] && s[i] != '\n'
    ensures Lines(s[..i + 1]) == done + [s[start..i + 1]]
  {
    assert s[..i + 1] == s[..i] + [s[i]];
    LinesSnoc(s[..i], s[i]);
    assert (done + [s[start..i]])[..|done|] == done;
    assert s[start..i + 1] == s[start..i] + [s[i]];
  }

  /** Splitting at a line break splits the lines. */
  lemma {:induction false} LinesSplit(a: string, b: string)
    ensures Lines(a + "\n" + b) == Lines(a) + Lines(b)
    decreases |b|
  {
    if |b| == 0 {
      LinesSnoc(a, '\n');
      assert a + "\n" + b == a + ['\n'];
    } else {
      var n := |b| - 1;
      var c := b[n];
      var p := a + "\n" + b[..n];
      LastOf(a, b);
      LinesSplit(a, b[..n]);
      LinesSnoc(p, c);
      LinesSnoc(b[..n], c);
      var x, y := Lines(a), Lines(b[..n]);
      if c == '\n' {
        assert (x + y) + [""] == x + (y + [""]);
      } else {
        ReplaceLast(x, y, y[|y| - 1] + [c]);
      }
    }
  }

  /** A string without line breaks is one line. */
  lemma {:induction false} OneLine(l: string)
    requires '\n' !in l
    ensures Lines(l) == [l]
    decreases |l|
  {
    if |l| > 0 {
      var n := |l| - 1;
      assert forall k | 0 <= k < n :: l[..n][k] == l[k];
      OneLine(l[..n]);
      LinesSnoc(l[..n], l[n]);
      assert l[..n] + [l[n]] == l;
    }
  }

  /** Framed lines split back into the same lines, each behind its pad: the
      indented output has one line per line of the snippet. */
  lemma {:induction false} FramedLines(ls: seq<string>, pad: string)
    requires |ls| > 0 && '\n' !in pad
    requires forall l | l in ls :: '\n' !in l
    ensures |Lines(Framed(ls, pad))| == |ls|
    ensures forall k | 0 <= k < |ls| :: Lines(Framed(ls, pad))[k] == pad + ls[k]
    decreases |ls|
  {
    var n := |ls| - 1;
    var l := ls[n];
    assert l in ls;
    if n == 0 {
      assert Framed(ls, pad) == pad + l;
      OneLine(pad + l);
    } else {
      var front := ls[..n];
      assert forall x | x in front :: x in ls;
      FramedLines(front, pad);
      assert ls == front + [l];
      FramedSnoc(front, l, pad);
      var all := Lines(Framed(ls, pad));
      forall k | 0 <= k < |ls| ensures all[k] == pad + ls[k] {
        if k < n {
          assert ls[k] == front[k];
        }
      }
    }
  }

  /** Framing one more line adds it, padded, as one more line. */
  lemma FramedSnoc(front: seq<string>, l: string, pad: string)
    requires |front| > 0 && '\n' !in pad && '\n' !in l
    ensures Lines(Framed(front + [l], pad)) == Lines(Framed(front, pad)) + [pad + l]
  {
    var ls := front + [l];
    assert ls[..|ls| - 1] == front;
    OneLine(pad + l);
    var f := Framed(front, pad);
    assert Framed(ls, pad) == f + "\n" + (pad + l) by {
      assert f + "\n" + pad + l == f + "\n" + (pad + l);
    }
    LinesSplit(f, pad + l);
  }

  /** With no indent the framed lines give back the text they were split
      from. */
  lemma {:induction false} LinesRoundTrip(s: string)
    ensures Framed(Lines(s), "") == s
    decreases |s|
  {
    if |s| > 0 {
      var n := |s| - 1;
      var ls := Lines(s[..n]);
      LinesRoundTrip(s[..n]);
      LinesSnoc(s[..n], s[n]);
      assert s[..n] + [s[n]] == s;
      var m := |ls| - 1;
      if s[n] == '\n' {
        assert (ls + [""])[..|ls|] == ls;
      } else {
        var ls' := ls[..m] + [ls[m] + [s[n]]];
        assert ls'[..m] == ls[..m];
        if m > 0 {
          assert Framed(ls, "") == Framed(ls[..m], "") + "\n" + "" + ls[m];
        }
      }
    }
  }

  /** The indentation loop keeps the text: split into lines, its result
      holds the lines of the stripped text in order, each behind `indent`
      spaces, and with no indent it is the stripped text itself. */
  lemma WrapKeepsLines(text: string, indent: nat)
    ensures var ls := Lines(Strip(text));
      |Lines(Framed(ls, Spaces(indent)))| == |ls| &&
      forall k | 0 <= k < |ls| :: Lines(Framed(ls, Spaces(indent)))[k] == Spaces(indent) + ls[k]
    ensures Framed(Lines(Strip(text)), Spaces(0)) == Strip(text)
  {
    assert '\n' !in Spaces(indent);
    LinesNoBreak(Strip(text));
    FramedLines(Lines(Strip(text)), Spaces(indent));
    assert Spaces(0) == "";
    LinesRoundTrip(Strip(text));
  }

  /** The classes of an ordinary passing block (a passing time that is not
      passing between the buildings): "passing", then "split", "question"
      and "short" (under five minutes) as they apply, in that order. */
  function PassingClass(b: Block): string
    requires b.IsPassing() && !b.IsSchoolPassing()
  {
    var cls := "passing";
    var cls := if b.IsPassingSplit() then cls + " split" else cls;
    var cls := if b.IsPassingQuestion() then cls + " question" else cls;
    if b.Duration() < 5 then cls + " short" else cls
  }

  /** Appending a word to joined words. */
  lemma {:induction false} JoinSnoc(ts: seq<string>, w: string)
    requires |ts| > 0
    ensures Join(ts + [w]) == Join(ts) + " " + w
    decreases |ts|
  {
    if |ts| > 1 {
      assert (ts + [w])[1..] == ts[1..] + [w];
      JoinSnoc(ts[1..], w);
    } else {
      assert (ts + [w])[1..] == [w];
    }
  }

  /** Every entry of a list of words is a word, a word at a time. */
  lemma {:induction false} AllWordsSnoc(ts: seq<string>, w: string)
    requires AllWords(ts) && IsWord(w)
    ensures AllWords(ts + [w])
    decreases |ts|
  {
    if |ts| == 0 {
      assert [w][1..] == [];
    } else {
      assert (ts + [w])[1..] == ts[1..] + [w];
      AllWordsSnoc(ts[1..], w);
    }
  }

  /** The class names are words. */
  lemma ClassWord(w: string)
    requires w == "passing" || w == "split" || w == "question" || w == "short"
    ensures IsWord(w)
  {
    SkipWordAt(w, 0, |w|);
  }

  /** One class name more when `on` holds, as a word and in the joined
      text. */
  lemma ClassStep(ts: seq<string>, cls: string, w: string, sfx: string, on: bool)
    requires |ts| > 0 && AllWords(ts) && Join(ts) == cls
    requires w == "split" || w == "question" || w == "short"
    requires sfx == " " + w
    ensures var ts' := ts + (if on then [w] else []);
      AllWords(ts') && Join(ts') == if on then cls + sfx else cls
  {
    if on {
      ClassWord(w);
      JoinSnoc(ts, w);
      AllWordsSnoc(ts, w);
      assert cls + " " + w == cls + sfx;
    } else {
      assert ts + [] == ts;
    }
  }

  /** The class names chosen by three tests, and the words they join into. */
  lemma ClassesJoined(split: bool, question: bool, short: bool)
    ensures var ts := ["passing"] + (if split then ["split"] else [])
      + (if question then ["question"] else []) + (if short then ["short"] else []);
      var cls := "passing";
      var cls := if split then cls + " split" else cls;
      var cls := if question then cls + " question" else cls;
      Words(if short then cls + " short" else cls) == ts
  {
    var t1 := ["passing"];
    ClassWord("passing");
    assert AllWords(t1) by { assert t1[1..] == []; }
    assert Join(t1) == "passing";
    ClassStep(t1, "passing", "split", " split", split);
    var t2 := t1 + (if split then ["split"] else []);
    var c2 := if split then "passing" + " split" else "passing";
    ClassStep(t2, c2, "question", " question", question);
    var t3 := t2 + (if question then ["question"] else []);
    var c3 := if question then c2 + " question" else c2;
    ClassStep(t3, c3, "short", " short", short);
    var t4 := t3 + (if short then ["short"] else []);
    WordsOfJoin(t4);
  }

  /** An ordinary passing block's class list, word by word: "passing" first,
      "split" exactly for a split passing, "question" exactly for "?", and
      "short" exactly when the block lasts under five minutes. */
  lemma PassingClassWords(b: Block)
    requires b.IsPassing() && !b.IsSchoolPassing()
    ensures Words(PassingClass(b)) ==
      ["passing"] + (if b.IsPassingSplit() then ["split"] else [])
      + (if b.IsPassingQuestion() then ["question"] else [])
      + (if b.Duration() < 5 then ["short"] else [])
  {
    ClassesJoined(b.IsPassingSplit(), b.IsPassingQuestion(), b.Duration() < 5);
  }

  /** A short passing is marked short, a longer one is not; a split
      passing and "?" exclude each other. */
  lemma PassingClassShort(b: Block)
    requires b.IsPassing() && !b.IsSchoolPassing()
    ensures "short" in Words(PassingClass(b)) <==> b.Duration() < 5
    ensures "split" in Words(PassingClass(b)) <==> b.IsPassingSplit()
    ensures !(b.IsPassingSplit() && b.IsPassingQuestion())
  {
    PassingClassWords(b);
    WholeNameTests(b);
    if b.IsPassingQuestion() {
      assert Upper(b.name) == "?";
    }
  }
}
