/** Schedule column headings: "Monday A BHS" (weekday, cycle-day letter,
    cohort) or "Monday A Red STEAM" (the same plus a lunch designator). */
module Headings {
  import opened Text
  import opened Results

  datatype Heading = Heading(weekday: string, week: string, cohort: string, lunch: Option<string>)
  {
    /** Case-insensitive containment of a tag in the cohort. */
    predicate IsCohort(tag: string) {
      Contains(Upper(cohort), Upper(tag))
    }

    predicate IsBhs() { IsCohort("BHS") }
    predicate IsRed() { IsCohort("RED") }
    predicate IsBlu() { IsCohort("BLU") }

    /** The unit of aggregation for totals; a missing or empty lunch counts
        as false, as Python's truthiness has it. */
    function Key(): string {
      if lunch.Some? && lunch.value != "" then cohort + "-" + [lunch.value[0]] else cohort
    }
  }

  /** Parses a heading as the anchored patterns `(\S+)\s+(\S+)\s+(\S+)` and,
      for the lunch, the same followed by `\s+(\S+)`. A greedy `\S+` group
      that must be followed by whitespace or nothing is a maximal run of
      non-whitespace, so each group is one such run. */
  function Parse(h: string, defaultLunch: Option<string>): Result<Heading> {
    var e1 := SkipWord(h, 0);
    var s2 := SkipSpace(h, e1);
    var e2 := SkipWord(h, s2);
    var s3 := SkipSpace(h, e2);
    var e3 := SkipWord(h, s3);
    if e1 == 0 || s2 == e1 || e2 == s2 || s3 == e2 || e3 == s3 then
      Failure(BadHeading(h))
    else
      var s4 := SkipSpace(h, e3);
      var e4 := SkipWord(h, s4);
      var lunch := if s4 > e3 && e4 > s4 then Some(h[s4..e4]) else defaultLunch;
      Success(Heading(h[..e1], h[s2..e2], h[s3..e3], lunch))
  }

  /** The words from a word boundary `i` on: none when only whitespace is
      left, otherwise the next run of non-whitespace and the words after it. */
  lemma NextWord(h: string, i: nat)
    requires i <= |h| && (i == 0 || i == |h| || IsSpace(h[i]))
    ensures SkipSpace(h, i) == |h| ==> WordsFrom(h, i) == []
    ensures SkipSpace(h, i) < |h| ==>
      var s := SkipSpace(h, i);
      (0 < i ==> i < s) && s < SkipWord(h, s) &&
      WordsFrom(h, i) == [h[s..SkipWord(h, s)]] + WordsFrom(h, SkipWord(h, s))
  {
  }

  /** The first words of a heading that starts with a non-blank character,
      at the positions `Parse` finds them. */
  lemma HeadingWords(h: string)
    requires |h| > 0 && !IsSpace(h[0])
    ensures
      var e1 := SkipWord(h, 0);
      var s2 := SkipSpace(h, e1);
      var e2 := SkipWord(h, s2);
      var s3 := SkipSpace(h, e2);
      var e3 := SkipWord(h, s3);
      var s4 := SkipSpace(h, e3);
      var w := Words(h);
      (|w| >= 3 <==> s2 < |h| && s3 < |h|) &&
      (|w| >= 3 ==> w[0] == h[..e1] && w[1] == h[s2..e2] && w[2] == h[s3..e3] && (|w| >= 4 <==> s4 < |h|)) &&
      (|w| >= 4 ==> w[3] == h[s4..SkipWord(h, s4)])
  {
    var e1 := SkipWord(h, 0);
    var s2 := SkipSpace(h, e1);
    var e2 := SkipWord(h, s2);
    var s3 := SkipSpace(h, e2);
    var e3 := SkipWord(h, s3);
    var s4 := SkipSpace(h, e3);
    FirstWord(h);
    NextWord(h, e1);
    if s2 == |h| {
      ConsLength(Words(h), h[..e1], WordsFrom(h, e1));
    } else {
      NextWord(h, e2);
      if s3 == |h| {
        ConsTwo(Words(h), WordsFrom(h, e1), h[..e1], h[s2..e2], WordsFrom(h, e2));
      } else {
        NextWord(h, e3);
        NextWord(h, SkipWord(h, s4));
        ConsThree(Words(h), WordsFrom(h, e1), WordsFrom(h, e2), h[..e1], h[s2..e2], h[s3..e3], WordsFrom(h, e3));
      }
    }
  }

  /** Where `Parse` succeeds, in terms of the positions it computes. */
  lemma ParseAt(h: string, d: Option<string>)
    ensures
      var e1 := SkipWord(h, 0);
      var s2 := SkipSpace(h, e1);
      var e2 := SkipWord(h, s2);
      var s3 := SkipSpace(h, e2);
      var e3 := SkipWord(h, s3);
      var s4 := SkipSpace(h, e3);
      var e4 := SkipWord(h, s4);
      (Parse(h, d).Success? <==> |h| > 0 && !IsSpace(h[0]) && s2 < |h| && s3 < |h|) &&
      (Parse(h, d).Success? ==>
        Parse(h, d).value == Heading(h[..e1], h[s2..e2], h[s3..e3], if s4 < |h| then Some(h[s4..e4]) else d))
  {
    var e1 := SkipWord(h, 0);
    var s2 := SkipSpace(h, e1);
    var e2 := SkipWord(h, s2);
    var s3 := SkipSpace(h, e2);
    var e3 := SkipWord(h, s3);
    var s4 := SkipSpace(h, e3);
    NextWord(h, e1);
    if s2 < |h| {
      NextWord(h, e2);
      if s3 < |h| {
        NextWord(h, e3);
      }
    }
  }

  /** A heading parses exactly when it starts with a non-blank character and
      has at least three words; weekday, week and cohort are then its first
      three words, and the lunch is the fourth word or else the default. */
  lemma ParseWords(h: string, d: Option<string>)
    ensures Parse(h, d).Success? <==> |h| > 0 && !IsSpace(h[0]) && |Words(h)| >= 3
    ensures Parse(h, d).Success? ==>
      var w := Words(h);
      |w| >= 3 &&
      Parse(h, d).value == Heading(w[0], w[1], w[2], if |w| >= 4 then Some(w[3]) else d)
  {
    ParseAt(h, d);
    if |h| > 0 && !IsSpace(h[0]) {
      HeadingWords(h);
    }
  }

  lemma FirstWord(h: string)
    requires |h| > 0 && !IsSpace(h[0])
    ensures Words(h) == [h[..SkipWord(h, 0)]] + WordsFrom(h, SkipWord(h, 0))
  {
    SkipSpaceAt(h, 0, 0);
    NextWord(h, 0);
  }

  /** Headings written as words joined by single spaces. */
  function Join(ts: seq<string>): string
    decreases |ts|
  {
    if |ts| == 0 then "" else if |ts| == 1 then ts[0] else ts[0] + " " + Join(ts[1..])
  }

  /** A non-empty run of non-whitespace characters. */
  predicate IsWord(t: string) {
    |t| > 0 && SkipWord(t, 0) == |t|
  }

  lemma {:induction false} JoinStart(ts: seq<string>)
    requires |ts| > 0 && IsWord(ts[0])
    ensures |Join(ts)| > 0 && Join(ts)[0] == ts[0][0]
  {
  }

  lemma WordsFromAtEnd(s: string)
    ensures WordsFrom(s, |s|) == []
  {
  }

  lemma WordsFromAtSpace(s: string, i: nat, j: nat)
    requires i < |s| && IsSpace(s[i]) && j == i + 1
    ensures WordsFrom(s, i) == WordsFrom(s, j)
  {
    assert SkipSpace(s, i) == SkipSpace(s, j);
  }

  lemma WordsFromAtWord(s: string, i: nat, j: nat)
    requires i < j <= |s|
    requires forall k :: i <= k < j ==> !IsSpace(s[k])
    requires j == |s| || IsSpace(s[j])
    ensures WordsFrom(s, i) == [s[i..j]] + WordsFrom(s, j)
  {
    SkipSpaceAt(s, i, i);
    SkipWordAt(s, i, j);
  }

  /** A word followed by whitespace or nothing is the next word. */
  lemma WordAt(s: string, n: nat, t: string)
    requires IsWord(t) && n + |t| <= |s| && s[n..n + |t|] == t
    requires n + |t| == |s| || IsSpace(s[n + |t|])
    ensures WordsFrom(s, n) == [t] + WordsFrom(s, n + |t|)
  {
    assert forall k :: n <= k < n + |t| ==> !IsSpace(s[k]) by {
      SkipWordAt(t, 0, |t|);
      forall k | n <= k < n + |t| ensures !IsSpace(s[k]) {
        assert s[k] == t[k - n];
      }
    }
    WordsFromAtWord(s, n, n + |t|);
  }

  /** Where the first word, the space after it and the rest of the joined
      words sit. */
  lemma JoinLayout(s: string, n: nat, ts: seq<string>)
    requires |ts| >= 2 && n <= |s| && s[n..] == Join(ts)
    ensures n + |ts[0]| < |s|
    ensures s[n..n + |ts[0]|] == ts[0] && s[n + |ts[0]|] == ' ' && s[n + |ts[0]| + 1..] == Join(ts[1..])
  {
    var t, m := ts[0], n + |ts[0]|;
    var u := s[n..];
    assert u == t + " " + Join(ts[1..]);
    assert s[n..m] == u[..|t|];
    assert s[m] == u[|t|];
    assert s[m + 1..] == u[|t| + 1..];
  }

  /** `ts` written out from index `n` of `s` to its end, one space between
      words: `s[n..] == Join(ts)` unrolled word by word. */
  predicate Spelled(s: string, n: nat, ts: seq<string>)
    decreases |ts|
  {
    n <= |s| &&
    if |ts| == 0 then n == |s|
    else if |ts| == 1 then s[n..] == ts[0]
    else
      n + |ts[0]| < |s| && s[n..n + |ts[0]|] == ts[0] && s[n + |ts[0]|] == ' ' &&
      Spelled(s, n + |ts[0]| + 1, ts[1..])
  }

  lemma {:induction false} JoinSpelled(s: string, n: nat, ts: seq<string>)
    requires n <= |s| && s[n..] == Join(ts)
    ensures Spelled(s, n, ts)
    decreases |ts|
  {
    if |ts| >= 2 {
      JoinLayout(s, n, ts);
      JoinSpelled(s, n + |ts[0]| + 1, ts[1..]);
    }
  }

  /** One step of splitting joined words: the first word comes off, and the
      rest is spelled after one more space. */
  lemma WordsAfterStep(s: string, n: nat, ts: seq<string>) returns (next: nat)
    requires |ts| >= 2 && Spelled(s, n, ts) && IsWord(ts[0])
    ensures next == n + |ts[0]| + 1
    ensures WordsFrom(s, n) == [ts[0]] + WordsFrom(s, next)
  {
    var t := ts[0];
    var m := SpelledHead(s, n, ts);
    WordAt(s, n, t);
    WordsFromAtSpace(s, m, m + 1);
    next := m + 1;
  }

  lemma SpelledHead(s: string, n: nat, ts: seq<string>) returns (m: nat)
    requires |ts| >= 2 && Spelled(s, n, ts)
    ensures m == n + |ts[0]| && m < |s| && s[n..m] == ts[0] && s[m] == ' '
  {
    m := n + |ts[0]|;
  }

  /** Every entry is a word. */
  predicate AllWords(ts: seq<string>)
    decreases |ts|
  {
    |ts| == 0 || (IsWord(ts[0]) && AllWords(ts[1..]))
  }

  /** The last of the joined words. */
  lemma WordsAfterLast(s: string, n: nat, t: string)
    requires n <= |s| && s[n..] == t && IsWord(t)
    ensures WordsFrom(s, n) == [t]
  {
    assert s[n..n + |t|] == t;
    WordAt(s, n, t);
    WordsFromAtEnd(s);
    assert [t] + [] == [t];
  }

  /** Splitting words spelled with single spaces gives the words back,
      wherever in the text they start. */
  lemma {:induction false} WordsAfter(s: string, n: nat, ts: seq<string>)
    requires Spelled(s, n, ts) && AllWords(ts)
    ensures WordsFrom(s, n) == ts
    decreases |ts|
  {
    if |ts| == 0 {
      WordsFromAtEnd(s);
    } else if |ts| == 1 {
      WordsAfterLast(s, n, ts[0]);
    } else {
      var m := WordsAfterStep(s, n, ts);
      WordsAfter(s, m, ts[1..]);
      ConsBack(WordsFrom(s, n), ts[0], WordsFrom(s, m), ts);
    }
  }

  lemma WordsOfJoin(ts: seq<string>)
    requires AllWords(ts)
    ensures Words(Join(ts)) == ts
  {
    JoinSpelled(Join(ts), 0, ts);
    WordsAfter(Join(ts), 0, ts);
  }

  /** Round trip: a heading written as three or more words separated by
      single spaces parses back to its first three words, with the fourth
      word (when there is one) overriding the default lunch. */
  lemma ParseJoin(ts: seq<string>, d: Option<string>)
    requires |ts| >= 3 && AllWords(ts)
    ensures Parse(Join(ts), d) == Success(Heading(ts[0], ts[1], ts[2], if |ts| >= 4 then Some(ts[3]) else d))
  {
    WordsOfJoin(ts);
    JoinStart(ts);
    ParseWords(Join(ts), d);
  }

  /** Cohort tests ignore the case of both the cohort and the tag, and a tag
      inside a compound cohort label still matches. */
  lemma CohortTestIgnoresCase(hd: Heading, tag: string, x: string, y: string)
    ensures hd.IsCohort(tag) == hd.(cohort := Lower(hd.cohort)).IsCohort(Lower(tag))
    ensures hd.IsCohort(tag) ==> hd.(cohort := x + hd.cohort + y).IsCohort(tag)
  {
    UpperOfLower(hd.cohort);
    UpperOfLower(tag);
    if hd.IsCohort(tag) {
      assert Upper(x + hd.cohort + y) == Upper(x) + Upper(hd.cohort) + Upper(y);
      ContainsWithin(Upper(x), Upper(hd.cohort), Upper(y), Upper(tag));
    }
  }

  /** The key starts with the cohort, and it is the cohort alone exactly when
      there is no (non-empty) lunch; otherwise a dash and the lunch's first
      letter follow. */
  lemma KeyShape(hd: Heading)
    ensures hd.Key()[..|hd.cohort|] == hd.cohort
    ensures hd.Key() == hd.cohort <==> hd.lunch.None? || hd.lunch.value == ""
    ensures hd.lunch.Some? && hd.lunch.value != "" ==>
      |hd.Key()| == |hd.cohort| + 2 && hd.Key()[|hd.cohort|] == '-' && hd.Key()[|hd.cohort| + 1] == hd.lunch.value[0]
  {
  }
}
