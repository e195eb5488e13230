/** Character classes and string helpers: Python's whitespace and digit
    classes, ASCII case mapping, substring containment, whitespace-separated
    words, strip, and sums of integer sequences. */
module Text {

  /** The characters for which Python's `str.isspace()` holds; the `\s`
      class of `re` on str patterns is the same set. */
  predicate IsSpace(c: char) {
    c == ' ' || ('\t' <= c <= '\r') || ('\U{1C}' <= c <= '\U{1F}')
    || c == '\U{85}' || c == '\U{A0}' || c == '\U{1680}'
    || ('\U{2000}' <= c <= '\U{200A}') || c == '\U{2028}' || c == '\U{2029}'
    || c == '\U{202F}' || c == '\U{205F}' || c == '\U{3000}'
  }

  predicate IsDigit(c: char) { '0' <= c <= '9' }

  function UpperChar(c: char): char {
    if 'a' <= c <= 'z' then (c as int - 32) as char else c
  }

  function LowerChar(c: char): char {
    if 'A' <= c <= 'Z' then (c as int + 32) as char else c
  }

  /** `s.upper()`, on the ASCII letters. */
  function Upper(s: string): (r: string)
    ensures |r| == |s|
  {
    seq(|s|, i requires 0 <= i < |s| => UpperChar(s[i]))
  }

  /** `s.lower()`, on the ASCII letters. */
  function Lower(s: string): (r: string)
    ensures |r| == |s|
  {
    seq(|s|, i requires 0 <= i < |s| => LowerChar(s[i]))
  }

  /** Upper-casing forgets how a string was cased: the basis of every
      case-insensitive comparison in the model. */
  lemma UpperOfLower(s: string)
    ensures Upper(Lower(s)) == Upper(s)
  {
    forall i | 0 <= i < |s| ensures Upper(Lower(s))[i] == Upper(s)[i] {
      var c := s[i];
      assert Lower(s)[i] == LowerChar(c);
    }
  }

  predicate OccursAt(s: string, t: string, i: int) {
    0 <= i && i + |t| <= |s| && s[i..i + |t|] == t
  }

  /** Python's `t in s` for strings: substring containment. */
  predicate Contains(s: string, t: string) {
    exists i | 0 <= i <= |s| - |t| :: OccursAt(s, t, i)
  }

  /** A label containing a tag still contains it inside a longer label, which
      is what lets compound cohort labels match their tags. */
  lemma ContainsWithin(x: string, s: string, y: string, t: string)
    requires Contains(s, t)
    ensures Contains(x + s + y, t)
  {
    var i :| 0 <= i <= |s| - |t| && OccursAt(s, t, i);
    var u := x + s + y;
    assert u[|x| + i..|x| + i + |t|] == s[i..i + |t|];
    assert OccursAt(u, t, |x| + i);
  }

  /** The end of the run of whitespace starting at `i`. */
  function SkipSpace(s: string, i: nat): (j: nat)
    requires i <= |s|
    ensures i <= j <= |s|
    ensures j == |s| || !IsSpace(s[j])
    decreases |s| - i
  {
    if i == |s| || !IsSpace(s[i]) then i else SkipSpace(s, i + 1)
  }

  /** The end of the run of non-whitespace starting at `i`. */
  function SkipWord(s: string, i: nat): (j: nat)
    requires i <= |s|
    ensures i <= j <= |s|
    ensures i < |s| && !IsSpace(s[i]) ==> i < j
    ensures j == |s| || IsSpace(s[j])
    decreases |s| - i
  {
    if i == |s| || IsSpace(s[i]) then i else SkipWord(s, i + 1)
  }

  /** The end of the run of ASCII digits starting at `i`. */
  function SkipDigits(s: string, i: nat): (j: nat)
    requires i <= |s|
    ensures i <= j <= |s|
    ensures j == |s| || !IsDigit(s[j])
    decreases |s| - i
  {
    if i == |s| || !IsDigit(s[i]) then i else SkipDigits(s, i + 1)
  }

  /** `SkipSpace` stops exactly at the end of a maximal whitespace run. */
  lemma {:induction false} SkipSpaceAt(s: string, i: nat, j: nat)
    requires i <= j <= |s|
    ensures SkipSpace(s, i) == j <==>
      (forall k :: i <= k < j ==> IsSpace(s[k])) && (j == |s| || !IsSpace(s[j]))
    decreases j - i
  {
    if i < j && IsSpace(s[i]) {
      SkipSpaceAt(s, i + 1, j);
    }
  }

  /** `SkipWord` stops exactly at the end of a maximal non-whitespace run. */
  lemma {:induction false} SkipWordAt(s: string, i: nat, j: nat)
    requires i <= j <= |s|
    ensures SkipWord(s, i) == j <==>
      (forall k :: i <= k < j ==> !IsSpace(s[k])) && (j == |s| || IsSpace(s[j]))
    decreases j - i
  {
    if i < j && !IsSpace(s[i]) {
      SkipWordAt(s, i + 1, j);
    }
  }

  /** `SkipDigits` stops exactly at the end of a maximal digit run. */
  lemma {:induction false} SkipDigitsAt(s: string, i: nat, j: nat)
    requires i <= j <= |s|
    ensures SkipDigits(s, i) == j <==>
      (forall k :: i <= k < j ==> IsDigit(s[k])) && (j == |s| || !IsDigit(s[j]))
    decreases j - i
  {
    if i < j && IsDigit(s[i]) {
      SkipDigitsAt(s, i + 1, j);
    }
  }

  /** The whitespace-separated words of `s` from index `i` on, as Python's
      `s[i:].split()` gives them. */
  function WordsFrom(s: string, i: nat): seq<string>
    requires i <= |s|
    decreases |s| - i
  {
    var a := SkipSpace(s, i);
    if a == |s| then []
    else
      var b := SkipWord(s, a);
      [s[a..b]] + WordsFrom(s, b)
  }

  function Words(s: string): seq<string> {
    WordsFrom(s, 0)
  }

  /** The end of `s[..j]` once trailing whitespace is dropped. */
  function StripEnd(s: string, j: nat): (e: nat)
    requires j <= |s|
    ensures e <= j
    ensures forall k :: e <= k < j ==> IsSpace(s[k])
    ensures e == 0 || !IsSpace(s[e - 1])
    decreases j
  {
    if j == 0 || !IsSpace(s[j - 1]) then j else StripEnd(s, j - 1)
  }

  /** Python's `s.strip()`. */
  function Strip(s: string): (r: string)
    ensures |r| <= |s|
  {
    var a := SkipSpace(s, 0);
    if a == |s| then ""
    else
      var e := StripEnd(s, |s|);
      assert !IsSpace(s[a]);
      s[a..e]
  }

  /** Without leading whitespace, stripping only cuts the end: the stripped
      text is a prefix of the original. */
  lemma StripIsPrefix(s: string)
    requires |s| == 0 || !IsSpace(s[0])
    ensures Strip(s) == s[..|Strip(s)|]
  {
  }

  function Sum(xs: seq<int>): int
    decreases |xs|
  {
    if xs == [] then 0 else Sum(xs[..|xs| - 1]) + xs[|xs| - 1]
  }

  lemma {:induction false} SumConcat(xs: seq<int>, ys: seq<int>)
    ensures Sum(xs + ys) == Sum(xs) + Sum(ys)
    decreases |ys|
  {
    if ys == [] {
      assert xs + ys == xs;
    } else {
      var ys' := ys[..|ys| - 1];
      assert (xs + ys)[..|xs + ys| - 1] == xs + ys';
      SumConcat(xs, ys');
    }
  }

  /** Small facts about sequences that the proofs of the other modules use. */

  lemma ConsLength<T>(w: seq<T>, a: T, v: seq<T>)
    requires w == [a] + v && v == []
    ensures |w| == 1
  {
  }

  lemma ConsTwo<T>(w: seq<T>, v1: seq<T>, a: T, b: T, v2: seq<T>)
    requires w == [a] + v1 && v1 == [b] + v2 && v2 == []
    ensures |w| == 2
  {
  }

  lemma ConsThree<T>(w: seq<T>, v1: seq<T>, v2: seq<T>, a: T, b: T, c: T, v3: seq<T>)
    requires w == [a] + v1 && v1 == [b] + v2 && v2 == [c] + v3
    ensures |w| == 3 + |v3| && w[0] == a && w[1] == b && w[2] == c
    ensures |v3| > 0 ==> w[3] == v3[0]
  {
  }

  lemma ConsBack(a: seq<string>, x: string, b: seq<string>, ts: seq<string>)
    requires |ts| > 0 && x == ts[0] && b == ts[1..] && a == [x] + b
    ensures a == ts
  {
  }

  /** A slice of a prefix is the same slice of the whole. */
  lemma SliceOfPrefix(text: string, s: string, a: nat, b: nat)
    requires |s| <= |text| && s == text[..|s|] && a <= b <= |s|
    ensures text[a..b] == s[a..b]
  {
    forall k | 0 <= k < b - a ensures text[a..b][k] == s[a..b][k] {
      assert s[a + k] == text[a + k];
    }
  }

  /** The last character of a text joined at a line break. */
  lemma LastOf(a: string, b: string)
    requires |b| > 0
    ensures a + "\n" + b == (a + "\n" + b[..|b| - 1]) + [b[|b| - 1]]
    ensures b == b[..|b| - 1] + [b[|b| - 1]]
  {
  }

  /** Replacing the last element of a concatenation replaces the last
      element of its second part. */
  lemma ReplaceLast<T>(x: seq<T>, y: seq<T>, e: T)
    requires |y| > 0
    ensures (x + y)[..|x + y| - 1] + [e] == x + (y[..|y| - 1] + [e])
  {
    assert (x + y)[..|x + y| - 1] == x + y[..|y| - 1];
  }

  lemma UpperOne(s: string)
    requires |s| == 1
    ensures Upper(s) == [UpperChar(s[0])]
  {
  }
}
