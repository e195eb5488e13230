/** The pre-scan of one column of the grid: the first and last minute at
    which a cell names the passing from BHS to OLS ("PB2O") or back
    ("PO2B"), and the minutes of all time labels of the column. */
module Scanning {
  import opened Text
  import opened Results
  import opened Times

  /** The minutes of a list of time labels, parsed in order; the first label
      that does not parse is the error. */
  function Minutes(labels: seq<string>): (r: Result<seq<int>>)
    ensures r.Success? ==> |r.value| == |labels|
    decreases |labels|
  {
    if |labels| == 0 then Success([])
    else
      var n := |labels| - 1;
      var ms :- Minutes(labels[..n]);
      var m :- Minute(labels[n]);
      Success(ms + [m])
  }

  /** Once a prefix of the labels fails to parse, so do all the labels, with
      the same error. */
  lemma {:induction false} MinutesFailurePersists(labels: seq<string>, k: nat)
    requires k <= |labels| && Minutes(labels[..k]).Failure?
    ensures Minutes(labels) == Minutes(labels[..k])
    decreases |labels| - k
  {
    if k < |labels| {
      var n := |labels| - 1;
      assert labels[..n][..k] == labels[..k];
      MinutesFailurePersists(labels[..n], k);
      assert labels[..k] != labels;
    } else {
      assert labels[..k] == labels;
    }
  }

  /** A successful parse of the labels parses each one. */
  lemma {:induction false} MinutesEach(labels: seq<string>, i: nat)
    requires i < |labels| && Minutes(labels).Success?
    ensures Minute(labels[i]) == Success(Minutes(labels).value[i])
    decreases |labels|
  {
    var n := |labels| - 1;
    if i < n {
      MinutesEach(labels[..n], i);
    }
  }

  /** What the pre-scan keeps for one token: its first and last minute, each
      `None` until the token is seen. */
  datatype Window = Window(first: Option<int>, last: Option<int>)

  /** Both tokens' windows. */
  datatype Sightings = Sightings(b2o: Window, o2b: Window)

  /** One sighting at minute `m`. The source tests `not first`, so a first
      sighting at minute 0 counts as no sighting and the next one starts the
      window again. */
  function Sight(w: Window, m: int): Window {
    if w.first == None || w.first == Some(0) then Window(Some(m), Some(m)) else Window(w.first, Some(m))
  }

  /** One row of the pre-scan: the label is parsed only when the cell holds
      a token (and once more for the second token). */
  function ScanRow(s: Sightings, time: string, cell: string): Result<Sightings> {
    var b :- if Contains(cell, "PB2O") then (var m :- Minute(time); Success(Sight(s.b2o, m))) else Success(s.b2o);
    var o :- if Contains(cell, "PO2B") then (var m :- Minute(time); Success(Sight(s.o2b, m))) else Success(s.o2b);
    Success(Sightings(b, o))
  }

  /** The pre-scan over all rows, in order. */
  function Scan(labels: seq<string>, cells: seq<string>): Result<Sightings>
    requires |labels| == |cells|
    decreases |labels|
  {
    if |labels| == 0 then Success(Sightings(Window(None, None), Window(None, None)))
    else
      var n := |labels| - 1;
      var s :- Scan(labels[..n], cells[..n]);
      ScanRow(s, labels[n], cells[n])
  }

  lemma {:induction false} ScanFailurePersists(labels: seq<string>, cells: seq<string>, k: nat)
    requires |labels| == |cells| && k <= |labels| && Scan(labels[..k], cells[..k]).Failure?
    ensures Scan(labels, cells) == Scan(labels[..k], cells[..k])
    decreases |labels| - k
  {
    if k < |labels| {
      var n := |labels| - 1;
      assert labels[..n][..k] == labels[..k] && cells[..n][..k] == cells[..k];
      ScanFailurePersists(labels[..n], cells[..n], k);
      assert labels[..k] != labels;
    } else {
      assert labels[..k] == labels && cells[..k] == cells;
    }
  }

  /** The pre-scan as the source writes it: one pass over the rows keeping
      four variables, stopping at the first label that does not parse. */
  method ScanPassing(labels: seq<string>, cells: seq<string>) returns (r: Result<Sightings>)
    requires |labels| == |cells|
    ensures r == Scan(labels, cells)
  {
    var firstB2O, lastB2O, firstO2B, lastO2B := None, None, None, None;
    var k := 0;
    while k < |labels|
      invariant k <= |labels|
      invariant Scan(labels[..k], cells[..k]) == Success(Sightings(Window(firstB2O, lastB2O), Window(firstO2B, lastO2B)))
    {
      assert labels[..k + 1][..k] == labels[..k] && cells[..k + 1][..k] == cells[..k];
      if Contains(cells[k], "PB2O") {
        var mr := Minute(labels[k]);
        if mr.Failure? {
          ScanFailurePersists(labels, cells, k + 1);
          return Failure(mr.error);
        }
        if firstB2O == None || firstB2O == Some(0) {
          firstB2O, lastB2O := Some(mr.value), Some(mr.value);
        } else {
          lastB2O := Some(mr.value);
        }
      }
      if Contains(cells[k], "PO2B") {
        var mr := Minute(labels[k]);
        if mr.Failure? {
          ScanFailurePersists(labels, cells, k + 1);
          return Failure(mr.error);
        }
        if firstO2B == None || firstO2B == Some(0) {
          firstO2B, lastO2B := Some(mr.value), Some(mr.value);
        } else {
          lastO2B := Some(mr.value);
        }
      }
      k := k + 1;
    }
    assert labels[..k] == labels && cells[..k] == cells;
    r := Success(Sightings(Window(firstB2O, lastB2O), Window(firstO2B, lastO2B)));
  }

  /** The minutes of the rows whose cell holds `token`, in row order. */
  function Hits(ms: seq<int>, cells: seq<string>, token: string): (h: seq<int>)
    requires |ms| == |cells|
    decreases |ms|
  {
    if |ms| == 0 then []
    else
      var n := |ms| - 1;
      Hits(ms[..n], cells[..n], token) + if Contains(cells[n], token) then [ms[n]] else []
  }

  /** The window of one token, sighting by sighting. */
  function Track(hits: seq<int>): Window
    decreases |hits|
  {
    if |hits| == 0 then Window(None, None) else Sight(Track(hits[..|hits| - 1]), hits[|hits| - 1])
  }

  /** When every label parses, the interleaved pre-scan keeps, for each
      token, the window of that token's sightings alone. */
  lemma {:induction false} ScanTracks(labels: seq<string>, cells: seq<string>)
    requires |labels| == |cells| && Minutes(labels).Success?
    ensures var ms := Minutes(labels).value;
      Scan(labels, cells) == Success(Sightings(Track(Hits(ms, cells, "PB2O")), Track(Hits(ms, cells, "PO2B"))))
    decreases |labels|
  {
    if |labels| > 0 {
      var n := |labels| - 1;
      var ms := Minutes(labels).value;
      assert Minutes(labels[..n]).value == ms[..n];
      ScanTracks(labels[..n], cells[..n]);
      HitsStep(ms, cells, "PB2O");
      HitsStep(ms, cells, "PO2B");
    }
  }

  lemma HitsStep(ms: seq<int>, cells: seq<string>, token: string)
    requires |ms| == |cells| > 0
    ensures var n := |ms| - 1;
      Track(Hits(ms, cells, token)) ==
        if Contains(cells[n], token) then Sight(Track(Hits(ms[..n], cells[..n], token)), ms[n])
        else Track(Hits(ms[..n], cells[..n], token))
  {
    var n := |ms| - 1;
    var h := Hits(ms[..n], cells[..n], token);
    if Contains(cells[n], token) {
      assert Hits(ms, cells, token) == h + [ms[n]];
      assert (h + [ms[n]])[..|h|] == h;
    } else {
      assert Hits(ms, cells, token) == h;
    }
  }

  /** The last minute of a window is the last sighting. */
  lemma TrackLast(hits: seq<int>)
    ensures Track(hits).last == if hits == [] then None else Some(hits[|hits| - 1])
  {
  }

  /** The first minute of a window is one of the sightings, and it is the
      first sighting unless that one was at minute 0. */
  lemma {:induction false} TrackFirst(hits: seq<int>) returns (k: nat)
    requires hits != []
    ensures k < |hits| && Track(hits).first == Some(hits[k])
    ensures hits[0] != 0 ==> k == 0
    decreases |hits|
  {
    var n := |hits| - 1;
    if n == 0 {
      k := 0;
    } else {
      var j := TrackFirst(hits[..n]);
      var w := Track(hits[..n]);
      if w.first == Some(0) {
        k := n;
      } else {
        k := j;
      }
    }
  }

  /** A sighting at minute 0 is forgotten by the next one: the window of
      sightings at 0 and at 5 starts at 5. */
  lemma TrackForgetsMidnight()
    ensures Track([0, 5]) == Window(Some(5), Some(5))
  {
    assert [0, 5][..1] == [0];
    assert [0][..0] == [];
  }

  predicate Ascending(ms: seq<int>) {
    forall i, j :: 0 <= i < j < |ms| ==> ms[i] < ms[j]
  }

  /** With ascending time labels, a window never starts after it ends. */
  lemma TrackOrdered(hits: seq<int>)
    requires hits != [] && Ascending(hits)
    ensures Track(hits).first.value <= Track(hits).last.value
  {
    var k := TrackFirst(hits);
    TrackLast(hits);
  }

  /** Every sighting is the minute of a row whose cell holds the token. */
  lemma {:induction false} HitsFrom(ms: seq<int>, cells: seq<string>, token: string, j: nat) returns (i: nat)
    requires |ms| == |cells| && j < |Hits(ms, cells, token)|
    ensures i < |ms| && Contains(cells[i], token) && Hits(ms, cells, token)[j] == ms[i]
    decreases |ms|
  {
    var n := |ms| - 1;
    var h := Hits(ms[..n], cells[..n], token);
    if j < |h| {
      i := HitsFrom(ms[..n], cells[..n], token, j);
    } else {
      i := n;
    }
  }

  /** Every row whose cell holds the token is sighted. */
  lemma {:induction false} HitsTo(ms: seq<int>, cells: seq<string>, token: string, i: nat) returns (j: nat)
    requires |ms| == |cells| && i < |ms| && Contains(cells[i], token)
    ensures j < |Hits(ms, cells, token)| && Hits(ms, cells, token)[j] == ms[i]
    decreases |ms|
  {
    var n := |ms| - 1;
    var h := Hits(ms[..n], cells[..n], token);
    if i < n {
      j := HitsTo(ms[..n], cells[..n], token, i);
    } else {
      j := |h|;
    }
  }

  /** With ascending minutes the last sighting is the latest row holding the
      token. */
  lemma {:induction false} HitsLastMax(ms: seq<int>, cells: seq<string>, token: string, i: nat)
    requires |ms| == |cells| && Ascending(ms) && i < |ms| && Contains(cells[i], token)
    ensures var h := Hits(ms, cells, token); h != [] && ms[i] <= h[|h| - 1]
    decreases |ms|
  {
    var n := |ms| - 1;
    if !Contains(cells[n], token) {
      assert i < n;
      HitsLastMax(ms[..n], cells[..n], token, i);
    }
  }

  /** With ascending minutes the first sighting is the earliest row holding
      the token. */
  lemma {:induction false} HitsFirstMin(ms: seq<int>, cells: seq<string>, token: string, i: nat)
    requires |ms| == |cells| && Ascending(ms) && i < |ms| && Contains(cells[i], token)
    ensures var h := Hits(ms, cells, token); h != [] && h[0] <= ms[i]
    decreases |ms|
  {
    var n := |ms| - 1;
    var h := Hits(ms[..n], cells[..n], token);
    if i < n {
      HitsFirstMin(ms[..n], cells[..n], token, i);
    } else if h != [] {
      var i0 := HitsFrom(ms[..n], cells[..n], token, 0);
    }
  }

  /** There is no sighting exactly when no cell holds the token. */
  lemma {:induction false} HitsNone(ms: seq<int>, cells: seq<string>, token: string)
    requires |ms| == |cells|
    ensures Hits(ms, cells, token) == [] <==> forall i | 0 <= i < |cells| :: !Contains(cells[i], token)
    decreases |ms|
  {
    if |ms| > 0 {
      var n := |ms| - 1;
      HitsNone(ms[..n], cells[..n], token);
      assert forall i | 0 <= i < n :: cells[..n][i] == cells[i];
    }
  }
}
