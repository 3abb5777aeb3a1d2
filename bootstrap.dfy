/**
 * Centroid bootstrap of the driver (generateCentroids): draw distinct line
 * indexes at random, then copy the lines at those indexes, numbered 1, 2, ...
 * in file order, into the initial centroid file.
 *
 * The random generator is replaced by the sequence of values its
 * `nextInt(pointNum)` calls return, and the input file by its lines.
 */
module CentroidBootstrap {
  import opened Results
  import opened TextFormat

  /** The file the sampled centroids are written to. */
  const RandomCentroidsPath: string := "initial_means/random_centroids.txt"

  /** Why sampling ends without a full set of indexes. */
  datatype SampleError =
    | BoundNotPositive  // nextInt rejects a bound that is not positive
    | DrawsExhausted    // the supplied draws ran out before the set was full

  /** The chosen line indexes and how many draws it took to choose them. */
  datatype Sample = Sample(indexes: set<int>, drawsUsed: nat)

  /** One line of the centroid file: its id and the input line it copies. */
  datatype Record = Record(id: nat, line: string)

  /** What the bootstrap leaves behind: the file written and how far the input was read. */
  datatype Bootstrap = Bootstrap(path: string, drawsUsed: nat, chosen: set<int>, text: string, scanned: nat)

  // ---------------------------------------------------------------------------
  // Index sampling (the HashSet loop)
  // ---------------------------------------------------------------------------

  /** The index set after adding `d + 1` for each draw `d`, in order. */
  function Drawn(draws: seq<int>): set<int>
  {
    if draws == [] then {} else Drawn(draws[..|draws| - 1]) + {draws[|draws| - 1] + 1}
  }

  /** The indexes drawn are exactly the draws shifted up by one. */
  lemma {:induction false} DrawnMembers(draws: seq<int>)
    ensures forall x :: x in Drawn(draws) <==> exists j :: 0 <= j < |draws| && draws[j] + 1 == x
  {
    if draws != [] {
      var init := draws[..|draws| - 1];
      DrawnMembers(init);
      forall x ensures x in Drawn(draws) <==> exists j :: 0 <= j < |draws| && draws[j] + 1 == x {
        if x in Drawn(init) {
          var j :| 0 <= j < |init| && init[j] + 1 == x;
          assert draws[j] == init[j];
        }
        if exists j :: 0 <= j < |draws| && draws[j] + 1 == x {
          var j :| 0 <= j < |draws| && draws[j] + 1 == x;
          if j < |init| {
            assert init[j] == draws[j];
          }
        }
      }
    }
  }

  predicate DrawsBelow(draws: seq<int>, pointNum: int)
  {
    forall j :: 0 <= j < |draws| ==> 0 <= draws[j] < pointNum
  }

  /** A set of integers from [1, n] has at most n elements. */
  lemma {:induction false} BoundedSetSize(s: set<int>, n: nat)
    requires forall x :: x in s ==> 1 <= x <= n
    ensures |s| <= n
  {
    if n > 0 {
      var rest := s - {n};
      BoundedSetSize(rest, n - 1);
      assert s <= rest + {n};
      SubsetSize(s, rest + {n});
    } else {
      assert forall x :: x !in s;
      assert s == {};
    }
  }

  lemma SubsetSize(a: set<int>, b: set<int>)
    requires a <= b
    ensures |a| <= |b|
  {
    assert b == a + (b - a);
  }

  /** Every drawn index lies in [1, pointNum], so at most pointNum distinct ones exist. */
  lemma DrawnBounded(draws: seq<int>, pointNum: int)
    requires DrawsBelow(draws, pointNum)
    ensures forall x :: x in Drawn(draws) ==> 1 <= x <= pointNum
    ensures |Drawn(draws)| <= (if pointNum < 0 then 0 else pointNum)
  {
    DrawnMembers(draws);
    if pointNum <= 0 {
      assert Drawn(draws) == {};
    } else {
      BoundedSetSize(Drawn(draws), pointNum);
    }
  }

  /**
   * The sampling loop: add `draw + 1` to the set until it holds `numCentroids`
   * elements. It stops at the first draw that fills the set.
   */
  method SampleIndexes(numCentroids: int, pointNum: int, draws: seq<int>)
    returns (r: Result<Sample, SampleError>)
    requires DrawsBelow(draws, pointNum)
    ensures r.Ok? ==> r.value.drawsUsed <= |draws| && r.value.indexes == Drawn(draws[..r.value.drawsUsed])
    ensures r.Ok? ==> |r.value.indexes| == (if numCentroids < 0 then 0 else numCentroids)
    ensures r.Ok? ==> forall j :: 0 <= j < r.value.drawsUsed ==> |Drawn(draws[..j])| < numCentroids
    ensures r.Ok? ==> forall x :: x in r.value.indexes ==> 1 <= x <= pointNum
    ensures r.Ok? && numCentroids > 0 ==> numCentroids <= pointNum
    ensures r == Err(BoundNotPositive) <==> numCentroids > 0 && pointNum <= 0
    ensures r == Err(DrawsExhausted) <==> numCentroids > 0 && pointNum > 0 && |Drawn(draws)| < numCentroids
  {
    var indexes: set<int> := {};
    var used := 0;
    while |indexes| < numCentroids
      invariant 0 <= used <= |draws|
      invariant indexes == Drawn(draws[..used])
      invariant forall j :: 0 <= j < used ==> |Drawn(draws[..j])| < numCentroids
      invariant used > 0 ==> pointNum > 0
      invariant |indexes| <= (if numCentroids < 0 then 0 else numCentroids)
      decreases |draws| - used
    {
      if pointNum <= 0 {
        return Err(BoundNotPositive);
      }
      if used == |draws| {
        assert draws[..used] == draws;
        return Err(DrawsExhausted);
      }
      DrawnStep(draws, used);
      indexes := indexes + {draws[used] + 1};
      used := used + 1;
    }
    SampleFull(draws, used, numCentroids, pointNum);
    r := Ok(Sample(indexes, used));
  }

  /** What holds once the first `used` draws have filled the set. */
  lemma SampleFull(draws: seq<int>, used: nat, numCentroids: int, pointNum: int)
    requires DrawsBelow(draws, pointNum) && used <= |draws|
    requires used > 0 ==> pointNum > 0
    requires numCentroids <= |Drawn(draws[..used])| <= (if numCentroids < 0 then 0 else numCentroids)
    ensures |Drawn(draws[..used])| == (if numCentroids < 0 then 0 else numCentroids)
    ensures forall x :: x in Drawn(draws[..used]) ==> 1 <= x <= pointNum
    ensures numCentroids > 0 ==> numCentroids <= pointNum
    ensures |Drawn(draws)| >= numCentroids
  {
    assert DrawsBelow(draws[..used], pointNum) by {
      forall j | 0 <= j < used ensures 0 <= draws[..used][j] < pointNum {
        assert draws[..used][j] == draws[j];
      }
    }
    DrawnBounded(draws[..used], pointNum);
    DrawnSaturates(draws, used, numCentroids);
  }

  /** One more draw adds its index to the set. */
  lemma DrawnStep(draws: seq<int>, used: nat)
    requires used < |draws|
    ensures Drawn(draws[..used + 1]) == Drawn(draws[..used]) + {draws[used] + 1}
  {
    assert draws[..used + 1][..used] == draws[..used];
  }

  /** Once the set is full, drawing further only keeps it full. */
  lemma {:induction false} DrawnGrows(draws: seq<int>, i: nat, j: nat)
    requires i <= j <= |draws|
    ensures Drawn(draws[..i]) <= Drawn(draws[..j])
    decreases j - i
  {
    if i < j {
      DrawnGrows(draws, i, j - 1);
      DrawnStep(draws, j - 1);
    }
  }

  /** If the first `used` draws fill the set, all of them do. */
  lemma DrawnSaturates(draws: seq<int>, used: nat, k: int)
    requires used <= |draws|
    requires |Drawn(draws[..used])| >= k
    ensures |Drawn(draws)| >= k
  {
    DrawnGrows(draws, used, |draws|);
    assert draws[..|draws|] == draws;
    SubsetSize(Drawn(draws[..used]), Drawn(draws));
  }

  // ---------------------------------------------------------------------------
  // Selection scan (the read loop with the early break)
  // ---------------------------------------------------------------------------

  /** The 0-based positions below `n` that are in `chosen`, in increasing order. */
  function Hits(chosen: set<int>, n: nat): (h: seq<nat>)
    ensures forall j :: 0 <= j < |h| ==> h[j] < n && h[j] in chosen
  {
    if n == 0 then [] else Hits(chosen, n - 1) + (if n - 1 in chosen then [n - 1] else [])
  }

  /** The positions are met in file order, so none is met twice. */
  lemma {:induction false} HitsIncreasing(chosen: set<int>, n: nat)
    ensures forall a, b :: 0 <= a < b < |Hits(chosen, n)| ==> Hits(chosen, n)[a] < Hits(chosen, n)[b]
  {
    if n > 0 {
      HitsIncreasing(chosen, n - 1);
    }
  }

  /** No chosen position inside the file is passed over. */
  lemma {:induction false} HitsComplete(chosen: set<int>, n: nat, i: int)
    requires 0 <= i < n && i in chosen
    ensures i in Hits(chosen, n)
  {
    if i < n - 1 {
      HitsComplete(chosen, n - 1, i);
    }
  }

  /** The chosen positions inside a file of `n` lines. */
  function Below(chosen: set<int>, n: nat): set<int>
  {
    set i | i in chosen && 0 <= i < n
  }

  /** The scan meets one line per chosen position inside the file. */
  lemma {:induction false} HitsCount(chosen: set<int>, n: nat)
    ensures |Hits(chosen, n)| == |Below(chosen, n)|
  {
    if n > 0 {
      HitsCount(chosen, n - 1);
      if n - 1 in chosen {
        assert n - 1 !in Below(chosen, n - 1);
        assert Below(chosen, n) == Below(chosen, n - 1) + {n - 1};
      } else {
        assert Below(chosen, n) == Below(chosen, n - 1);
      }
    }
  }

  /** Scanning further only extends the positions met so far. */
  lemma {:induction false} HitsPrefix(chosen: set<int>, m: nat, n: nat)
    requires m <= n
    ensures |Hits(chosen, m)| <= |Hits(chosen, n)|
    ensures Hits(chosen, n)[..|Hits(chosen, m)|] == Hits(chosen, m)
    decreases n - m
  {
    if m < n {
      HitsPrefix(chosen, m, n - 1);
      var a, b := Hits(chosen, m), Hits(chosen, n - 1);
      assert Hits(chosen, n)[..|b|] == b;
      assert b[..|a|] == a;
    }
  }

  /** How many records the scan writes before it breaks: at least one, since the test follows the write. */
  function Cap(numCentroids: int): nat
  {
    if numCentroids < 1 then 1 else numCentroids
  }

  /** The positions whose lines are written: the first `Cap` chosen positions inside the file. */
  function Picked(lines: seq<string>, chosen: set<int>, numCentroids: int): seq<nat>
  {
    var h := Hits(chosen, |lines|);
    if |h| <= Cap(numCentroids) then h else h[..Cap(numCentroids)]
  }

  /** Records numbered 1, 2, ... holding the lines at positions `p`. */
  function Numbered(lines: seq<string>, p: seq<nat>): seq<Record>
    requires forall j :: 0 <= j < |p| ==> p[j] < |lines|
  {
    seq(|p|, j requires 0 <= j < |p| => Record(j + 1, lines[p[j]]))
  }

  /** The records the scan writes. */
  function Emitted(lines: seq<string>, chosen: set<int>, numCentroids: int): seq<Record>
  {
    Numbered(lines, Picked(lines, chosen, numCentroids))
  }

  /** How many input lines the scan reads before it stops. */
  function Scanned(lines: seq<string>, chosen: set<int>, numCentroids: int): nat
  {
    var h := Hits(chosen, |lines|);
    if |h| >= Cap(numCentroids) then h[Cap(numCentroids) - 1] + 1 else |lines|
  }

  /** One record as written: the id, a tab, the line. */
  function RecordLine(r: Record): string
  {
    Decimal(r.id) + "\t" + r.line
  }

  function RecordLines(recs: seq<Record>): seq<string>
  {
    seq(|recs|, j requires 0 <= j < |recs| => RecordLine(recs[j]))
  }

  /** The text of a centroid file: each record followed by "\n". */
  function CentroidFileText(recs: seq<Record>): string
  {
    Unlines(RecordLines(recs))
  }

  /** Reads a record line back: decimal id, tab, then the rest of the line. */
  function ParseRecordLine(s: string): Option<Record>
  {
    var i := IndexOf(s, '\t');
    if i == 0 || i == |s| || !(forall j :: 0 <= j < i ==> IsDigit(s[j])) then None
    else Some(Record(ParseDecimal(s[..i]), s[i + 1..]))
  }

  function ParseRecordLines(ls: seq<string>): Option<seq<Record>>
  {
    if ls == [] then Some([])
    else match (ParseRecordLine(ls[0]), ParseRecordLines(ls[1..]))
      case (Some(r), Some(rest)) => Some([r] + rest)
      case _ => None
  }

  /** Reads a centroid file back into its records. */
  function ParseCentroidFile(text: string): Option<seq<Record>>
  {
    ParseRecordLines(Lines(text))
  }

  /** A record line reads back as the record it was written from. */
  lemma ParseRecordLineOfRecordLine(r: Record)
    ensures ParseRecordLine(RecordLine(r)) == Some(r)
  {
    var d := Decimal(r.id);
    var s := RecordLine(r);
    assert s[|d|] == '\t';
    assert forall j :: 0 <= j < |d| ==> s[j] == d[j] && s[j] != '\t';
    assert IndexOf(s, '\t') == |d|;
    assert s[..|d|] == d;
    assert s[|d| + 1..] == r.line;
    ParseDecimalOfDecimal(r.id);
  }

  lemma {:induction false} ParseRecordLinesOfRecordLines(recs: seq<Record>)
    ensures ParseRecordLines(RecordLines(recs)) == Some(recs)
  {
    if recs != [] {
      assert RecordLines(recs)[1..] == RecordLines(recs[1..]);
      ParseRecordLineOfRecordLine(recs[0]);
      ParseRecordLinesOfRecordLines(recs[1..]);
      assert [recs[0]] + recs[1..] == recs;
    }
  }

  /** A centroid file reads back as the records written, when no line holds a line feed. */
  lemma CentroidFileRoundTrip(recs: seq<Record>)
    requires forall j :: 0 <= j < |recs| ==> IsLine(recs[j].line)
    ensures ParseCentroidFile(CentroidFileText(recs)) == Some(recs)
  {
    var ls := RecordLines(recs);
    forall k | 0 <= k < |ls| ensures IsLine(ls[k]) {
      var d := Decimal(recs[k].id);
      assert ls[k] == d + "\t" + recs[k].line;
      forall j | 0 <= j < |ls[k]| ensures ls[k][j] != '\n' {
        if j < |d| { assert IsDigit(d[j]); }
        else if j > |d| { assert ls[k][j] == recs[k].line[j - |d| - 1]; }
      }
    }
    LinesOfUnlines(ls);
    ParseRecordLinesOfRecordLines(recs);
  }

  /** Writing one more record appends its line to the file text. */
  lemma AppendRecord(lines: seq<string>, p: seq<nat>, i: nat)
    requires forall j :: 0 <= j < |p| ==> p[j] < |lines|
    requires i < |lines|
    ensures CentroidFileText(Numbered(lines, p + [i]))
         == CentroidFileText(Numbered(lines, p)) + RecordLine(Record(|p| + 1, lines[i])) + "\n"
  {
    var before := RecordLines(Numbered(lines, p));
    var last := RecordLine(Record(|p| + 1, lines[i]));
    assert RecordLines(Numbered(lines, p + [i])) == before + [last];
    UnlinesAppend(before, [last]);
  }

  /** The text written once the first `n` lines have been read without reaching the cap. */
  function ScanText(lines: seq<string>, chosen: set<int>, n: nat): string
    requires n <= |lines|
  {
    CentroidFileText(Numbered(lines, Hits(chosen, n)))
  }

  /** Reading line `i` adds its record to the text exactly when `i` is chosen. */
  lemma ScanStep(lines: seq<string>, chosen: set<int>, i: nat)
    requires i < |lines|
    ensures i in chosen ==>
      && |Hits(chosen, i + 1)| == |Hits(chosen, i)| + 1
      && ScanText(lines, chosen, i + 1)
         == ScanText(lines, chosen, i) + RecordLine(Record(|Hits(chosen, i)| + 1, lines[i])) + "\n"
    ensures i !in chosen ==> Hits(chosen, i + 1) == Hits(chosen, i)
  {
    if i in chosen {
      assert Hits(chosen, i + 1) == Hits(chosen, i) + [i];
      AppendRecord(lines, Hits(chosen, i), i);
    }
  }

  /** A scan that reaches the end of the file without filling the cap has written every hit. */
  lemma ScanFinished(lines: seq<string>, chosen: set<int>, numCentroids: int)
    requires |Hits(chosen, |lines|)| < Cap(numCentroids)
    ensures CentroidFileText(Emitted(lines, chosen, numCentroids)) == ScanText(lines, chosen, |lines|)
    ensures Scanned(lines, chosen, numCentroids) == |lines|
  {
  }

  /** When the record at position `i` is the last one allowed, the scan's results are settled. */
  lemma CapReached(lines: seq<string>, chosen: set<int>, numCentroids: int, i: nat)
    requires i < |lines| && i in chosen
    requires |Hits(chosen, i + 1)| == Cap(numCentroids)
    ensures Picked(lines, chosen, numCentroids) == Hits(chosen, i + 1)
    ensures CentroidFileText(Emitted(lines, chosen, numCentroids)) == ScanText(lines, chosen, i + 1)
    ensures Scanned(lines, chosen, numCentroids) == i + 1
  {
    var h, full, cap := Hits(chosen, i + 1), Hits(chosen, |lines|), Cap(numCentroids);
    assert h[cap - 1] == i by {
      assert h == Hits(chosen, i) + [i];
    }
    HitsPrefix(chosen, i + 1, |lines|);
    assert full[..cap] == h;
    assert Picked(lines, chosen, numCentroids) == full[..cap];
    assert full[cap - 1] == i;
  }

  /**
   * The read loop: line `lineCounter` is written, under the next id, when its
   * position is chosen; the loop breaks as soon as the id passes `numCentroids`.
   */
  method SelectCentroids(lines: seq<string>, chosen: set<int>, numCentroids: int)
    returns (text: string, scanned: nat)
    ensures text == CentroidFileText(Emitted(lines, chosen, numCentroids))
    ensures scanned == Scanned(lines, chosen, numCentroids)
  {
    var lineCounter := 0;
    var clusterIdCounter := 1;
    text := "";
    while lineCounter < |lines|
      invariant 0 <= lineCounter <= |lines|
      invariant clusterIdCounter == |Hits(chosen, lineCounter)| + 1
      invariant |Hits(chosen, lineCounter)| < Cap(numCentroids)
      invariant text == ScanText(lines, chosen, lineCounter)
    {
      ScanStep(lines, chosen, lineCounter);
      if lineCounter in chosen {
        text := text + RecordLine(Record(clusterIdCounter, lines[lineCounter])) + "\n";
        clusterIdCounter := clusterIdCounter + 1;
        if clusterIdCounter > numCentroids {
          CapReached(lines, chosen, numCentroids, lineCounter);
          scanned := lineCounter + 1;
          return;
        }
      }
      lineCounter := lineCounter + 1;
    }
    ScanFinished(lines, chosen, numCentroids);
    scanned := |lines|;
  }

  /**
   * generateCentroids: sample the indexes, then scan the input once. The
   * records go to RandomCentroidsPath.
   */
  method GenerateCentroids(numCentroids: int, pointNum: int, draws: seq<int>, lines: seq<string>)
    returns (r: Result<Bootstrap, SampleError>)
    requires DrawsBelow(draws, pointNum)
    ensures r.Ok? ==> r.value.path == RandomCentroidsPath
    ensures r.Ok? ==> r.value.drawsUsed <= |draws| && r.value.chosen == Drawn(draws[..r.value.drawsUsed])
    ensures r.Ok? ==> forall j :: 0 <= j < r.value.drawsUsed ==> |Drawn(draws[..j])| < numCentroids
    ensures r.Ok? ==> |r.value.chosen| == (if numCentroids < 0 then 0 else numCentroids)
    ensures r.Ok? ==> forall x :: x in r.value.chosen ==> 1 <= x <= pointNum
    ensures r.Ok? && numCentroids > 0 ==> numCentroids <= pointNum
    ensures r.Ok? ==> r.value.text == CentroidFileText(Emitted(lines, r.value.chosen, numCentroids))
    ensures r.Ok? ==> r.value.scanned == Scanned(lines, r.value.chosen, numCentroids)
    ensures r == Err(BoundNotPositive) <==> numCentroids > 0 && pointNum <= 0
    ensures r == Err(DrawsExhausted) <==> numCentroids > 0 && pointNum > 0 && |Drawn(draws)| < numCentroids
  {
    var s := SampleIndexes(numCentroids, pointNum, draws);
    if s.Err? {
      return Err(s.error);
    }
    var text, scanned := SelectCentroids(lines, s.value.indexes, numCentroids);
    r := Ok(Bootstrap(RandomCentroidsPath, s.value.drawsUsed, s.value.indexes, text, scanned));
  }

  // ---------------------------------------------------------------------------
  // What the written records are
  // ---------------------------------------------------------------------------

  function Min(a: int, b: int): int
  {
    if a < b then a else b
  }

  /**
   * As many records are written as the cap allows and the chosen positions
   * inside the file provide, whichever is fewer.
   */
  lemma EmittedCount(lines: seq<string>, chosen: set<int>, numCentroids: int)
    ensures |Emitted(lines, chosen, numCentroids)| == Min(Cap(numCentroids), |Below(chosen, |lines|)|)
  {
    HitsCount(chosen, |lines|);
  }

  /** Record j carries id j + 1 and copies the line at a chosen position inside the file. */
  lemma EmittedFromChosen(lines: seq<string>, chosen: set<int>, numCentroids: int)
    ensures var p, e := Picked(lines, chosen, numCentroids), Emitted(lines, chosen, numCentroids);
      |e| == |p| &&
      forall j :: 0 <= j < |e| ==> e[j].id == j + 1 && p[j] in chosen && p[j] < |lines| && e[j].line == lines[p[j]]
  {
  }

  /** Records follow file order, so no input line is written twice. */
  lemma PickedInFileOrder(lines: seq<string>, chosen: set<int>, numCentroids: int)
    ensures var p := Picked(lines, chosen, numCentroids);
      forall a, b :: 0 <= a < b < |p| ==> p[a] < p[b]
  {
    HitsIncreasing(chosen, |lines|);
  }

  /**
   * No chosen line is skipped: every chosen position inside the file is
   * written, unless the cap was reached before the scan got to it.
   */
  lemma PickedSkipsNone(lines: seq<string>, chosen: set<int>, numCentroids: int, i: int)
    requires i in chosen && 0 <= i < |lines|
    requires var p := Picked(lines, chosen, numCentroids);
      |p| < Cap(numCentroids) || i <= p[|p| - 1]
    ensures i in Picked(lines, chosen, numCentroids)
  {
    var h := Hits(chosen, |lines|);
    HitsIncreasing(chosen, |lines|);
    HitsComplete(chosen, |lines|, i);
    var t :| 0 <= t < |h| && h[t] == i;
    if |h| > Cap(numCentroids) {
      assert t < Cap(numCentroids);
      assert h[..Cap(numCentroids)][t] == i;
    }
  }

  /**
   * Every chosen position is a draw of `nextInt` plus one, so whatever the
   * draws, the first input line (position 0) is never written.
   */
  lemma FirstLineNeverEmitted(lines: seq<string>, draws: seq<int>, pointNum: int, used: nat, numCentroids: int)
    requires DrawsBelow(draws, pointNum) && used <= |draws|
    ensures var p := Picked(lines, Drawn(draws[..used]), numCentroids);
      forall j :: 0 <= j < |p| ==> p[j] >= 1
  {
    var prefix := draws[..used];
    DrawnMembers(prefix);
    forall x | x in Drawn(prefix) ensures x >= 1 {
      var t :| 0 <= t < |prefix| && x == prefix[t] + 1;
      assert prefix[t] == draws[t];
    }
  }

  /**
   * When the index `pointNum` is drawn and the file has exactly `pointNum`
   * lines, that index falls past the last line (positions are 0-based), and
   * one record fewer than requested is written.
   */
  lemma ShortWhenLastIndexDrawn(lines: seq<string>, chosen: set<int>, numCentroids: int)
    requires numCentroids >= 1 && |chosen| == numCentroids
    requires forall x :: x in chosen ==> 1 <= x <= |lines|
    requires |lines| in chosen
    ensures |Emitted(lines, chosen, numCentroids)| == numCentroids - 1
  {
    HitsCount(chosen, |lines|);
    assert Below(chosen, |lines|) == chosen - {|lines|};
  }

  /** The scan stops on the line of the last record, or at the end of the file. */
  lemma ScanStopsAfterLastRecord(lines: seq<string>, chosen: set<int>, numCentroids: int)
    ensures var p, s := Picked(lines, chosen, numCentroids), Scanned(lines, chosen, numCentroids);
      && s <= |lines|
      && (|p| == Cap(numCentroids) ==> s == p[|p| - 1] + 1)
      && (|p| < Cap(numCentroids) ==> s == |lines|)
  {
  }
}
