/**
 * The round loop of the driver's main: run a clustering job, move the
 * centroid file to a name of the driver's own after the first round, merge
 * the reducers' output into it, and stop once no centroid moved or the
 * iteration counter has passed the maximum.
 *
 * A job is replaced by what it reports: the unconverged-centroid counter and
 * the listing of the output directory. The engine's answers for successive
 * rounds are given as a sequence.
 */
module IterationDriver {
  import opened Results
  import opened TextFormat
  import CentroidMerge

  /** What is appended to the centroid file name after the first round. */
  const FinalSuffix: string := "_final.txt"

  /** What a finished job reports. */
  datatype RoundResult = RoundResult(unconverged: int, outputs: seq<CentroidMerge.OutputFile>)

  /**
   * One completed round: its iteration number, the centroid file the job was
   * configured with, the file the merge wrote and what it wrote there, the
   * counter, and whether the output directory was deleted afterwards.
   */
  datatype RoundLog = RoundLog(
    iteration: int,
    readFrom: string,
    writtenTo: string,
    written: string,
    unconverged: int,
    outputDeleted: bool)

  datatype RunOutcome =
    | Finished(centroidsPath: string)  // the loop ended normally
    | RenameFailed                     // the centroid path is made of dots only: split("\\.") is empty
    | EngineExhausted                  // no job result was supplied for the next round

  predicate AllDots(s: string)
  {
    forall j :: 0 <= j < |s| ==> s[j] == '.'
  }

  predicate EndsWith(s: string, suffix: string)
  {
    |suffix| <= |s| && s[|s| - |suffix|..] == suffix
  }

  /**
   * The centroid path after the first round: the text before the first '.'
   * followed by "_final.txt". Java's split drops trailing empty pieces, so a
   * non-empty path of dots only splits into nothing and indexing it throws.
   */
  function FinalCentroidsPath(centroids: string): Option<string>
  {
    if centroids != "" && AllDots(centroids) then None
    else Some(centroids[..IndexOf(centroids, '.')] + FinalSuffix)
  }

  /**
   * The new path exists unless the old one is dots only; it ends with
   * "_final.txt", and what comes before is the old path up to its first '.'.
   */
  lemma FinalPathShape(centroids: string)
    ensures FinalCentroidsPath(centroids).None? <==> centroids != "" && AllDots(centroids)
    ensures FinalCentroidsPath(centroids).Some? ==>
      var r := FinalCentroidsPath(centroids).value;
      var stem := r[..|r| - |FinalSuffix|];
      && EndsWith(r, FinalSuffix)
      && stem <= centroids
      && '.' !in stem
      && (|stem| == |centroids| || centroids[|stem|] == '.')
  {
    if FinalCentroidsPath(centroids).Some? {
      var i := IndexOf(centroids, '.');
      var r := FinalCentroidsPath(centroids).value;
      assert r[..|r| - |FinalSuffix|] == centroids[..i];
      assert r[|r| - |FinalSuffix|..] == FinalSuffix;
    }
  }

  /** The driver never writes its centroids over the file the caller supplied. */
  lemma FinalPathDiffersFromCaller(centroids: string)
    requires FinalCentroidsPath(centroids).Some?
    ensures FinalCentroidsPath(centroids).value != centroids
  {
    var i := IndexOf(centroids, '.');
    var r := FinalCentroidsPath(centroids).value;
    assert r == centroids[..i] + FinalSuffix;
    assert r[i] == '_';
    if i < |centroids| {
      assert centroids[i] == '.';
    }
  }

  /**
   * A path made of a non-empty stem without '.' and an extension starting
   * with '.' is renamed to the stem followed by "_final.txt"; the bootstrap
   * file initial_means/random_centroids.txt becomes
   * initial_means/random_centroids_final.txt.
   */
  lemma {:induction false} FinalPathOfExtension(stem: string, ext: string)
    requires stem != [] && '.' !in stem && |ext| > 0 && ext[0] == '.'
    ensures FinalCentroidsPath(stem + ext) == Some(stem + FinalSuffix)
  {
    var p := stem + ext;
    assert p[|stem|] == '.';
    assert IndexOf(p, '.') == |stem| by {
      forall j | 0 <= j < |stem| ensures p[j] != '.' { assert p[j] == stem[j]; }
    }
    assert p[..|stem|] == stem;
    assert p[0] != '.';
  }

  /** The largest number of rounds the loop can run. */
  function MaxRounds(maxIterations: int): nat
  {
    if maxIterations < 1 then 1 else maxIterations + 1
  }

  /** The stop test after a round. */
  predicate Stops(unconverged: int, iteration: int, maxIterations: int)
  {
    unconverged == 0 || iteration > maxIterations
  }

  /**
   * What the log holds for round `i + 1`, whose job reported `r`: its number
   * and counter, the caller's path as the job's input in round 1 and the
   * renamed path afterwards, the renamed path as the file written, the merge
   * of the job's part-r-* files as its text, and a deletion of the output
   * directory exactly when the stop test fails.
   */
  predicate Recorded(e: RoundLog, i: nat, r: RoundResult, initialCentroids: string, maxIterations: int)
  {
    && e.iteration == i + 1
    && e.unconverged == r.unconverged
    && FinalCentroidsPath(initialCentroids) == Some(e.writtenTo)
    && e.readFrom == (if i == 0 then initialCentroids else e.writtenTo)
    && e.written == Unlines(CentroidMerge.PartLines(r.outputs))
    && (e.outputDeleted <==> !Stops(r.unconverged, i + 1, maxIterations))
  }

  /** Appending the entry of the next round keeps the log's per-round facts. */
  lemma AppendRound(log: seq<RoundLog>, entry: RoundLog, engine: seq<RoundResult>, initialCentroids: string, maxIterations: int)
    requires |log| < |engine|
    requires forall i :: 0 <= i < |log| ==> Recorded(log[i], i, engine[i], initialCentroids, maxIterations)
    requires forall i :: 0 <= i < |log| - 1 ==> !Stops(engine[i].unconverged, i + 1, maxIterations)
    requires |log| >= 1 ==> !Stops(engine[|log| - 1].unconverged, |log|, maxIterations)
    requires Recorded(entry, |log|, engine[|log|], initialCentroids, maxIterations)
    ensures forall i :: 0 <= i < |log| + 1 ==>
      Recorded((log + [entry])[i], i, engine[i], initialCentroids, maxIterations)
    ensures forall i :: 0 <= i < |log| ==> !Stops(engine[i].unconverged, i + 1, maxIterations)
  {
    var extended := log + [entry];
    forall i | 0 <= i < |log| + 1
      ensures Recorded(extended[i], i, engine[i], initialCentroids, maxIterations)
    {
      if i < |log| {
        assert extended[i] == log[i];
      } else {
        assert extended[i] == entry;
      }
    }
  }

  /**
   * In a log whose rounds all continue except possibly the last, the output
   * directory was deleted after every round but the last, and after the last
   * exactly when it did not stop.
   */
  lemma DeletedBeforeLast(log: seq<RoundLog>, engine: seq<RoundResult>, initialCentroids: string, maxIterations: int, lastStops: bool)
    requires |log| <= |engine|
    requires forall i :: 0 <= i < |log| ==> Recorded(log[i], i, engine[i], initialCentroids, maxIterations)
    requires forall i :: 0 <= i < |log| - 1 ==> !Stops(engine[i].unconverged, i + 1, maxIterations)
    requires |log| >= 1 ==> (lastStops <==> Stops(engine[|log| - 1].unconverged, |log|, maxIterations))
    ensures forall i :: 0 <= i < |log| ==> (log[i].outputDeleted <==> i < |log| - 1 || !lastStops)
  {
  }

  /**
   * The round loop. `engine[i]` is what the job of round i + 1 reports.
   */
  method RunRounds(initialCentroids: string, maxIterations: int, engine: seq<RoundResult>)
    returns (outcome: RunOutcome, log: seq<RoundLog>)
    ensures |log| <= |engine| && |log| <= MaxRounds(maxIterations)
    ensures forall i :: 0 <= i < |log| ==>
      Recorded(log[i], i, engine[i], initialCentroids, maxIterations) && log[i].writtenTo != initialCentroids
    ensures forall i :: 0 <= i < |log| ==> log[i].writtenTo == log[0].writtenTo
    ensures forall i :: 0 <= i < |log| - 1 ==> !Stops(engine[i].unconverged, i + 1, maxIterations)
    ensures forall i :: 0 <= i < |log| ==> (log[i].outputDeleted <==> i < |log| - 1 || outcome.EngineExhausted?)
    ensures outcome.Finished? ==>
      && |log| >= 1
      && Stops(engine[|log| - 1].unconverged, |log|, maxIterations)
      && outcome.centroidsPath == log[|log| - 1].writtenTo
    ensures outcome.RenameFailed? <==> |engine| >= 1 && FinalCentroidsPath(initialCentroids).None?
    ensures outcome.RenameFailed? ==> log == []
    ensures outcome.EngineExhausted? ==>
      |log| == |engine| < MaxRounds(maxIterations) && (|log| == 0 || !Stops(engine[|log| - 1].unconverged, |log|, maxIterations))
    ensures |engine| >= MaxRounds(maxIterations) && FinalCentroidsPath(initialCentroids).Some? ==> outcome.Finished?
  {
    var iteration := 1;
    var isConverged := false;
    var centroids := initialCentroids;
    log := [];
    while !isConverged && iteration - 1 < |engine|
      invariant iteration == |log| + 1 && |log| <= |engine|
      invariant if isConverged then 1 <= |log| <= MaxRounds(maxIterations) else |log| < MaxRounds(maxIterations)
      invariant |log| == 0 ==> centroids == initialCentroids
      invariant |log| >= 1 ==> FinalCentroidsPath(initialCentroids) == Some(centroids)
      invariant |log| >= 1 ==> (isConverged <==> Stops(engine[|log| - 1].unconverged, |log|, maxIterations))
      invariant forall i :: 0 <= i < |log| ==> Recorded(log[i], i, engine[i], initialCentroids, maxIterations)
      invariant forall i :: 0 <= i < |log| - 1 ==> !Stops(engine[i].unconverged, i + 1, maxIterations)
      decreases MaxRounds(maxIterations) - |log|
    {
      // job.waitForCompletion: the engine runs the round
      var round := engine[iteration - 1];
      var readFrom := centroids;
      if iteration == 1 {
        var renamed := FinalCentroidsPath(centroids);
        if renamed.None? {
          outcome := RenameFailed;
          return;
        }
        centroids := renamed.value;
      }
      var written := CentroidMerge.ComputeNewCentroids(round.outputs);
      var counter := round.unconverged;
      isConverged := counter == 0 || iteration > maxIterations;
      // the output directory is deleted only when another round follows
      var deleted := !isConverged;
      var entry := RoundLog(iteration, readFrom, centroids, written, counter, deleted);
      assert Recorded(entry, iteration - 1, round, initialCentroids, maxIterations);
      AppendRound(log, entry, engine, initialCentroids, maxIterations);
      log := log + [entry];
      iteration := iteration + 1;
    }
    if |log| > 0 {
      FinalPathDiffersFromCaller(initialCentroids);
    }
    DeletedBeforeLast(log, engine, initialCentroids, maxIterations, isConverged);
    if isConverged {
      outcome := Finished(centroids);
    } else {
      outcome := EngineExhausted;
    }
  }
}
