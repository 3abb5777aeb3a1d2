# K-means on Hadoop: the driver, modelled in Dafny

The driver class `Kmean` of the Kmeans-Hadoop project runs k-means as a series of MapReduce jobs. This project models the parts of the driver that are its own logic, not Hadoop's:

- **Centroid bootstrap** (`generateCentroids`). When the caller gives a number k instead of a centroid file, the driver draws k distinct line indexes at random. It then copies the lines at those indexes into `initial_means/random_centroids.txt` as `id \t line`. Ids run 1, 2, … in file order, and the scan stops after the k-th record.
- **The round loop** of `main`. Each round runs a job, reads the job's unconverged-centroid counter and merges the output into the centroid file. The loop stops when the counter is 0 or the iteration number has passed the maximum. Otherwise it deletes the output directory and runs another round.
- **The `_final.txt` rename** after round 1. The centroid path becomes the text before its first `.` followed by `_final.txt`, so the caller's file is never overwritten.
- **The merge of the reducers' output** (`computeNewCentroids`). Every line of every `part-r-*` file, in listing order, is written followed by `"\n"`.

Modules:

- `TextFormat` (`text_format.dfy`): the text conventions. It has the first index of a character, lines written with `"\n"` (`Unlines`), the lines a line reader gets back (`Lines`), and decimal numbers.
- `CentroidBootstrap` (`bootstrap.dfy`): the sampling loop `SampleIndexes`, the read loop `SelectCentroids` and the two composed in `GenerateCentroids`. It also has the specification functions they are proved against: `Drawn`, `Hits`, `Picked`, `Emitted` and `Scanned`.
- `CentroidMerge` (`merge.dfy`): the nested loops of `ComputeNewCentroids`, proved against `PartLines`.
- `IterationDriver` (`driver.dfy`): `FinalCentroidsPath` and the round loop `RunRounds`.
- `Results` (`results.dfy`): `Option` and `Result`.

The outside world becomes inputs:

- The random generator is the sequence of values its `nextInt(pointNum)` calls return.
- The input file and each reducer output file are sequences of lines.
- A MapReduce job is replaced by what it reports: a `RoundResult` holding the counter and the listing of the output directory.
- Writing a file is the text produced.
- Deleting the output directory is a flag in the round log.

Finite inputs add two outcomes the Java code cannot reach. `DrawsExhausted` means the draws ran out before the set was full, where the Java loop would keep drawing. `EngineExhausted` means there was no job result for the next round.

## Behaviour of the code worth knowing

The model follows the code in each case below, even where a reader of the driver might expect otherwise.

- **Number of rounds.** One might expect at most `max_iterations` rounds. The stop test `iteration > max_iterations` is made before `iteration++`, so the code runs up to `max_iterations + 1` rounds. With a maximum of 1 and a nonzero counter, the code runs two rounds, not one. `RunRounds` proves the bound `MaxRounds` = max(1, max_iterations + 1).
- **Sampled positions.** One might expect k positions among the N input lines, numbered from 0, and exactly k records. The code draws `nextInt(pointNum) + 1`, which is in `[1, pointNum]`, and compares it with a 0-based line counter. So the first line is never chosen (`FirstLineNeverEmitted`). When `pointNum` is drawn and the file has exactly `pointNum` lines, only k − 1 records are written (`ShortWhenLastIndexDrawn`).
- **Bad k.** The code rejects neither k ≤ 0 nor a k larger than the number of points. With k ≤ 0 it draws nothing and writes an empty file. With k > pointNum and pointNum > 0 the sampling loop never ends; the model shows that no sequence of draws can fill the set (`SampleIndexes`, `DrawnBounded`). With pointNum ≤ 0 and k > 0 the first draw throws, which the model reports as `BoundNotPositive`.
- **The rename.** `split("\\.")[0]` throws when the centroid path is non-empty and made only of dots. Java's split drops trailing empty strings, so the array is empty. The model returns `RenameFailed` in that case.

## Model

| member | source | states |
|---|---|---|
| CentroidBootstrap.SampleIndexes | Kmeans/src/main/java/it/unipi/hadoop/Kmeans/Kmean.java:148-153 | On success the set is the shifted draws seen so far and holds exactly max(k, 0) indexes, all in [1, pointNum]. It stops at the first draw that fills the set. Success with k > 0 implies k ≤ pointNum. A bound ≤ 0 fails exactly when k > 0. Running out of draws happens exactly when all the draws together give fewer than k distinct indexes. |
| CentroidBootstrap.DrawnMembers | Kmeans/src/main/java/it/unipi/hadoop/Kmeans/Kmean.java:152 | An index is in the set exactly when some draw plus one equals it. |
| CentroidBootstrap.DrawnBounded | Kmeans/src/main/java/it/unipi/hadoop/Kmeans/Kmean.java:151-153 | Every drawn index is in [1, pointNum], and at most pointNum distinct indexes can be drawn, so the loop cannot fill a set of k > pointNum. |
| CentroidBootstrap.SelectCentroids | Kmeans/src/main/java/it/unipi/hadoop/Kmeans/Kmean.java:155-169 | The text written is the centroid-file text of `Emitted`, and the number of lines read is `Scanned`. |
| CentroidBootstrap.GenerateCentroids | Kmeans/src/main/java/it/unipi/hadoop/Kmeans/Kmean.java:139-177 | It writes to `initial_means/random_centroids.txt`. The chosen set is the shifted draws up to the first draw that fills it, of size max(k, 0) inside [1, pointNum]. The text is the records of that set in file order, and the scan length is as specified. It shares the sampling error cases. |
| CentroidBootstrap.EmittedCount | Kmeans/src/main/java/it/unipi/hadoop/Kmeans/Kmean.java:159-166 | The number of records is the minimum of the cap and the number of chosen positions inside the file. |
| CentroidBootstrap.EmittedFromChosen | Kmeans/src/main/java/it/unipi/hadoop/Kmeans/Kmean.java:161-163 | Record j has id j + 1 and copies the line at a chosen position inside the file. |
| CentroidBootstrap.PickedInFileOrder | Kmeans/src/main/java/it/unipi/hadoop/Kmeans/Kmean.java:159-168 | The positions written rise strictly, so records keep file order and no line is written twice. |
| CentroidBootstrap.PickedSkipsNone | Kmeans/src/main/java/it/unipi/hadoop/Kmeans/Kmean.java:159-168 | Every chosen position inside the file is written unless the cap was reached before the scan got to it. |
| CentroidBootstrap.FirstLineNeverEmitted | Kmeans/src/main/java/it/unipi/hadoop/Kmeans/Kmean.java:145-161 | For any draws of `nextInt(pointNum)` and any number of them used, the set they build never makes the scan write line 0. |
| CentroidBootstrap.ShortWhenLastIndexDrawn | Kmeans/src/main/java/it/unipi/hadoop/Kmeans/Kmean.java:152-161 | If pointNum is drawn and the file has pointNum lines, exactly k − 1 records are written. |
| CentroidBootstrap.ScanStopsAfterLastRecord | Kmeans/src/main/java/it/unipi/hadoop/Kmeans/Kmean.java:164-165 | The scan stops on the line of the k-th record, or at the end of the file if fewer records were written. |
| CentroidBootstrap.CentroidFileRoundTrip | Kmeans/src/main/java/it/unipi/hadoop/Kmeans/Kmean.java:162 | A file of `id \t line \n` records reads back as the same records when no line holds a line feed. |
| TextFormat.ParseDecimalOfDecimal | Kmeans/src/main/java/it/unipi/hadoop/Kmeans/Kmean.java:162 | The decimal text of an id reads back as the id. |
| TextFormat.Decimal | Kmeans/src/main/java/it/unipi/hadoop/Kmeans/Kmean.java:162 | An id is written as one or more digits with no leading zero. |
| TextFormat.LinesOfUnlines | Kmeans/src/main/java/it/unipi/hadoop/Kmeans/Kmean.java:127-131 | Lines written each followed by "\n" read back, line by line, as the same lines. |
| TextFormat.UnlinesAppend | Kmeans/src/main/java/it/unipi/hadoop/Kmeans/Kmean.java:129 | Writing two batches of lines in turn gives the text of their concatenation. |
| CentroidMerge.ComputeNewCentroids | Kmeans/src/main/java/it/unipi/hadoop/Kmeans/Kmean.java:117-135 | The new centroid text is every line of every part-r-* file, in listing order, each followed by "\n". |
| CentroidMerge.PartLinesMembers | Kmeans/src/main/java/it/unipi/hadoop/Kmeans/Kmean.java:121-133 | A line is in the merge exactly when some part-r-* file of the listing holds it. |
| CentroidMerge.NonPartFileIgnored | Kmeans/src/main/java/it/unipi/hadoop/Kmeans/Kmean.java:121 | A file whose name does not start with "part-r-" contributes nothing, wherever it is listed. |
| CentroidMerge.PartLinesAppend | Kmeans/src/main/java/it/unipi/hadoop/Kmeans/Kmean.java:125-133 | The merge of two listings laid end to end is the merge of the first followed by the merge of the second. |
| CentroidMerge.PartLinesSingle | Kmeans/src/main/java/it/unipi/hadoop/Kmeans/Kmean.java:121-131 | A single file contributes its lines if it is a part-r-* file, and nothing otherwise. |
| CentroidMerge.MergeReadsBack | Kmeans/src/main/java/it/unipi/hadoop/Kmeans/Kmean.java:127-131 | The merged text reads back, line by line, as the merged lines. |
| IterationDriver.FinalPathShape | Kmeans/src/main/java/it/unipi/hadoop/Kmeans/Kmean.java:98 | The rename fails exactly for a non-empty path of dots only. Otherwise the new path ends with "_final.txt" and starts with the old path up to its first '.', a stem with no '.' in it. |
| IterationDriver.FinalPathDiffersFromCaller | Kmeans/src/main/java/it/unipi/hadoop/Kmeans/Kmean.java:96-101 | The renamed path is never the caller's path. |
| IterationDriver.FinalPathOfExtension | Kmeans/src/main/java/it/unipi/hadoop/Kmeans/Kmean.java:98 | A non-empty stem without '.' followed by an extension starting with '.' is renamed to the stem plus `_final.txt`, so `initial_means/random_centroids.txt` becomes `initial_means/random_centroids_final.txt`. |
| IterationDriver.RunRounds | Kmeans/src/main/java/it/unipi/hadoop/Kmeans/Kmean.java:63-113 | Rounds are numbered 1, 2, … and each round's counter is the job's. At most max(1, max_iterations + 1) rounds run. Every round before the last continues (counter ≠ 0 and iteration ≤ max), and a finished run's last round stops. The output directory is deleted exactly when another round follows. Round 1 reads the caller's path. Every round writes the merged part-r-* lines to the renamed path, which never equals the caller's path and stays the same in later rounds. The rename failure happens exactly when a first round ran on a dots-only path. Given enough job results, the run always finishes. |

## Left out

- Job construction and submission (`Job`, mapper, combiner and reducer classes, input and output formats, `waitForCompletion`). This is framework plumbing. A round is what its job reports.
- The nearest-centroid assignment, the combining, the mean and the convergence test live in `KmeansMapper`, `KmeansCombiner`, `KmeansReducer`, `Mean`, `Point` and `CentroidCounter`. These classes are not part of this model. The counter and the part files they produce are inputs.
- `FileSystem`, the readers and the writers. File contents are sequences of lines. A written file is the text produced. `fs.delete` is the `outputDeleted` flag, and the listing of the output directory is an input in its listing order.
- `java.util.Random` seeded by the clock. The draws are an input.
- Argument parsing (`GenericOptionsParser`, `StringUtils.isNumeric`, `Integer.parseInt`, `Double.parseDouble`), including the parse of `pointNum` from the input path and the choice at lines 50-55. `RunRounds` takes the initial centroid path: either the caller's file, or `RandomCentroidsPath` after `GenerateCentroids`. `pointNum` is a parameter.
- `threshold` and `numReducers` are only handed to the configuration. The configured `centroidsFilePath` appears as each round's `readFrom`.
- The console output of lines 38, 110-111 and 114.
- Exceptions from I/O.
- The `Path` normalisation of `new Path(...)`. Paths are plain strings.
- A line reader also ends a line at "\r". `Lines` splits only at "\n", which is all the driver itself writes.
- `RunRounds`: `iteration` is an unbounded integer. The Java `int` would wrap only after 2^31 rounds, when `max_iterations` is `Integer.MAX_VALUE`.
- `SelectCentroids`: `clusterIdCounter` is an unbounded integer. In Java it wraps only when k = `Integer.MAX_VALUE`, which needs 2^31 − 1 drawn indexes and an input of more than 2^31 − 1 lines; the wrapped counter would then also skip the `break`.
