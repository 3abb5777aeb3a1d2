/**
 * computeNewCentroids: the reducers leave one part-r-* file each in the
 * output directory; their lines, in listing order, become the new centroid
 * file, each line written followed by "\n".
 *
 * The file system is replaced by the directory listing it would return,
 * each entry with the lines a line reader would read from it.
 */
module CentroidMerge {
  import opened TextFormat

  /** One entry of the output directory: its name and its lines. */
  datatype OutputFile = OutputFile(name: string, lines: seq<string>)

  /** The name prefix of the files the reducers write. */
  const PartPrefix: string := "part-r-"

  predicate IsPartFile(f: OutputFile)
  {
    PartPrefix <= f.name
  }

  /** The listing filtered to the part-r-* files, order kept. */
  function PartFiles(listing: seq<OutputFile>): seq<OutputFile>
  {
    if listing == [] then []
    else (if IsPartFile(listing[0]) then [listing[0]] else []) + PartFiles(listing[1..])
  }

  /** The lines of the given files, one file after the other. */
  function Concat(files: seq<OutputFile>): seq<string>
  {
    if files == [] then [] else files[0].lines + Concat(files[1..])
  }

  /** The lines of every part-r-* file of the listing, in listing order. */
  function PartLines(listing: seq<OutputFile>): seq<string>
  {
    Concat(PartFiles(listing))
  }

  lemma {:induction false} ConcatAppend(a: seq<OutputFile>, b: seq<OutputFile>)
    ensures Concat(a + b) == Concat(a) + Concat(b)
  {
    if a != [] {
      assert (a + b)[1..] == a[1..] + b;
      ConcatAppend(a[1..], b);
    } else {
      assert a + b == b;
    }
  }

  lemma {:induction false} PartFilesAppend(a: seq<OutputFile>, b: seq<OutputFile>)
    ensures PartFiles(a + b) == PartFiles(a) + PartFiles(b)
  {
    if a != [] {
      assert (a + b)[1..] == a[1..] + b;
      PartFilesAppend(a[1..], b);
    } else {
      assert a + b == b;
    }
  }

  /** The merge of two listings laid end to end is the merge of the first, then of the second. */
  lemma PartLinesAppend(a: seq<OutputFile>, b: seq<OutputFile>)
    ensures PartLines(a + b) == PartLines(a) + PartLines(b)
  {
    PartFilesAppend(a, b);
    ConcatAppend(PartFiles(a), PartFiles(b));
  }

  /** A listing of one file contributes that file's lines if it is a part-r-* file, else nothing. */
  lemma PartLinesSingle(f: OutputFile)
    ensures PartLines([f]) == if IsPartFile(f) then f.lines else []
  {
    assert [f][1..] == [];
    if IsPartFile(f) {
      assert PartFiles([f]) == [f];
      assert [f][1..] == [];
      assert Concat([f]) == f.lines + Concat([]);
      assert f.lines + [] == f.lines;
    } else {
      assert PartFiles([f]) == [];
    }
  }

  /** A file whose name does not start with "part-r-" contributes nothing, wherever it is listed. */
  lemma NonPartFileIgnored(a: seq<OutputFile>, f: OutputFile, b: seq<OutputFile>)
    requires !IsPartFile(f)
    ensures PartLines(a + [f] + b) == PartLines(a + b)
  {
    PartLinesAppend(a + [f], b);
    PartLinesAppend(a, [f]);
    PartLinesAppend(a, b);
    PartLinesSingle(f);
    assert PartLines(a) + [] == PartLines(a);
  }

  /** A line is in the merge exactly when some part-r-* file of the listing holds it. */
  lemma {:induction false} PartLinesMembers(listing: seq<OutputFile>, line: string)
    ensures line in PartLines(listing) <==>
      exists k :: 0 <= k < |listing| && IsPartFile(listing[k]) && line in listing[k].lines
  {
    if listing != [] {
      var rest := listing[1..];
      PartLinesAppend([listing[0]], rest);
      assert listing == [listing[0]] + rest;
      PartLinesMembers(rest, line);
      PartLinesSingle(listing[0]);
      if exists k :: 0 <= k < |rest| && IsPartFile(rest[k]) && line in rest[k].lines {
        var k :| 0 <= k < |rest| && IsPartFile(rest[k]) && line in rest[k].lines;
        assert listing[k + 1] == rest[k];
      }
      if exists k :: 0 <= k < |listing| && IsPartFile(listing[k]) && line in listing[k].lines {
        var k :| 0 <= k < |listing| && IsPartFile(listing[k]) && line in listing[k].lines;
        if k > 0 {
          assert rest[k - 1] == listing[k];
        }
      }
    }
  }

  /** The new centroid file reads back as the merged lines. */
  lemma MergeReadsBack(listing: seq<OutputFile>)
    requires forall k :: 0 <= k < |listing| ==> AllLines(listing[k].lines)
    ensures Lines(Unlines(PartLines(listing))) == PartLines(listing)
  {
    forall l | l in PartLines(listing) ensures IsLine(l) {
      PartLinesMembers(listing, l);
    }
    LinesOfUnlines(PartLines(listing));
  }

  /** Writing line `j` of `ls` after the first `j` extends the text by one line. */
  lemma WriteLine(prefix: string, ls: seq<string>, j: nat)
    requires j < |ls|
    ensures prefix + Unlines(ls[..j]) + ls[j] + "\n" == prefix + Unlines(ls[..j + 1])
  {
    assert ls[..j + 1] == ls[..j] + [ls[j]];
    UnlinesAppend(ls[..j], [ls[j]]);
    assert Unlines([ls[j]]) == ls[j] + "\n";
  }

  /** Writing all lines of file `i` after those of the files before it. */
  lemma WriteFile(files: seq<OutputFile>, i: nat)
    requires i < |files|
    ensures Unlines(Concat(files[..i])) + Unlines(files[i].lines) == Unlines(Concat(files[..i + 1]))
  {
    assert files[..i + 1] == files[..i] + [files[i]];
    ConcatAppend(files[..i], [files[i]]);
    assert Concat([files[i]]) == files[i].lines;
    UnlinesAppend(Concat(files[..i]), files[i].lines);
  }

  /**
   * The nested loops: for each part-r-* file in listing order, write each of
   * its lines followed by "\n".
   */
  method ComputeNewCentroids(listing: seq<OutputFile>) returns (text: string)
    ensures text == Unlines(PartLines(listing))
  {
    var outfiles := PartFiles(listing);
    text := "";
    for i := 0 to |outfiles|
      invariant text == Unlines(Concat(outfiles[..i]))
    {
      ghost var before := text;
      var lines := outfiles[i].lines;
      var j := 0;
      while j < |lines|
        invariant 0 <= j <= |lines|
        invariant text == before + Unlines(lines[..j])
      {
        WriteLine(before, lines, j);
        text := text + lines[j] + "\n";
        j := j + 1;
      }
      assert lines[..j] == lines;
      WriteFile(outfiles, i);
    }
    assert outfiles[..|outfiles|] == outfiles;
  }
}
