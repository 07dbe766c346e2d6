/**
 The log stream as a team receives it (services/race.rs): the bounded snapshot, then the lines that
 are appended after it, and what the two together say about the file. The bot goes on writing all
 the while: between the measuring of the file and its reading, during the reading, and after it.
 */
module BotLogStream {
  import opened BotLog

  predicate EndsALine(s: string) {
    s == "" || s[|s| - 1] == '\n'
  }

  lemma {:induction false} RemainderEmpty(s: string)
    ensures Remainder(s) == "" <==> EndsALine(s)
  {
    if s != "" {
      RemainderEmpty(s[..|s| - 1]);
    }
  }

  lemma {:induction false} SnapshotLines(seen: string)
    ensures ShortenAll(FileLines(seen)) ==
            CleanAll(Segments(seen)) + if EndsALine(seen) then [] else [Shorten(Remainder(seen))]
  {
    RemainderEmpty(seen);
    ShorteningStripped(Segments(seen), if EndsALine(seen) then [] else [Remainder(seen)]);
  }

  lemma {:induction false} StreamedLines(seen: string, files: seq<string>)
    requires Grows(seen, files)
    ensures seen <= FinalFile(seen, files)
    ensures FollowAll(Cursor(|seen|, ""), files).1 == CleanAll(Segments(FinalFile(seen, files)[|seen|..]))
  {
    ChunkingDoesNotMatter(|seen|, seen, files);
    assert seen[|seen|..] == "";
  }

  lemma {:induction false} WholeLines(seen: string, rest: string)
    ensures |CleanAll(Segments(seen + rest))| == |CleanAll(Segments(seen))| + |CleanAll(Segments(rest))|
    ensures |CleanAll(Segments(seen + rest))| == |Segments(seen + rest)|
    ensures EndsALine(seen) ==>
              CleanAll(Segments(seen + rest)) == CleanAll(Segments(seen)) + CleanAll(Segments(rest))
  {
    SegmentsAdd(seen, rest);
    CleanAllAdds(Segments(seen), Segments(rest));
    if EndsALine(seen) {
      RemainderEmpty(seen);
      ResumesAfterNewline(seen, rest);
    }
  }

  lemma {:induction false} Restore(prefix: string, s: string)
    requires prefix <= s
    ensures prefix + s[|prefix|..] == s
  {
  }

  lemma {:induction false} WithoutSegments(s: string)
    requires Segments(s) == []
    ensures '\n' !in s && Remainder(s) == s
  {
    SplittingIsExact(s);
    assert Joined([]) == "";
  }

  lemma {:induction false} FirstSegmentIsBegun(begun: string, front: string)
    requires '\n' !in begun && Segments(front) == []
    ensures Segments(begun + front) == [] && Remainder(begun + front) == begun + front
    ensures Remainder(front) == front
  {
    WithoutSegments(front);
    UnbrokenText(begun + front);
  }

  /** Of the segments that follow a begun line, only the first is different for it. */
  lemma {:induction false} BegunBefore(begun: string, rest: string)
    requires '\n' !in begun && Segments(rest) != []
    ensures Segments(begun + rest) == [begun + Segments(rest)[0]] + Segments(rest)[1..]
    ensures Remainder(begun + rest) == Remainder(rest)
    decreases |rest|
  {
    var front, c := rest[..|rest| - 1], rest[|rest| - 1];
    assert (begun + rest)[..|begun + rest| - 1] == begun + front;
    if Segments(front) == [] {
      FirstSegmentIsBegun(begun, front);
    } else {
      BegunBefore(begun, front);
      if c == '\n' {
        SegmentsEndedBy(front, Remainder(front), begun);
      }
    }
  }

  lemma {:induction false} SegmentsEndedBy(front: string, last: string, begun: string)
    requires Segments(front) != []
    ensures var segments := Segments(front) + [last];
            [begun + Segments(front)[0]] + Segments(front)[1..] + [last] == [begun + segments[0]] + segments[1..]
  {
    assert (Segments(front) + [last])[1..] == Segments(front)[1..] + [last];
  }

  // ----- The snapshot is read while the file grows -----

  /**
   The lines that a line reader takes of what follows `from`. `ends` is the file as it is each time
   the reader comes to its end. It takes an unterminated end for a line and tries again; it stops at
   an end where no line is begun. If `ends` has no more to say, nothing has been added.
   */
  function LinesRead(from: string, ends: seq<string>): seq<string>
    requires Grows(from, ends)
    decreases |ends|
  {
    if ends == [] then []
    else
      var piece := ends[0][|from|..];
      FileLines(piece) + if EndsALine(piece) then [] else LinesRead(ends[0], ends[1..])
  }

  /** How far the reader got. */
  function LastRead(from: string, ends: seq<string>): (last: string)
    requires Grows(from, ends)
    ensures from <= last && (ends != [] ==> ends[0] <= last)
    decreases |ends|
  {
    if ends == [] then from
    else if EndsALine(ends[0][|from|..]) then ends[0]
    else LastRead(ends[0], ends[1..])
  }

  /** How often the reader came to the end of the file within a line. */
  function Cuts(from: string, ends: seq<string>): nat
    requires Grows(from, ends)
    decreases |ends|
  {
    if ends == [] || EndsALine(ends[0][|from|..]) then 0 else 1 + Cuts(ends[0], ends[1..])
  }

  lemma {:induction false} LinesReadCount(from: string, ends: seq<string>)
    requires Grows(from, ends)
    ensures |LinesRead(from, ends)| == |Segments(LastRead(from, ends)[|from|..])| + Cuts(from, ends)
    decreases |ends|
  {
    if ends == [] {
      assert from[|from|..] == "";
    } else {
      var piece := ends[0][|from|..];
      RemainderEmpty(piece);
      if !EndsALine(piece) {
        LinesReadCount(ends[0], ends[1..]);
        var last := LastRead(ends[0], ends[1..]);
        Restore(from, ends[0]);
        Restore(ends[0], last);
        assert last[|from|..] == piece + last[|ends[0]|..];
        SegmentsAdd(piece, last[|ends[0]|..]);
      }
    }
  }

  /** The file was measured first and has only grown since. */
  ghost predicate Snapshots(measured: string, ends: seq<string>) {
    Grows("", ends) && ends != [] && measured <= ends[0]
  }

  /** The lines that the window is taken from. */
  function SnapshotSource(ends: seq<string>): seq<string>
    requires Grows("", ends)
  {
    ShortenAll(LinesRead("", ends))
  }

  lemma {:induction false} ShortenAllAdds(x: seq<string>, y: seq<string>)
    ensures ShortenAll(x + y) == ShortenAll(x) + ShortenAll(y)
  {
  }

  /** Of the lines that were there when the file was measured, none is missed or cut. */
  lemma {:induction false} MeasuredLinesAreRead(measured: string, ends: seq<string>)
    requires Snapshots(measured, ends)
    ensures CleanAll(Segments(measured)) <= SnapshotSource(ends)
  {
    var first, rest := ends[0], ends[0][|measured|..];
    Restore(measured, first);
    SplittingResumes(measured, rest);
    CleanAllAdds(Segments(measured), Segments(Remainder(measured) + rest));
    SnapshotLines(first);
    ShortenAllAdds(FileLines(first), if EndsALine(first) then [] else LinesRead(first, ends[1..]));
    if EndsALine(first) {
      assert SnapshotSource(ends) == ShortenAll(FileLines(first)) + [];
    }
  }

  // ----- What a team receives -----

  function StreamedAfter(measured: string, files: seq<string>): seq<string> {
    FollowAll(Cursor(|measured|, ""), files).1
  }

  /** The terminated lines of the final file, split in one go. */
  function FinalLines(read: string, files: seq<string>): seq<string> {
    CleanAll(Segments(FinalFile(read, files)))
  }

  /** The lines completed between measuring and reading, and the pieces of lines taken for lines. */
  function Surplus(measured: string, ends: seq<string>, files: seq<string>): nat
    requires Snapshots(measured, ends)
  {
    Cuts("", ends) + if files == [] then 0 else |Segments(LastRead("", ends)[|measured|..])|
  }

  lemma {:induction false} NoSurplus(measured: string, ends: seq<string>, files: seq<string>)
    requires Snapshots(measured, ends)
    ensures Surplus(measured, ends, files) == 0 <==> EndsALine(ends[0]) && (files == [] || ends[0] == measured)
  {
    if EndsALine(ends[0]) {
      var rest := ends[0][|measured|..];
      Restore(measured, ends[0]);
      if rest != "" {
        assert EndsALine(rest);
      }
    }
  }

  /** The polls go on from the measured size. */
  lemma {:induction false} StreamedFromMeasured(measured: string, read: string, files: seq<string>)
    requires measured <= read && Grows(read, files) && files != []
    ensures measured <= FinalFile(read, files)
    ensures StreamedAfter(measured, files) == CleanAll(Segments(FinalFile(read, files)[|measured|..]))
  {
    StreamedLines(measured, files);
  }

  /** How many lines arrive: `surplus` more than the final file has from the k-th on. */
  lemma {:induction false} DeliveredCount(measured: string, ends: seq<string>, files: seq<string>)
    requires Snapshots(measured, ends)
    requires Grows(LastRead("", ends), files)
    ensures |SnapshotSource(ends)| + |StreamedAfter(measured, files)| ==
            |FinalLines(LastRead("", ends), files)| + Surplus(measured, ends, files)
  {
    var read := LastRead("", ends);
    LinesReadCount("", ends);
    assert read[|""|..] == read;
    if files != [] {
      StreamedFromMeasured(measured, read, files);
      var whole := FinalFile(read, files);
      Restore(measured, read);
      Restore(measured, whole);
      SegmentsAdd(measured, read[|measured|..]);
      SegmentsAdd(measured, whole[|measured|..]);
    }
  }

  /** With nothing written in between and no line begun, one continues the other. */
  lemma {:induction false} WithoutSurplus(measured: string, ends: seq<string>, files: seq<string>)
    requires Snapshots(measured, ends) && Grows(LastRead("", ends), files)
    requires EndsALine(ends[0]) && (files == [] || ends[0] == measured)
    ensures SnapshotSource(ends) + StreamedAfter(measured, files) == FinalLines(LastRead("", ends), files)
  {
    var read := ends[0];
    assert LinesRead("", ends) == FileLines(read) + [];
    SnapshotLines(read);
    if files != [] {
      StreamedFromMeasured(measured, read, files);
      var rest := FinalFile(read, files)[|measured|..];
      Restore(measured, FinalFile(read, files));
      WholeLines(measured, rest);
    }
  }

  lemma {:induction false} DropFromSum<T>(x: seq<T>, y: seq<T>, k: nat)
    requires k <= |x|
    ensures (x + y)[k..] == x[k..] + y
  {
  }

  /**
   From the first line that the snapshot keeps, snapshot and stream together deliver each line of
   the final file once if and only if no line was begun where the snapshot's reader came to the end
   of the file and, once the file is polled, nothing had been written since it was measured.
   Otherwise there are too many: every line completed since the measuring comes twice, and every end
   that the reader found within a line has cut a line in two.
   */
  lemma {:induction false} SnapshotAndStreamFitTogether(
    measured: string, ends: seq<string>, files: seq<string>, k: nat)
    requires Snapshots(measured, ends) && Grows(LastRead("", ends), files)
    requires IsLongestFittingTail(SnapshotSource(ends), k)
    ensures k <= |SnapshotSource(ends)|
    ensures var delivered := SnapshotSource(ends)[k..] + StreamedAfter(measured, files);
            var whole := FinalLines(LastRead("", ends), files);
            && |delivered| + k == |whole| + Surplus(measured, ends, files)
            && (k <= |whole| && delivered == whole[k..] <==>
                  EndsALine(ends[0]) && (files == [] || ends[0] == measured))
  {
    NoSurplus(measured, ends, files);
    DeliveredCount(measured, ends, files);
    DropFromSum(SnapshotSource(ends), StreamedAfter(measured, files), k);
    if EndsALine(ends[0]) && (files == [] || ends[0] == measured) {
      WithoutSurplus(measured, ends, files);
    }
  }

  /** A line written after the measuring and before the reading is delivered twice. */
  lemma {:induction false} LineInBetweenComesTwice(line: string)
    requires '\n' !in line
    ensures var file := line + "\n";
            && Snapshots("", [file]) && Grows(LastRead("", [file]), [file])
            && SnapshotSource([file]) + StreamedAfter("", [file]) == [Clean(line), Clean(line)]
            && FinalLines(LastRead("", [file]), [file]) == [Clean(line)]
  {
    var file := line + "\n";
    assert Grows(file, []) && [file][1..] == [];
    OneLine(line);
    SnapshotLines(file);
    assert LinesRead("", [file]) == FileLines(file) + [];
    assert Grows(file, [file]);
    StreamedFromMeasured("", file, [file]);
    assert FinalFile(file, [file]) == FinalFile(file, []) == file;
    assert CleanAll([line]) == [Clean(line)];
  }

  // ----- The whole file -----

  /** The lines are the same again after every k of them. */
  predicate Repeats(lines: seq<string>, k: nat) {
    forall i | k <= i < |lines| :: lines[i] == lines[i - k]
  }

  /** A line that was cut in two reads like its second piece, or has not been completed. */
  predicate CutIsHidden(measured: string, rest: string) {
    var segments := Segments(rest);
    segments == [] || Clean(Remainder(measured) + segments[0]) == Clean(segments[0])
  }

  lemma {:induction false} CleanAllFirst(first: string, rest: seq<string>)
    ensures CleanAll([first] + rest) == [Clean(first)] + CleanAll(rest)
  {
  }

  lemma {:induction false} CompletedAfter(begun: string, rest: string)
    requires '\n' !in begun
    ensures |CleanAll(Segments(begun + rest))| == |Segments(rest)|
    ensures Segments(rest) != [] ==>
              CleanAll(Segments(begun + rest)) ==
              [Clean(begun + Segments(rest)[0])] + CleanAll(Segments(rest))[1..]
  {
    if Segments(rest) == [] {
      FirstSegmentIsBegun(begun, rest);
    } else {
      BegunBefore(begun, rest);
      var first, others := Segments(rest)[0], Segments(rest)[1..];
      CleanAllFirst(begun + first, others);
      CleanAllFirst(first, others);
      assert Segments(rest) == [first] + others;
    }
  }

  /** What the final file has after the lines that were complete when it was measured. */
  lemma {:induction false} CompletedLines(measured: string, rest: string) returns (completed: seq<string>)
    ensures CleanAll(Segments(measured + rest)) == CleanAll(Segments(measured)) + completed
    ensures |completed| == |Segments(rest)|
    ensures Segments(rest) != [] ==>
              completed == [Clean(Remainder(measured) + Segments(rest)[0])] + CleanAll(Segments(rest))[1..]
  {
    SplittingIsExact(measured);
    SplittingResumes(measured, rest);
    CompletedAfter(Remainder(measured), rest);
    completed := CleanAll(Segments(Remainder(measured) + rest));
    CleanAllAdds(Segments(measured), Segments(Remainder(measured) + rest));
  }

  lemma {:induction false} RepeatsFromPrefix(lines: seq<string>, before: seq<string>, k: nat)
    requires before <= lines && k <= |lines|
    ensures lines[k..] == before <==> |lines| - k == |before| && Repeats(lines, k)
  {
    if |lines| - k == |before| {
      if lines[k..] == before {
        forall i | k <= i < |lines| ensures lines[i] == lines[i - k] {
          assert lines[k..][i - k] == before[i - k];
        }
      }
      if Repeats(lines, k) {
        forall i | 0 <= i < |before| ensures lines[k..][i] == before[i] {
          assert lines[i + k] == lines[i + k - k];
        }
      }
    }
  }

  /** Lines that come twice and cut lines go unnoticed only where as many lines were dropped for them. */
  lemma {:induction false} WindowThenStream(
    lines: seq<string>, before: seq<string>, after: seq<string>, completed: seq<string>, k: nat)
    requires before <= lines && k <= |lines|
    requires |completed| == |after| && (after != [] ==> completed[1..] == after[1..])
    ensures lines[k..] + after == before + completed <==>
            |lines| - k == |before| && Repeats(lines, k) && (after == [] || completed[0] == after[0])
  {
    RepeatsFromPrefix(lines, before, k);
    assert after != [] ==> after == [after[0]] + after[1..] && completed == [completed[0]] + completed[1..];
    var delivered, whole := lines[k..] + after, before + completed;
    if |lines| - k == |before| {
      assert delivered[..|before|] == lines[k..] && delivered[|before|..] == after;
      assert whole[..|before|] == before && whole[|before|..] == completed;
    }
  }

  /**
   Once the file is polled, they deliver exactly the lines of the final file if and only if the
   window dropped as many lines as come too many, and the dropped ones cannot be told from these: the
   lines that were read repeat after that many, and a line begun at the measured size reads like its
   second piece. If nothing was dropped, nothing may come too many.
   */
  lemma {:induction false} WholeFileIsDelivered(measured: string, ends: seq<string>, files: seq<string>, k: nat)
    requires Snapshots(measured, ends) && Grows(LastRead("", ends), files) && files != []
    requires IsLongestFittingTail(SnapshotSource(ends), k)
    ensures measured <= FinalFile(LastRead("", ends), files)
    ensures SnapshotSource(ends)[k..] + StreamedAfter(measured, files) == FinalLines(LastRead("", ends), files) <==>
            && k == Surplus(measured, ends, files) && Repeats(SnapshotSource(ends), k)
            && CutIsHidden(measured, FinalFile(LastRead("", ends), files)[|measured|..])
  {
    var read := LastRead("", ends);
    StreamedFromMeasured(measured, read, files);
    var rest := FinalFile(read, files)[|measured|..];
    Restore(measured, FinalFile(read, files));
    MeasuredLinesAreRead(measured, ends);
    DeliveredCount(measured, ends, files);
    var completed := CompletedLines(measured, rest);
    WindowThenStream(
      SnapshotSource(ends), CleanAll(Segments(measured)), CleanAll(Segments(rest)), completed, k);
  }

  // ----- The stream of one team -----

  method TakeSnapshot(ends: seq<string>) returns (snapshot: Snapshot, ghost k: nat)
    requires Grows("", ends)
    ensures IsLongestFittingTail(SnapshotSource(ends), k) && snapshot.lines == SnapshotSource(ends)[k..]
    ensures !snapshot.truncated ==> k == 0
  {
    var raw := LinesRead("", ends);
    snapshot := ReadTail(raw);
    ghost var first: nat :| IsLongestFittingTail(ShortenAll(raw), first) && snapshot.lines == ShortenAll(raw)[first..];
    k := first;
    assert !snapshot.truncated ==> |snapshot.lines| == |raw|;
  }

  method Follow(size: nat, files: seq<string>) returns (streamed: seq<string>)
    ensures streamed == FollowAll(Cursor(size, ""), files).1
  {
    var follower := new Follower(size);
    streamed := [];
    ghost var c, all := follower.State(), FollowAll(Cursor(size, ""), files).1;
    assert files[0..] == files;
    for i := 0 to |files|
      invariant '\n' !in follower.pendingTail && follower.State() == c
      invariant all == streamed + FollowAll(c, files[i..]).1
    {
      FollowOne(c, files, i, streamed, all);
      var lines := follower.Poll(files[i]);
      c := Advanced(c, files[i]);
      streamed := streamed + lines;
    }
    assert files[|files|..] == [];
  }

  lemma {:induction false} FollowOne(c: Cursor, files: seq<string>, i: nat, streamed: seq<string>, all: seq<string>)
    requires i < |files| && all == streamed + FollowAll(c, files[i..]).1
    ensures all == streamed + NewLines(c, files[i]) + FollowAll(Advanced(c, files[i]), files[i + 1..]).1
  {
    assert files[i..][1..] == files[i + 1..];
  }

  /**
   The stream of one team: the size of the file is measured, its lines are read, and then it is
   polled from the measured size on. `k` is the first of the lines read that the snapshot keeps.
   */
  method StreamLogs(measured: string, ends: seq<string>, files: seq<string>)
    returns (snapshot: Snapshot, streamed: seq<string>, ghost k: nat)
    requires Snapshots(measured, ends) && Grows(LastRead("", ends), files)
    ensures IsLongestFittingTail(SnapshotSource(ends), k) && snapshot.lines == SnapshotSource(ends)[k..]
    ensures streamed == StreamedAfter(measured, files)
    ensures var whole := FinalLines(LastRead("", ends), files);
            && (k <= |whole| && snapshot.lines + streamed == whole[k..] <==>
                  EndsALine(ends[0]) && (files == [] || ends[0] == measured))
            && (!snapshot.truncated && EndsALine(ends[0]) && ends[0] == measured ==> snapshot.lines + streamed == whole)
  {
    snapshot, k := TakeSnapshot(ends);
    streamed := Follow(|measured|, files);
    SnapshotAndStreamFitTogether(measured, ends, files, k);
  }
}
