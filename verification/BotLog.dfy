/**
 What a team sees of its bot's log (services/race.rs): first the tail of the file, bounded in lines
 and characters, then every line that is appended, read by polling the file.
 The log is modelled as decoded characters.
 */
module BotLog {

  const MAX_LINES := 5_000
  const MAX_CHARS := 200_000

  // ----- Lines of a text -----

  /** The last `maxChars` characters of a line, their number, and whether any were cut off. */
  function TruncateTail(line: string, maxChars: nat): (r: (string, nat, bool))
    ensures r.1 == |r.0| <= |line| && r.0 == line[|line| - r.1..]
    ensures if r.2 then r.1 == maxChars < |line| else r.1 == |line| <= maxChars
  {
    if |line| <= maxChars then (line, |line|, false) else (line[|line| - maxChars..], maxChars, true)
  }

  function Shorten(line: string): string {
    TruncateTail(line, MAX_CHARS).0
  }

  function StripReturn(line: string): string {
    if line != "" && line[|line| - 1] == '\r' then line[..|line| - 1] else line
  }

  /** The parts of a text that a newline ends, without the newlines. */
  function Segments(s: string): seq<string> {
    if s == "" then []
    else if s[|s| - 1] == '\n' then Segments(s[..|s| - 1]) + [Remainder(s[..|s| - 1])]
    else Segments(s[..|s| - 1])
  }

  /** What follows the last newline. */
  function Remainder(s: string): string {
    if s == "" || s[|s| - 1] == '\n' then "" else Remainder(s[..|s| - 1]) + [s[|s| - 1]]
  }

  function Clean(segment: string): string {
    Shorten(StripReturn(segment))
  }

  function CleanAll(segments: seq<string>): seq<string> {
    seq(|segments|, i requires 0 <= i < |segments| => Clean(segments[i]))
  }

  function Joined(segments: seq<string>): string {
    if segments == [] then "" else segments[0] + "\n" + Joined(segments[1..])
  }

  lemma {:induction false} JoinedLast(segments: seq<string>, last: string)
    ensures Joined(segments + [last]) == Joined(segments) + last + "\n"
  {
    if segments == [] {
      assert [last][1..] == [];
    } else {
      JoinedLast(segments[1..], last);
      assert (segments + [last])[1..] == segments[1..] + [last];
    }
  }

  /** Splitting loses nothing, and finds every newline. */
  lemma {:induction false} SplittingIsExact(s: string)
    ensures Joined(Segments(s)) + Remainder(s) == s
    ensures forall i | 0 <= i < |Segments(s)| :: '\n' !in Segments(s)[i]
    ensures '\n' !in Remainder(s)
  {
    if s != "" {
      var front := s[..|s| - 1];
      SplittingIsExact(front);
      JoinedLast(Segments(front), Remainder(front));
      assert s == front + [s[|s| - 1]];
    }
  }

  lemma {:induction false} UnbrokenText(s: string)
    requires '\n' !in s
    ensures Segments(s) == [] && Remainder(s) == s
  {
    if s != "" {
      UnbrokenText(s[..|s| - 1]);
    }
  }

  /** Splitting can be interrupted anywhere if the remainder is carried over. */
  lemma {:induction false} SplittingResumes(x: string, y: string)
    ensures Segments(x + y) == Segments(x) + Segments(Remainder(x) + y)
    ensures Remainder(x + y) == Remainder(Remainder(x) + y)
    decreases |y|
  {
    var rest := Remainder(x);
    if y == "" {
      SplittingIsExact(x);
      UnbrokenText(rest);
      assert x + y == x && rest + y == rest;
    } else {
      var front := y[..|y| - 1];
      assert (x + y)[..|x + y| - 1] == x + front;
      assert (rest + y)[..|rest + y| - 1] == rest + front;
      SplittingResumes(x, front);
    }
  }

  lemma {:induction false} OneLine(line: string)
    requires '\n' !in line
    ensures Segments(line + "\n") == [line] && Remainder(line + "\n") == ""
  {
    UnbrokenText(line);
    assert (line + "\n")[..|line|] == line;
  }

  lemma {:induction false} CutAt(s: string, i: nat)
    requires i < |s| && s[i] == '\n'
    ensures s == s[..i] + "\n" + s[i + 1..]
  {
  }

  /** Splitting can be done by cutting at the first newline. */
  lemma {:induction false} SplitsAtFirstNewline(s: string, i: nat)
    requires i < |s| && s[i] == '\n' && '\n' !in s[..i]
    ensures Segments(s) == [s[..i]] + Segments(s[i + 1..])
    ensures Remainder(s) == Remainder(s[i + 1..])
  {
    OneLine(s[..i]);
    CutAt(s, i);
    ResumesAfterNewline(s[..i] + "\n", s[i + 1..]);
  }

  lemma {:induction false} ResumesAfterNewline(x: string, y: string)
    requires Remainder(x) == ""
    ensures Segments(x + y) == Segments(x) + Segments(y) && Remainder(x + y) == Remainder(y)
  {
    SplittingResumes(x, y);
    assert "" + y == y;
  }

  /** The number of segments is the number of newlines, wherever the text is cut. */
  lemma {:induction false} SegmentsAdd(x: string, y: string)
    ensures |Segments(x + y)| == |Segments(x)| + |Segments(y)|
    decreases |y|
  {
    if y == "" {
      assert x + y == x;
    } else {
      assert (x + y)[..|x + y| - 1] == x + y[..|y| - 1];
      SegmentsAdd(x, y[..|y| - 1]);
    }
  }

  // ----- The snapshot -----

  function StripAll(segments: seq<string>): seq<string> {
    seq(|segments|, i requires 0 <= i < |segments| => StripReturn(segments[i]))
  }

  /** What a line reader yields: an unterminated last part is a line too, and keeps its return. */
  function FileLines(s: string): seq<string> {
    StripAll(Segments(s)) + if Remainder(s) == "" then [] else [Remainder(s)]
  }

  function ShortenAll(raw: seq<string>): seq<string> {
    seq(|raw|, i requires 0 <= i < |raw| => Shorten(raw[i]))
  }

  /** The characters of the lines from k up to n. */
  function TotalChars(lines: seq<string>, k: nat, n: nat): nat
    requires k <= n <= |lines|
  {
    if k == n then 0 else TotalChars(lines, k, n - 1) + |lines[n - 1]|
  }

  lemma {:induction false} TotalFromTheFront(lines: seq<string>, k: nat, n: nat)
    requires k < n <= |lines|
    ensures TotalChars(lines, k, n) == |lines[k]| + TotalChars(lines, k + 1, n)
  {
    if k + 1 < n {
      TotalFromTheFront(lines, k, n - 1);
    }
  }

  predicate Fits(lines: seq<string>, k: nat, n: nat)
    requires k <= n <= |lines|
  {
    n - k <= MAX_LINES && TotalChars(lines, k, n) <= MAX_CHARS
  }

  /** The tail of `lines` that starts at k fits, and no longer one does. */
  ghost predicate IsLongestFittingTail(lines: seq<string>, k: nat) {
    k <= |lines| && Fits(lines, k, |lines|) && forall j | 0 <= j < k :: !Fits(lines, j, |lines|)
  }

  datatype Snapshot = Snapshot(lines: seq<string>, truncated: bool)

  lemma {:induction false} ShorterTailsFit(lines: seq<string>, j: nat, k: nat, n: nat)
    requires j <= k <= n <= |lines| && Fits(lines, j, n)
    ensures Fits(lines, k, n)
    decreases k - j
  {
    if j < k {
      TotalFromTheFront(lines, j, n);
      ShorterTailsFit(lines, j + 1, k, n);
    }
  }

  /** One of the first n lines has been shortened. */
  ghost predicate AnyShortened(raw: seq<string>, cut: seq<string>, n: nat)
    requires n <= |raw| == |cut|
  {
    0 < n && (cut[n - 1] != raw[n - 1] || AnyShortened(raw, cut, n - 1))
  }

  lemma {:induction false} ShortenedMeansDifferent(raw: seq<string>, cut: seq<string>, n: nat)
    requires n <= |raw| == |cut|
    ensures AnyShortened(raw, cut, n) <==> cut[..n] != raw[..n]
  {
    if 0 < n {
      ShortenedMeansDifferent(raw, cut, n - 1);
      assert cut[..n] == cut[..n - 1] + [cut[n - 1]] && raw[..n] == raw[..n - 1] + [raw[n - 1]];
    }
  }

  /** Of the first n lines, the first k have been given up because they had to be. */
  ghost predicate Reading(raw: seq<string>, cut: seq<string>, n: nat, k: nat,
                          window: seq<(string, nat)>, totalChars: nat, truncated: bool) {
    && k <= n <= |raw| == |cut|
    && |window| == n - k
    && (forall i | 0 <= i < |window| :: window[i] == (cut[k + i], |cut[k + i]|))
    && totalChars == TotalChars(cut, k, n)
    && (0 < k ==> !Fits(cut, k - 1, n))
    && (truncated <==> 0 < k || AnyShortened(raw, cut, n))
  }

  lemma {:induction false} PushKeepsReading(raw: seq<string>, cut: seq<string>, n: nat, k: nat,
                                            window: seq<(string, nat)>, totalChars: nat, truncated: bool)
    requires Reading(raw, cut, n, k, window, totalChars, truncated) && n < |raw|
    ensures Reading(raw, cut, n + 1, k, window + [(cut[n], |cut[n]|)], totalChars + |cut[n]|,
                    truncated || cut[n] != raw[n])
  {
  }

  lemma {:induction false} PopKeepsReading(raw: seq<string>, cut: seq<string>, n: nat, k: nat,
                                           window: seq<(string, nat)>, totalChars: nat, truncated: bool)
    requires Reading(raw, cut, n, k, window, totalChars, truncated)
    requires k < n && |cut[n - 1]| <= MAX_CHARS
    requires |window| > MAX_LINES || totalChars > MAX_CHARS
    ensures window[0].1 <= totalChars && k + 1 < n
    ensures Reading(raw, cut, n, k + 1, window[1..], totalChars - window[0].1, true)
  {
    TotalFromTheFront(cut, k, n);
    assert TotalChars(cut, n - 1, n) == |cut[n - 1]|;
  }

  lemma {:induction false} ReadingEnds(raw: seq<string>, cut: seq<string>, k: nat, window: seq<(string, nat)>,
                                       totalChars: nat, truncated: bool, lines: seq<string>)
    requires Reading(raw, cut, |raw|, k, window, totalChars, truncated)
    requires |window| <= MAX_LINES && totalChars <= MAX_CHARS
    requires |lines| == |window| && forall i | 0 <= i < |window| :: lines[i] == window[i].0
    ensures IsLongestFittingTail(cut, k) && lines == cut[k..]
    ensures truncated <==> lines != raw
    ensures k < |raw| ==> lines != [] && lines[|lines| - 1] == cut[|raw| - 1]
  {
    forall j | 0 <= j < k ensures !Fits(cut, j, |cut|) {
      if Fits(cut, j, |cut|) {
        ShorterTailsFit(cut, j, k - 1, |cut|);
      }
    }
    assert lines == cut[k..];
    ShortenedMeansDifferent(raw, cut, |raw|);
    assert cut[..|raw|] == cut && raw[..|raw|] == raw;
    assert k == 0 ==> lines == cut;
    assert 0 < k ==> |lines| != |raw|;
  }

  method IntoLines(window: seq<(string, nat)>) returns (lines: seq<string>)
    ensures |lines| == |window| && forall i | 0 <= i < |window| :: lines[i] == window[i].0
  {
    lines := [];
    for i := 0 to |window|
      invariant |lines| == i && forall j | 0 <= j < i :: lines[j] == window[j].0
    {
      lines := lines + [window[i].0];
    }
  }

  /** The first n lines have been shortened, each on its own. */
  ghost predicate AreShortened(raw: seq<string>, cut: seq<string>, n: nat) {
    n <= |raw| == |cut| && (n == 0 || (cut[n - 1] == Shorten(raw[n - 1]) && AreShortened(raw, cut, n - 1)))
  }

  lemma {:induction false} IsShortenedAt(raw: seq<string>, cut: seq<string>, i: nat, n: nat)
    requires i < n && AreShortened(raw, cut, n)
    ensures cut[i] == Shorten(raw[i])
  {
    if i < n - 1 {
      IsShortenedAt(raw, cut, i, n - 1);
    }
  }

  lemma {:induction false} ShortenAllShortens(raw: seq<string>, n: nat)
    requires n <= |raw|
    ensures AreShortened(raw, ShortenAll(raw), n)
  {
    if n > 0 {
      ShortenAllShortens(raw, n - 1);
    }
  }

  /** Takes the next line into the window, then gives up the oldest lines until both bounds are met. */
  method TakeLine(window: seq<(string, nat)>, totalChars: nat, truncated: bool,
                  raw: seq<string>, n: nat, ghost cut: seq<string>, ghost k: nat)
    returns (window': seq<(string, nat)>, totalChars': nat, truncated': bool, ghost k': nat)
    requires Reading(raw, cut, n, k, window, totalChars, truncated)
    requires n < |raw| && AreShortened(raw, cut, |raw|)
    ensures Reading(raw, cut, n + 1, k', window', totalChars', truncated') && k' <= n
    ensures |window'| <= MAX_LINES && totalChars' <= MAX_CHARS
  {
    IsShortenedAt(raw, cut, n, |raw|);
    PushKeepsReading(raw, cut, n, k, window, totalChars, truncated);
    var (line, lineChars, lineWasTruncated) := TruncateTail(raw[n], MAX_CHARS);
    window', totalChars', truncated', k' :=
      window + [(line, lineChars)], totalChars + lineChars, truncated || lineWasTruncated, k;
    while |window'| > MAX_LINES || totalChars' > MAX_CHARS
      invariant Reading(raw, cut, n + 1, k', window', totalChars', truncated') && k' <= n
      decreases |window'|
    {
      PopKeepsReading(raw, cut, n + 1, k', window', totalChars', truncated');
      var removedChars := window'[0].1;
      window' := window'[1..];
      totalChars' := totalChars' - removedChars;
      truncated' := true;
      k' := k' + 1;
    }
  }

  /** `cut` is the file with every line shortened on its own. */
  method ReadWindow(raw: seq<string>, ghost cut: seq<string>)
    returns (window: seq<(string, nat)>, totalChars: nat, truncated: bool, ghost k: nat)
    requires AreShortened(raw, cut, |raw|)
    ensures Reading(raw, cut, |raw|, k, window, totalChars, truncated)
    ensures |window| <= MAX_LINES && totalChars <= MAX_CHARS && (raw == [] || k < |raw|)
  {
    window, totalChars, truncated, k := [], 0, false, 0;
    var n: nat := 0;
    while n < |raw|
      invariant Reading(raw, cut, n, k, window, totalChars, truncated)
      invariant |window| <= MAX_LINES && totalChars <= MAX_CHARS
      invariant n == 0 || k < n
    {
      window, totalChars, truncated, k := TakeLine(window, totalChars, truncated, raw, n, cut, k);
      n := n + 1;
    }
  }

  /**
   Reads the file line by line into a window that gives up its oldest lines: what is left is the
   longest tail within both bounds, and `truncated` is set exactly when that is not the whole file.
   */
  method ReadTail(raw: seq<string>) returns (snapshot: Snapshot)
    ensures exists k: nat ::
              IsLongestFittingTail(ShortenAll(raw), k) && snapshot.lines == ShortenAll(raw)[k..]
    ensures snapshot.truncated <==> snapshot.lines != raw
    ensures raw != [] ==>
              snapshot.lines != [] && snapshot.lines[|snapshot.lines| - 1] == Shorten(raw[|raw| - 1])
  {
    ShortenAllShortens(raw, |raw|);
    ghost var cut := ShortenAll(raw);
    var window, totalChars, truncated;
    ghost var k;
    window, totalChars, truncated, k := ReadWindow(raw, cut);
    var lines := IntoLines(window);
    ReadingEnds(raw, cut, k, window, totalChars, truncated, lines);
    snapshot := Snapshot(lines, truncated);
  }

  // ----- Following the file -----

  datatype Cursor = Cursor(offset: nat, pendingTail: string)

  /** A file shorter than the offset has been replaced, and is read from its beginning. */
  function Resumed(c: Cursor, file: string): Cursor {
    if |file| < c.offset then Cursor(0, "") else c
  }

  function Unread(c: Cursor, file: string): string {
    var r := Resumed(c, file);
    r.pendingTail + file[r.offset..]
  }

  function Advanced(c: Cursor, file: string): Cursor {
    Cursor(|file|, Remainder(Unread(c, file)))
  }

  function NewLines(c: Cursor, file: string): seq<string> {
    CleanAll(Segments(Unread(c, file)))
  }

  /** A file that has become shorter is delivered from its beginning, and what was pending is dropped. */
  lemma {:induction false} ReplacedFileIsReadAfresh(c: Cursor, file: string)
    requires |file| < c.offset
    ensures NewLines(c, file) == CleanAll(Segments(file))
    ensures Advanced(c, file) == Cursor(|file|, Remainder(file))
  {
    assert "" + file[0..] == file;
  }

  /** Any other file is delivered from where the last poll ended, after what was pending. */
  lemma {:induction false} GrownFileIsReadOn(c: Cursor, file: string)
    requires c.offset <= |file|
    ensures NewLines(c, file) == CleanAll(Segments(c.pendingTail + file[c.offset..]))
    ensures Advanced(c, file) == Cursor(|file|, Remainder(c.pendingTail + file[c.offset..]))
  {
  }

  /** A line is delivered alike whether a newline ends it or a return and a newline; one return is stripped. */
  lemma {:induction false} OneReturnIsStripped(line: string)
    ensures Clean(line + "\r") == Shorten(line)
    ensures (line == "" || line[|line| - 1] != '\r') ==> Clean(line) == Shorten(line)
    ensures Shorten(line) == if |line| <= 200_000 then line else line[|line| - 200_000..]
  {
    assert (line + "\r")[..|line|] == line;
  }

  method FirstNewline(s: string) returns (i: nat)
    requires '\n' in s
    ensures i < |s| && s[i] == '\n' && '\n' !in s[..i]
  {
    i := 0;
    while s[i] != '\n'
      invariant 0 <= i < |s| && '\n' !in s[..i]
      decreases |s| - i
    {
      i := i + 1;
    }
  }

  lemma {:induction false} LineIsTaken(text: string, lines: seq<string>, pending: string, end: nat)
    requires end < |pending| && pending[end] == '\n' && '\n' !in pending[..end]
    requires CleanAll(Segments(text)) == lines + CleanAll(Segments(pending))
    ensures CleanAll(Segments(text))
         == lines + [Clean(pending[..end])] + CleanAll(Segments(pending[end + 1..]))
    ensures Remainder(pending) == Remainder(pending[end + 1..])
  {
    SplitsAtFirstNewline(pending, end);
    var first, rest := pending[..end], Segments(pending[end + 1..]);
    CleanAllAdds([first], rest);
    assert CleanAll([first]) == [Clean(first)];
  }

  lemma {:induction false} NothingUnread(c: Cursor, file: string)
    requires '\n' !in c.pendingTail && file[Resumed(c, file).offset..] == ""
    ensures Advanced(c, file) == Resumed(c, file) && NewLines(c, file) == []
  {
    var r := Resumed(c, file);
    assert r.pendingTail + "" == r.pendingTail;
    UnbrokenText(r.pendingTail);
  }

  class Follower {
    var offset: nat
    var pendingTail: string

    ghost function State(): Cursor
      reads this
    {
      Cursor(offset, pendingTail)
    }

    /** Following starts at the size that the snapshot's file had. */
    constructor (fileSize: nat)
      ensures State() == Cursor(fileSize, "")
    {
      offset, pendingTail := fileSize, "";
    }

    method Poll(file: string) returns (lines: seq<string>)
      requires '\n' !in pendingTail
      modifies this
      ensures State() == Advanced(old(State()), file)
      ensures lines == NewLines(old(State()), file)
      ensures '\n' !in pendingTail
    {
      ghost var start := State();
      if |file| < offset {
        offset, pendingTail := 0, "";
      }
      assert State() == Resumed(start, file);
      var appended := file[offset..];
      offset := offset + |appended|;
      lines := [];
      if appended == "" {
        NothingUnread(start, file);
        return;
      }
      pendingTail := pendingTail + appended;
      ghost var text := pendingTail;
      while '\n' in pendingTail
        invariant offset == |file|
        invariant CleanAll(Segments(text)) == lines + CleanAll(Segments(pendingTail))
        invariant Remainder(text) == Remainder(pendingTail)
        decreases |pendingTail|
      {
        var end := FirstNewline(pendingTail);
        LineIsTaken(text, lines, pendingTail, end);
        var line := pendingTail[..end];
        if line != "" && line[|line| - 1] == '\r' {
          line := line[..|line| - 1];
        }
        var (tail, _, _) := TruncateTail(line, MAX_CHARS);
        lines := lines + [tail];
        pendingTail := pendingTail[end + 1..];
      }
      UnbrokenText(pendingTail);
    }
  }

  /** The files seen by successive polls, each an extension of the one before. */
  ghost predicate Grows(start: string, files: seq<string>)
    decreases |files|
  {
    files != [] ==> start <= files[0] && Grows(files[0], files[1..])
  }

  function FinalFile(start: string, files: seq<string>): string
    decreases |files|
  {
    if files == [] then start else FinalFile(files[0], files[1..])
  }

  function FollowAll(c: Cursor, files: seq<string>): (Cursor, seq<string>)
    decreases |files|
  {
    if files == [] then (c, [])
    else
      var (last, lines) := FollowAll(Advanced(c, files[0]), files[1..]);
      (last, NewLines(c, files[0]) + lines)
  }

  lemma {:induction false} FinalFileExtends(start: string, files: seq<string>)
    requires Grows(start, files)
    ensures start <= FinalFile(start, files)
    decreases |files|
  {
    if files != [] {
      FinalFileExtends(files[0], files[1..]);
    }
  }

  /**
   However a growing file is cut up by the polls, the lines delivered are those of all the text
   after `from`, split in one go, and what is pending is exactly its unterminated end.
   */
  lemma {:induction false} ChunkingDoesNotMatter(from: nat, seen: string, files: seq<string>)
    requires from <= |seen| && Grows(seen, files)
    ensures seen <= FinalFile(seen, files)
    ensures var whole := FinalFile(seen, files);
            var (cursor, lines) := FollowAll(Cursor(|seen|, Remainder(seen[from..])), files);
            && cursor == Cursor(|whole|, Remainder(whole[from..]))
            && CleanAll(Segments(seen[from..])) + lines == CleanAll(Segments(whole[from..]))
    decreases |files|
  {
    FinalFileExtends(seen, files);
    if files != [] {
      var file := files[0];
      var c := Cursor(|seen|, Remainder(seen[from..]));
      var appended := file[|seen|..];
      assert file[from..] == seen[from..] + appended;
      SplittingResumes(seen[from..], appended);
      CleanAllAdds(Segments(seen[from..]), Segments(Unread(c, file)));
      ChunkingDoesNotMatter(from, file, files[1..]);
    }
  }

  lemma {:induction false} CleanAllAdds(x: seq<string>, y: seq<string>)
    ensures CleanAll(x + y) == CleanAll(x) + CleanAll(y)
  {
  }

  lemma {:induction false} ShorteningStripped(segments: seq<string>, last: seq<string>)
    ensures ShortenAll(StripAll(segments) + last) == CleanAll(segments) + ShortenAll(last)
  {
  }
}
