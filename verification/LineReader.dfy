/**
 * The line reader in `movefiles`: a fixed buffer that slides over a command file, whatever sizes
 * the reads come in.
 */
module LineReader {
  import opened Limits

  const NEWLINE: char := '\n'

  // ---------------------------------------------------------------- the lines of a file

  /** Where the line that starts at `c` ends: at its newline, or at the end of the file. */
  function LineEnd(file: string, c: nat): (i: nat)
    requires c <= |file|
    ensures c <= i <= |file| && (i < |file| ==> file[i] == '\n')
    ensures forall j :: c <= j < i ==> file[j] != '\n'
    decreases |file| - c
  {
    if c == |file| || file[c] == '\n' then c else LineEnd(file, c + 1)
  }

  /** The lines from `c` on that a newline ends; text after the last newline is no line. */
  function LinesFrom(file: string, c: nat): seq<string>
    requires c <= |file|
    decreases |file| - c
  {
    var i := LineEnd(file, c);
    if i == |file| then [] else [file[c..i]] + LinesFrom(file, i + 1)
  }

  function Lines(file: string): seq<string> {
    LinesFrom(file, 0)
  }

  /** The length of lines with their newlines. */
  function Extent(lines: seq<string>): nat {
    if lines == [] then 0 else Extent(lines[..|lines| - 1]) + |lines[|lines| - 1]| + 1
  }

  lemma {:induction false} ExtentAppend(lines: seq<string>, line: string)
    ensures Extent(lines + [line]) == Extent(lines) + |line| + 1
  {
    assert (lines + [line])[..|lines|] == lines;
  }

  /** `lines` are the lines in the first `c` characters of the file. */
  ghost predicate Processed(file: string, c: nat, lines: seq<string>) {
    c <= |file| && Lines(file) == lines + LinesFrom(file, c) && c == Extent(lines)
  }

  /** One more line. */
  lemma TakeNext(file: string, c: nat, lines: seq<string>, i: nat)
    requires Processed(file, c, lines) && c <= i < |file|
    requires file[i] == NEWLINE && forall j :: c <= j < i ==> file[j] != NEWLINE
    ensures Processed(file, i + 1, lines + [file[c..i]])
  {
    var line, rest := file[c..i], LinesFrom(file, i + 1);
    assert LineEnd(file, c) == i;
    assert lines + ([line] + rest) == lines + [line] + rest;
    ExtentAppend(lines, line);
  }

  lemma {:induction false} AllDone(file: string, c: nat, lines: seq<string>)
    requires Processed(file, c, lines)
    ensures lines == Lines(file) <==> LineEnd(file, c) == |file|
  {
    var rest := LinesFrom(file, c);
    assert |Lines(file)| == |lines| + |rest|;
    if rest == [] { assert lines + rest == lines; }
  }

  // ---------------------------------------------------------------- where the reader stops

  /** The size that is asked for in each call of `read`; 0 stands for an error. */
  type Chunks = nat -> nat

  /** What `read` returns when there is room for `room` characters. */
  function ReadResult(file: string, at: nat, room: nat, asked: nat): int
    requires at <= |file|
  {
    var most := if room <= |file| - at then room else |file| - at;
    if asked == 0 then -1 else if asked < most then asked else most
  }

  /** The window over the file after a partial line has been moved to the front of the buffer. */
  function Slid(w: nat, c: nat, at: nat): nat {
    if w < c < at then c else w
  }

  ghost predicate InWindow(file: string, w: nat, c: nat, at: nat) {
    w <= c <= at <= |file| && at - w <= PKG_PATH_MAX
  }

  /**
   * Where processing ends when the buffer holds the file from `w` to `at`, the lines before `c` have
   * been processed and `call` reads have been made.
   */
  function Halt(file: string, chunks: Chunks, call: nat, w: nat, c: nat, at: nat): (h: nat)
    requires InWindow(file, w, c, at)
    ensures c <= h <= |file|
    decreases |file| - at, |file| - c
  {
    var i := LineEnd(file, c);
    if i < at then
      Halt(file, chunks, call, w, i + 1, at)
    else
      var w' := Slid(w, c, at);
      var n := ReadResult(file, at, PKG_PATH_MAX - (at - w'), chunks(call));
      if n <= 0 then c else Halt(file, chunks, call + 1, w', c, at + n)
  }

  /** Every line of the file is processed. */
  predicate AllRead(file: string, chunks: Chunks) {
    LineEnd(file, Halt(file, chunks, 0, 0, 0, 0)) == |file|
  }

  // ---------------------------------------------------------------- the reader

  method ReadChunk(file: string, at: nat, room: nat, asked: nat) returns (n: int)
    requires at <= |file|
    ensures n == ReadResult(file, at, room, asked)
  {
    if asked == 0 { return -1; }
    var most := if room <= |file| - at then room else |file| - at;
    n := if asked < most then asked else most;
  }

  /** The buffer holds the characters of the file from `c` to `at`. */
  ghost predicate Buffered(file: string, buf: seq<char>, bufp: nat, bufe: nat, c: nat, at: nat) {
    && bufp <= bufe <= PKG_PATH_MAX < |buf|
    && bufp <= c <= at <= |file| && at == c + (bufe - bufp)
    && forall j :: bufp <= j < bufe ==> buf[j] == file[c + (j - bufp)]
  }

  /** No newline between `from` and `to`. */
  ghost predicate Clear(s: seq<char>, from: nat, to: nat) {
    forall j :: from <= j < to && j < |s| ==> s[j] != NEWLINE
  }

  /** Looks for a newline between `from` and `to`. */
  method FindNewline(buf: array<char>, from: nat, to: nat) returns (i: nat)
    requires from <= to <= buf.Length
    ensures from <= i <= to && Clear(buf[..], from, i) && (i < to ==> buf[i] == NEWLINE)
  {
    i := from;
    while i < to && buf[i] != NEWLINE
      invariant from <= i <= to && Clear(buf[..], from, i)
    {
      i := i + 1;
    }
  }

  /** `memcpy(buf, buf + bufp, bufe - bufp)`. */
  method Slide(buf: array<char>, bufp: nat, bufe: nat)
    requires bufp <= bufe <= buf.Length
    modifies buf
    ensures forall j :: 0 <= j < bufe - bufp ==> buf[j] == old(buf[bufp + j])
  {
    var i := 0;
    while i < bufe - bufp
      invariant 0 <= i <= bufe - bufp
      invariant forall j :: 0 <= j < i ==> buf[j] == old(buf[bufp + j])
      invariant forall j :: bufp + i <= j < bufe ==> buf[j] == old(buf[j])
    {
      buf[i] := buf[bufp + i];
      i := i + 1;
    }
  }

  /** `read(subfd, buf + bufe, room)`. */
  method Fill(file: string, at: nat, buf: array<char>, bufe: nat, room: nat, asked: nat) returns (n: int)
    requires at <= |file| && bufe + room <= buf.Length
    modifies buf
    ensures n == ReadResult(file, at, room, asked)
    ensures forall j :: 0 <= j < bufe ==> buf[j] == old(buf[j])
    ensures forall j :: bufe <= j < bufe + n ==> buf[j] == file[at + (j - bufe)]
  {
    n := ReadChunk(file, at, room, asked);
    if n < 0 { return; }
    var i := 0;
    while i < n
      invariant 0 <= i <= n
      invariant forall j :: 0 <= j < bufe ==> buf[j] == old(buf[j])
      invariant forall j :: bufe <= j < bufe + i ==> buf[j] == file[at + (j - bufe)]
    {
      buf[bufe + i] := file[at + i];
      i := i + 1;
    }
  }

  /** The line up to the newline at `bufi` is the next line of the file. */
  lemma LineFound(file: string, buf: seq<char>, bufp: nat, bufe: nat, bufi: nat, c: nat, at: nat, lines: seq<string>)
    requires Buffered(file, buf, bufp, bufe, c, at) && Processed(file, c, lines)
    requires bufp <= bufi < bufe && buf[bufi] == NEWLINE && Clear(buf, bufp, bufi)
    ensures var c' := c + (bufi - bufp) + 1;
            && Buffered(file, buf[bufi := '\0'], bufi + 1, bufe, c', at)
            && Processed(file, c', lines + [buf[bufp..bufi]])
  {
    SameText(file, buf, bufp, bufe, bufi, c, at);
    TakeNext(file, c, lines, c + (bufi - bufp));
  }

  lemma SameText(file: string, buf: seq<char>, bufp: nat, bufe: nat, bufi: nat, c: nat, at: nat)
    requires Buffered(file, buf, bufp, bufe, c, at) && bufp <= bufi < bufe && Clear(buf, bufp, bufi)
    ensures var n := bufi - bufp;
            && buf[bufp..bufi] == file[c..c + n] && buf[bufi] == file[c + n] && Clear(file, c, c + n)
            && Buffered(file, buf[bufi := '\0'], bufi + 1, bufe, c + n + 1, at)
  {
    var n := bufi - bufp;
    forall j | c <= j < c + n
      ensures file[j] == buf[bufp..bufi][j - c] && file[j] != NEWLINE
    {
      assert buf[bufp + (j - c)] == file[j];
    }
  }

  /** The branch of the loop without a newline: keep the partial line, and read on. */
  method Refill(file: string, asked: nat, buf: array<char>, bufp: nat, bufe: nat, at: nat, ghost c: nat)
    returns (bufp': nat, bufe': nat, at': nat, n: int)
    requires buf.Length == PKG_PATH_MAX + 1 && Buffered(file, buf[..], bufp, bufe, c, at)
    modifies buf
    ensures var w := Slid(c - bufp, c, at);
            && n == ReadResult(file, at, PKG_PATH_MAX - (at - w), asked)
            && (n >= 0 ==> at' == at + n && Buffered(file, buf[..], bufp', bufe', c, at') && bufp' == c - w)
  {
    bufp', bufe' := bufp, bufe;
    if 0 < bufp < bufe {
      Slide(buf, bufp, bufe);
      bufp', bufe' := 0, bufe - bufp;
    }
    ghost var was := buf[..];
    n := Fill(file, at, buf, bufe', PKG_PATH_MAX - bufe', asked);
    at' := at;
    if n >= 0 {
      Filled(file, was, bufp', bufe', c, at, n, buf[..]);
      at', bufe' := at + n, bufe' + n;
    }
  }

  lemma Filled(file: string, buf: seq<char>, bufp: nat, bufe: nat, c: nat, at: nat, n: nat, buf': seq<char>)
    requires Buffered(file, buf, bufp, bufe, c, at) && |buf'| == |buf|
    requires bufe + n <= PKG_PATH_MAX && at + n <= |file|
    requires forall j :: 0 <= j < bufe ==> buf'[j] == buf[j]
    requires forall j :: bufe <= j < bufe + n ==> buf'[j] == file[at + (j - bufe)]
    ensures Buffered(file, buf', bufp, bufe + n, c, at + n)
  {
  }

  /** The newline found in the buffer is the end of the line in the file. */
  lemma {:induction false} EndFound(file: string, buf: seq<char>, bufp: nat, bufe: nat, bufi: nat, c: nat, at: nat)
    requires Buffered(file, buf, bufp, bufe, c, at) && bufp <= bufi <= bufe && Clear(buf, bufp, bufi)
    requires bufi < bufe ==> buf[bufi] == NEWLINE
    ensures if bufi < bufe then LineEnd(file, c) == c + (bufi - bufp) else LineEnd(file, c) >= at
  {
    var i := LineEnd(file, c);
    forall j | c <= j < c + (bufi - bufp)
      ensures file[j] != NEWLINE
    {
      assert buf[bufp + (j - c)] == file[j];
    }
    if bufi < bufe { assert file[c + (bufi - bufp)] == NEWLINE; }
  }

  /**
   * The loop of `movefiles` over one command file.  `lines` are the lines that it processes: those
   * before `Halt`, in order and unaltered.
   */
  method ReadLines(file: string, chunks: Chunks) returns (lines: seq<string>)
    ensures lines <= Lines(file) && Extent(lines) == Halt(file, chunks, 0, 0, 0, 0)
    ensures lines == Lines(file) <==> AllRead(file, chunks)
  {
    var buf := new char[PKG_PATH_MAX + 1](_ => '\0');
    var bufp: nat, bufe: nat, calls: nat, at: nat := 0, 0, 0, 0;
    lines := [];
    ghost var c: nat, w: nat, halt := 0, 0, Halt(file, chunks, 0, 0, 0, 0);
    while true
      invariant fresh(buf) && buf.Length == PKG_PATH_MAX + 1
      invariant Reading(file, chunks, calls, buf[..], bufp, bufe, w, c, at, lines, halt)
      decreases |file| - at, |file| - c
    {
      var bufi := FindNewline(buf, bufp, bufe);
      if bufi < bufe {
        bufp, lines, c := NextLine(file, chunks, calls, buf, bufp, bufe, bufi, at, lines, w, c, halt);
      } else {
        var done;
        done, bufp, bufe, at, w := NextRead(file, chunks, calls, buf, bufp, bufe, at, lines, w, c, halt);
        if done {
          AllDone(file, c, lines);
          return;
        }
        calls := calls + 1;
      }
    }
  }

  /** The turn of the loop that has found a newline at `bufi`. */
  method NextLine(file: string, ghost chunks: Chunks, ghost calls: nat, buf: array<char>, bufp: nat, bufe: nat,
                  bufi: nat,
                  at: nat, lines: seq<string>, ghost w: nat, ghost c: nat, ghost halt: nat)
    returns (bufp': nat, lines': seq<string>, ghost c': nat)
    requires buf.Length == PKG_PATH_MAX + 1 && Reading(file, chunks, calls, buf[..], bufp, bufe, w, c, at, lines, halt)
    requires bufp <= bufi < bufe && buf[bufi] == NEWLINE && Clear(buf[..], bufp, bufi)
    modifies buf
    ensures Reading(file, chunks, calls, buf[..], bufp', bufe, w, c', at, lines', halt) && c < c'
  {
    LineTaken(file, chunks, calls, buf[..], bufp, bufe, bufi, w, c, at, lines, halt);
    var line := CutLine(buf, bufp, bufi);
    bufp', lines', c' := bufi + 1, lines + [line], c + (bufi - bufp) + 1;
  }

  /** The turn that has found none. */
  method NextRead(file: string, chunks: Chunks, calls: nat, buf: array<char>, bufp: nat, bufe: nat, at: nat,
                  ghost lines: seq<string>, ghost w: nat, ghost c: nat, ghost halt: nat)
    returns (done: bool, bufp': nat, bufe': nat, at': nat, ghost w': nat)
    requires buf.Length == PKG_PATH_MAX + 1 && Reading(file, chunks, calls, buf[..], bufp, bufe, w, c, at, lines, halt)
    requires Clear(buf[..], bufp, bufe)
    modifies buf
    ensures done ==> c == halt
    ensures !done ==> at < at' && Reading(file, chunks, calls + 1, buf[..], bufp', bufe', w', c, at', lines, halt)
  {
    ghost var was := buf[..];
    var readlen;
    bufp', bufe', at', readlen := Refill(file, chunks(calls), buf, bufp, bufe, at, c);
    done, w' := readlen <= 0, w;
    if done {
      StopsHere(file, chunks, calls, was, bufp, bufe, w, c, at, lines, halt, readlen);
    } else {
      w' := ReadOn(file, chunks, calls, was, bufp, bufe, w, c, at, lines, halt, buf[..], bufp', bufe', at', readlen);
    }
  }

  /** Ends the line in the buffer at `bufi`. */
  method CutLine(buf: array<char>, bufp: nat, bufi: nat) returns (line: string)
    requires bufp <= bufi < buf.Length
    modifies buf
    ensures buf[..] == old(buf[..])[bufi := '\0'] && line == old(buf[..])[bufp..bufi]
  {
    line := buf[bufp..bufi];
    buf[bufi] := '\0';
  }

  /** The state of the loop: the buffer shows the file, the lines before `c` have been processed, and
      processing will end at `halt`. */
  ghost predicate Reading(file: string, chunks: Chunks, calls: nat, buf: seq<char>, bufp: nat, bufe: nat,
                          w: nat, c: nat, at: nat, lines: seq<string>, halt: nat) {
    && Buffered(file, buf, bufp, bufe, c, at) && w == c - bufp && Processed(file, c, lines)
    && Halt(file, chunks, calls, w, c, at) == halt
  }

  lemma LineTaken(file: string, chunks: Chunks, calls: nat, buf: seq<char>, bufp: nat, bufe: nat, bufi: nat,
                  w: nat, c: nat, at: nat, lines: seq<string>, halt: nat)
    requires Reading(file, chunks, calls, buf, bufp, bufe, w, c, at, lines, halt)
    requires bufp <= bufi < bufe && buf[bufi] == NEWLINE && Clear(buf, bufp, bufi)
    ensures Reading(file, chunks, calls, buf[bufi := '\0'], bufi + 1, bufe, w, c + (bufi - bufp) + 1, at,
                    lines + [buf[bufp..bufi]], halt)
  {
    EndFound(file, buf, bufp, bufe, bufi, c, at);
    LineFound(file, buf, bufp, bufe, bufi, c, at, lines);
    HaltFound(file, chunks, calls, w, c, at, c + (bufi - bufp) + 1);
  }

  lemma ReadOn(file: string, chunks: Chunks, calls: nat, buf: seq<char>, bufp: nat, bufe: nat,
               w: nat, c: nat, at: nat, lines: seq<string>, halt: nat,
               buf': seq<char>, bufp': nat, bufe': nat, at': nat, n: int) returns (w': nat)
    requires Reading(file, chunks, calls, buf, bufp, bufe, w, c, at, lines, halt) && Clear(buf, bufp, bufe)
    requires n == ReadResult(file, at, PKG_PATH_MAX - (at - Slid(w, c, at)), chunks(calls)) && n > 0
    requires Buffered(file, buf', bufp', bufe', c, at') && at' == at + n && bufp' == c - Slid(w, c, at)
    ensures Reading(file, chunks, calls + 1, buf', bufp', bufe', w', c, at', lines, halt)
  {
    EndFound(file, buf, bufp, bufe, bufe, c, at);
    w' := Slid(w, c, at);
    HaltTurn(file, chunks, calls, w, c, at, w', n);
  }

  lemma StopsHere(file: string, chunks: Chunks, calls: nat, buf: seq<char>, bufp: nat, bufe: nat,
                  w: nat, c: nat, at: nat, lines: seq<string>, halt: nat, n: int)
    requires Reading(file, chunks, calls, buf, bufp, bufe, w, c, at, lines, halt) && Clear(buf, bufp, bufe)
    requires n == ReadResult(file, at, PKG_PATH_MAX - (at - Slid(w, c, at)), chunks(calls)) && n <= 0
    ensures c == halt
  {
    EndFound(file, buf, bufp, bufe, bufe, c, at);
    HaltTurn(file, chunks, calls, w, c, at, Slid(w, c, at), n);
  }

  // ---------------------------------------------------------------- full reads

  /** Every read is as large as the buffer lets it be. */
  ghost predicate FullReads(chunks: Chunks) {
    forall i :: chunks(i) >= PKG_PATH_MAX
  }

  /** Where the line starts that comes after the last newline between `c` and `at`. */
  function AfterLast(file: string, c: nat, at: nat): (r: nat)
    requires c <= at <= |file|
    ensures c <= r <= at && LineEnd(file, r) >= at && (r > c ==> file[r - 1] == NEWLINE)
    decreases at - c
  {
    var i := LineEnd(file, c);
    if i < at then AfterLast(file, i + 1, at) else c
  }

  /**
   * Reading on with a window that starts at `s`.  Nothing is lost if there are no more lines or the
   * rest of the file fits the window.  Otherwise the window must have a newline in it; if it is on
   * the last place then no line may follow; and else reading goes on after it.
   */
  predicate FullyRead(file: string, s: nat)
    requires s <= |file|
    decreases |file| - s
  {
    || LineEnd(file, s) == |file|
    || |file| <= s + 256
    || (var r := AfterLast(file, s, s + 256);
        && r != s
        && (if r == s + 256 then LineEnd(file, r) == |file| else FullyRead(file, r)))
  }

  lemma {:induction false} Consumed(file: string, chunks: Chunks, call: nat, w: nat, c: nat, at: nat)
    requires InWindow(file, w, c, at)
    ensures Halt(file, chunks, call, w, c, at) == Halt(file, chunks, call, w, AfterLast(file, c, at), at)
    decreases at - c
  {
    var i := LineEnd(file, c);
    if i < at { Consumed(file, chunks, call, w, i + 1, at); }
  }

  /** With full reads a window is as long as it can be. */
  function WindowEnd(file: string, w: nat): nat {
    if w + PKG_PATH_MAX <= |file| then w + PKG_PATH_MAX else |file|
  }

  lemma {:induction false} HaltWithFullReads(file: string, chunks: Chunks, call: nat, w: nat, halt: nat)
    requires FullReads(chunks) && w <= |file| && halt == Halt(file, chunks, call, w, w, WindowEnd(file, w))
    ensures LineEnd(file, halt) == |file| <==> FullyRead(file, w)
    decreases |file| - w
  {
    var at := WindowEnd(file, w);
    var c := AfterLast(file, w, at);
    Consumed(file, chunks, call, w, w, at);
    if w < c < at < |file| {
      HaltMoved(file, chunks, call, w, c, at);
      HaltWithFullReads(file, chunks, call + 1, c, halt);
      MovedWindow(file, w, c);
    } else {
      HaltTurn(file, chunks, call, w, c, at, Slid(w, c, at), 0);
      FullWindow(file, w, c);
    }
  }

  lemma {:induction false} MovedWindow(file: string, w: nat, c: nat)
    requires w + PKG_PATH_MAX < |file| && c == AfterLast(file, w, w + PKG_PATH_MAX) && w < c < w + PKG_PATH_MAX
    ensures FullyRead(file, w) <==> FullyRead(file, c)
  {
    assert LineEnd(file, w) <= c - 1;
  }

  /** The turn of the loop that finds no newline. */
  lemma HaltTurn(file: string, chunks: Chunks, call: nat, w: nat, c: nat, at: nat, w': nat, n: int)
    requires InWindow(file, w, c, at) && LineEnd(file, c) >= at && w' == Slid(w, c, at)
    requires n == ReadResult(file, at, PKG_PATH_MAX - (at - w'), chunks(call))
    ensures n <= 0 ==> Halt(file, chunks, call, w, c, at) == c
    ensures n > 0 ==> InWindow(file, w', c, at + n)
                      && Halt(file, chunks, call, w, c, at) == Halt(file, chunks, call + 1, w', c, at + n)
  {
  }

  /** The turn that finds one. */
  lemma {:induction false} HaltFound(file: string, chunks: Chunks, call: nat, w: nat, c: nat, at: nat, c': nat)
    requires InWindow(file, w, c, at) && c' == LineEnd(file, c) + 1 <= at
    ensures Halt(file, chunks, call, w, c, at) == Halt(file, chunks, call, w, c', at)
  {
  }

  lemma HaltMoved(file: string, chunks: Chunks, call: nat, w: nat, c: nat, at: nat)
    requires InWindow(file, w, c, at) && chunks(call) >= PKG_PATH_MAX && w < c < at < |file| && LineEnd(file, c) >= at
    ensures Halt(file, chunks, call, w, c, at) == Halt(file, chunks, call + 1, c, c, WindowEnd(file, c))
  {
    var n := WindowEnd(file, c) - at;
    assert n == ReadResult(file, at, PKG_PATH_MAX - (at - c), chunks(call));
    HaltTurn(file, chunks, call, w, c, at, c, n);
    assert at + n == WindowEnd(file, c);
  }

  /** A window that cannot move. */
  lemma {:induction false} FullWindow(file: string, w: nat, c: nat)
    requires w <= |file| && c == AfterLast(file, w, WindowEnd(file, w))
    requires c == w || c == WindowEnd(file, w) || WindowEnd(file, w) == |file|
    ensures LineEnd(file, c) == |file| <==> FullyRead(file, w)
  {
    if LineEnd(file, w) == |file| { NoLinesLeft(file, w, c); }
  }

  /** Without a newline from `s` on there is none from a later place on. */
  lemma {:induction false} NoLinesLeft(file: string, s: nat, c: nat)
    requires s <= c <= |file|
    ensures LineEnd(file, s) == |file| ==> LineEnd(file, c) == |file| && FullyRead(file, c)
  {
  }

  /** With full reads, every line is processed if and only if `FullyRead`. */
  lemma {:induction false} AllReadFully(file: string, chunks: Chunks)
    requires FullReads(chunks)
    ensures AllRead(file, chunks) <==> FullyRead(file, 0)
  {
    if file == [] {
    } else {
      assert ReadResult(file, 0, PKG_PATH_MAX, chunks(0)) == WindowEnd(file, 0);
      HaltWithFullReads(file, chunks, 1, 0, Halt(file, chunks, 1, 0, 0, WindowEnd(file, 0)));
    }
  }

  // ---------------------------------------------------------------- all chunkings

  ghost predicate NoErrors(chunks: Chunks) {
    forall i :: chunks(i) > 0
  }

  /** A line starts at `s`, or would start there at the end of the file. */
  ghost predicate Starts(file: string, s: nat) {
    s <= |file| && (s == 0 || file[s - 1] == '\n')
  }

  /** A line that is as long as the buffer or longer. */
  ghost predicate LongLine(file: string, s: nat) {
    Starts(file, s) && s + 256 <= LineEnd(file, s) < |file|
  }

  /** From the start of the file, or of a line that is not empty, whole lines fill the buffer
      exactly, and another line follows. */
  ghost predicate ExactFit(file: string, s: nat) {
    && Starts(file, s) && s + 256 < |file| && (s > 0 ==> file[s] != '\n')
    && file[s + 255] == '\n' && LineEnd(file, s + 256) < |file|
  }

  /** A window starts where the file does or where a partial line was kept. */
  ghost predicate WindowAt(file: string, w: nat) {
    Starts(file, w) && (w > 0 && w < |file| ==> file[w] != NEWLINE)
  }

  /** Without errors, a line is left out only for one of the two reasons. */
  lemma {:induction false} WhatIsLeftOut(file: string, chunks: Chunks, call: nat, w: nat, c: nat, at: nat, halt: nat)
    requires NoErrors(chunks) && InWindow(file, w, c, at) && WindowAt(file, w) && Starts(file, c)
    requires halt == Halt(file, chunks, call, w, c, at) && LineEnd(file, halt) < |file|
    ensures exists s :: LongLine(file, s) || ExactFit(file, s)
    decreases |file| - at, |file| - c
  {
    var i := LineEnd(file, c);
    if i < at {
      HaltFound(file, chunks, call, w, c, at, i + 1);
      WhatIsLeftOut(file, chunks, call, w, i + 1, at, halt);
    } else {
      var w' := Slid(w, c, at);
      var n := ReadResult(file, at, PKG_PATH_MAX - (at - w'), chunks(call));
      HaltTurn(file, chunks, call, w, c, at, w', n);
      if n > 0 {
        var at' := at + n;
        WhatIsLeftOut(file, chunks, call + 1, w', c, at', halt);
      } else {
        StopReason(file, w, c, at);
      }
    }
  }

  lemma {:induction false} StopReason(file: string, w: nat, c: nat, at: nat)
    requires InWindow(file, w, c, at) && WindowAt(file, w) && Starts(file, c) && at <= LineEnd(file, c) < |file|
    requires at - Slid(w, c, at) == PKG_PATH_MAX
    ensures LongLine(file, c) || ExactFit(file, w)
  {
  }

  /** A long line stops the reader, whatever the chunks. */
  lemma {:induction false} StopsAtLongLine(file: string, chunks: Chunks, call: nat, w: nat, c: nat, at: nat, s: nat)
    requires InWindow(file, w, c, at) && Starts(file, c) && LongLine(file, s) && c <= s
    ensures Halt(file, chunks, call, w, c, at) <= s
    decreases |file| - at, |file| - c
  {
    var i := LineEnd(file, c);
    if i < at {
      assert c < s;
      StopsAtLongLine(file, chunks, call, w, i + 1, at, s);
    } else {
      var w' := Slid(w, c, at);
      var n := ReadResult(file, at, PKG_PATH_MAX - (at - w'), chunks(call));
      HaltTurn(file, chunks, call, w, c, at, w', n);
      if n > 0 { StopsAtLongLine(file, chunks, call + 1, w', c, at + n, s); }
    }
  }

  /** Reads that put the window at `s`: one character at a time up to there, then full ones. */
  function Probe(s: nat): Chunks {
    (i: nat) => if i <= s && s > 0 then 1 else PKG_PATH_MAX
  }

  /** The full window is consumed, and nothing more can be read. */
  lemma StuckWindow(file: string, chunks: Chunks, call: nat, s: nat)
    requires ExactFit(file, s)
    ensures Halt(file, chunks, call, s, s, s + PKG_PATH_MAX) == s + PKG_PATH_MAX
  {
    var at := s + PKG_PATH_MAX;
    Consumed(file, chunks, call, s, s, at);
    var c := AfterLast(file, s, at);
    assert c == at;
    var n := ReadResult(file, at, 0, chunks(call));
    HaltTurn(file, chunks, call, s, at, at, s, n);
  }

  lemma {:induction false} ProbeStops(file: string, s: nat, w: nat, c: nat, at: nat)
    requires ExactFit(file, s) && s > 0 && InWindow(file, w, c, at) && Starts(file, c) && at <= s
    ensures Halt(file, Probe(s), at, w, c, at) <= s + PKG_PATH_MAX
    decreases s - at, s - c
  {
    var i := LineEnd(file, c);
    if i < at {
      ProbeStops(file, s, w, i + 1, at);
    } else {
      var w' := Slid(w, c, at);
      var n := ReadResult(file, at, PKG_PATH_MAX - (at - w'), 1);
      HaltTurn(file, Probe(s), at, w, c, at, w', n);
      if n > 0 {
        assert n == 1;
        if at < s {
          ProbeStops(file, s, w', c, at + 1);
        } else {
          assert c == s;
          ProbeArrives(file, s, w');
        }
      }
    }
  }

  /** The first character of the line at `s` has been read: the next read moves the window there and fills it. */
  lemma ProbeArrives(file: string, s: nat, w: nat)
    requires ExactFit(file, s) && s > 0 && InWindow(file, w, s, s + 1)
    ensures Halt(file, Probe(s), s + 1, w, s, s + 1) == s + PKG_PATH_MAX
  {
    assert LineEnd(file, s) >= s + 1;
    var n := PKG_PATH_MAX - 1;
    HaltTurn(file, Probe(s), s + 1, w, s, s + 1, s, n);
    StuckWindow(file, Probe(s), s + 2, s);
  }

  lemma {:induction false} LaterNewline(file: string, h: nat, s: nat)
    requires h <= s <= |file| && LineEnd(file, s) < |file|
    ensures LineEnd(file, h) < |file|
  {
  }

  lemma ProbeLoses(file: string, s: nat)
    requires ExactFit(file, s)
    ensures NoErrors(Probe(s)) && !AllRead(file, Probe(s))
  {
    if s == 0 {
      HaltTurn(file, Probe(s), 0, 0, 0, 0, 0, PKG_PATH_MAX);
      StuckWindow(file, Probe(s), 1, 0);
    } else {
      ProbeStops(file, s, 0, 0, 0);
    }
    LaterNewline(file, Halt(file, Probe(s), 0, 0, 0, 0), s + PKG_PATH_MAX);
  }

  /**
   * All lines are processed whatever sizes the reads have, if and only if no line is as long as the
   * buffer and no run of whole lines, from the start of the file or of a line that is not empty,
   * fills the buffer exactly with another line to follow.
   */
  lemma AlwaysAllRead(file: string)
    ensures (forall chunks :: NoErrors(chunks) ==> AllRead(file, chunks)) <==>
            (forall s :: !LongLine(file, s) && !ExactFit(file, s))
  {
    forall chunks | NoErrors(chunks) && !AllRead(file, chunks)
      ensures exists s :: LongLine(file, s) || ExactFit(file, s)
    {
      WhatIsLeftOut(file, chunks, 0, 0, 0, 0, Halt(file, chunks, 0, 0, 0, 0));
    }
    if s :| LongLine(file, s) {
      StopsAtLongLine(file, Probe(0), 0, 0, 0, 0, s);
      LaterNewline(file, Halt(file, Probe(0), 0, 0, 0, 0), s);
      assert NoErrors(Probe(0)) && !AllRead(file, Probe(0));
    } else if s :| ExactFit(file, s) {
      ProbeLoses(file, s);
    }
  }

  /** A file of two short lines of which the second is lost: the first fills the buffer exactly. */
  lemma SecondLineLost(file: string, chunks: Chunks)
    requires file == seq(255, _ => 'a') + "\nb\n" && FullReads(chunks)
    ensures !AllRead(file, chunks)
  {
    assert file[PKG_PATH_MAX - 1] == NEWLINE && forall j :: 0 <= j < PKG_PATH_MAX - 1 ==> file[j] == 'a';
    assert LineEnd(file, 0) == PKG_PATH_MAX - 1;
    assert LineEnd(file, PKG_PATH_MAX) == PKG_PATH_MAX + 1;
    AllReadFully(file, chunks);
  }
}
