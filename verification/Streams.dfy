/**
 * Writers that see a byte stream in arbitrary pieces: the line splitter (pipeline/reporter.go) and
 * the line prefixer (kit/out/out.go). What they produce depends on the bytes, not on the pieces.
 */
module Streams {
  function Concat(chunks: seq<string>): string {
    if chunks == [] then "" else Concat(chunks[..|chunks| - 1]) + chunks[|chunks| - 1]
  }

  function IndexByte(s: string, c: char): (i: int)
    ensures -1 <= i < |s|
    ensures i >= 0 ==> s[i] == c
    ensures forall j :: 0 <= j < (if i < 0 then |s| else i) ==> s[j] != c
  {
    if s == "" then -1
    else if s[0] == c then 0
    else
      var i := IndexByte(s[1..], c);
      if i < 0 then -1 else i + 1
  }

  // ----- Splitting into lines -----

  /** `bytes.TrimRight(line, "\r")`. */
  function TrimCR(line: string): (r: string)
    ensures r <= line && forall i :: |r| <= i < |line| ==> line[i] == '\r'
    ensures r != "" ==> r[|r| - 1] != '\r'
  {
    if line != "" && line[|line| - 1] == '\r' then TrimCR(line[..|line| - 1]) else line
  }

  /** The finished lines of a stream, without their newlines, and what follows the last newline. */
  datatype Split = Split(lines: seq<string>, rest: string)

  function Step(st: Split, c: char): Split {
    if c == '\n' then Split(st.lines + [st.rest], "") else Split(st.lines, st.rest + [c])
  }

  /** Splitting goes byte by byte, so it cannot depend on how the bytes arrive. */
  function Feed(st: Split, s: string): Split
    decreases |s|
  {
    if s == "" then st else Feed(Step(st, s[0]), s[1..])
  }

  function SplitOf(s: string): Split {
    Feed(Split([], ""), s)
  }

  function TrimAll(lines: seq<string>): seq<string> {
    seq(|lines|, i requires 0 <= i < |lines| => TrimCR(lines[i]))
  }

  /** What a stream comes to once it is over. */
  function OneShot(s: string): seq<string> {
    TrimAll(SplitOf(s).lines) + if SplitOf(s).rest == "" then [] else [TrimCR(SplitOf(s).rest)]
  }

  ghost predicate NewlineFree(s: string) {
    forall i :: 0 <= i < |s| ==> s[i] != '\n'
  }

  lemma {:induction false} FeedInTwo(st: Split, a: string, b: string)
    ensures Feed(st, a + b) == Feed(Feed(st, a), b)
    decreases |a|
  {
    if a == "" {
      assert a + b == b;
    } else {
      assert (a + b)[1..] == a[1..] + b;
      FeedInTwo(Step(st, a[0]), a[1..], b);
    }
  }

  lemma {:induction false} FeedQuietly(st: Split, s: string)
    requires NewlineFree(s)
    ensures Feed(st, s) == Split(st.lines, st.rest + s)
    decreases |s|
  {
    if s == "" {
      assert st.rest + s == st.rest;
    } else {
      FeedQuietly(Step(st, s[0]), s[1..]);
      assert st.rest + [s[0]] + s[1..] == st.rest + s;
    }
  }

  /** A line and its newline, ahead of more. */
  lemma FeedLine(lines: seq<string>, line: string, more: string)
    requires NewlineFree(line)
    ensures Feed(Split(lines, ""), line + ("\n" + more)) == Feed(Split(lines + [line], ""), more)
  {
    var st := Split(lines, "");
    FeedInTwo(st, line, "\n" + more);
    FeedQuietly(st, line);
    assert "" + line == line && ("\n" + more)[1..] == more;
  }

  /** Lines already finished are never touched again. */
  lemma {:induction false} FeedKeepsLines(lines: seq<string>, rest: string, s: string)
    ensures Feed(Split(lines, rest), s).lines == lines + Feed(Split([], rest), s).lines
    ensures Feed(Split(lines, rest), s).rest == Feed(Split([], rest), s).rest
    decreases |s|
  {
    if s == "" {
      assert lines + [] == lines;
    } else {
      var one, two := Step(Split(lines, rest), s[0]), Step(Split([], rest), s[0]);
      FeedKeepsLines(one.lines, one.rest, s[1..]);
      FeedKeepsLines(two.lines, two.rest, s[1..]);
      assert one.lines == lines + two.lines;
      assert lines + (two.lines + Feed(Split([], two.rest), s[1..]).lines)
          == lines + two.lines + Feed(Split([], two.rest), s[1..]).lines;
    }
  }

  // ----- The split, characterised without splitting -----

  function Unlines(lines: seq<string>): string {
    if lines == [] then "" else Unlines(lines[..|lines| - 1]) + (lines[|lines| - 1] + "\n")
  }

  ghost predicate Pieces(s: string, sp: Split) {
    && s == Unlines(sp.lines) + sp.rest && NewlineFree(sp.rest)
    && forall k :: 0 <= k < |sp.lines| ==> NewlineFree(sp.lines[k])
  }

  lemma {:induction false} FeedRebuilds(st: Split, before: string, s: string)
    requires Pieces(before, st)
    ensures Pieces(before + s, Feed(st, s))
    decreases |s|
  {
    if s == "" {
      assert before + s == before;
    } else {
      StepRebuilds(st, before, s[0]);
      FeedRebuilds(Step(st, s[0]), before + [s[0]], s[1..]);
      assert before + [s[0]] + s[1..] == before + s;
    }
  }

  lemma StepRebuilds(st: Split, before: string, c: char)
    requires Pieces(before, st)
    ensures Pieces(before + [c], Step(st, c))
  {
    if c == '\n' {
      var lines := st.lines + [st.rest];
      assert lines[..|lines| - 1] == st.lines;
      assert before + "\n" == Unlines(st.lines) + (st.rest + "\n") + "";
    } else {
      assert before + [c] == Unlines(st.lines) + (st.rest + [c]);
    }
  }

  lemma {:induction false} FeedUnlines(lines: seq<string>)
    requires forall k :: 0 <= k < |lines| ==> NewlineFree(lines[k])
    ensures SplitOf(Unlines(lines)) == Split(lines, "")
  {
    if lines != [] {
      var front, last := lines[..|lines| - 1], lines[|lines| - 1];
      FeedUnlines(front);
      FeedInTwo(Split([], ""), Unlines(front), last + "\n");
      assert last + "\n" == last + ("\n" + "");
      FeedLine(front, last, "");
      assert front + [last] == lines;
    }
  }

  /** The split cuts at every newline and loses nothing, and it is the only one that does. */
  lemma SplitIsExact(s: string, sp: Split)
    ensures SplitOf(s) == sp <==> Pieces(s, sp)
  {
    FeedRebuilds(Split([], ""), "", s);
    assert "" + s == s;
    if Pieces(s, sp) {
      FeedUnlines(sp.lines);
      FeedInTwo(Split([], ""), Unlines(sp.lines), sp.rest);
      FeedQuietly(Split(sp.lines, ""), sp.rest);
      assert "" + sp.rest == sp.rest;
    }
  }

  lemma RestIsNewlineFree(s: string)
    ensures NewlineFree(SplitOf(s).rest)
  {
    SplitIsExact(s, SplitOf(s));
  }

  /** The lines of a stream one after the other, each without its newline and trailing carriage returns. */
  lemma OneShotLineByLine(line: string, rest: string)
    requires NewlineFree(line)
    ensures OneShot(line + "\n" + rest) == [TrimCR(line)] + OneShot(rest)
    ensures OneShot(line) == if line == "" then [] else [TrimCR(line)]
  {
    SplitFirstLine(line, rest);
    FirstLineTrimmed(line, SplitOf(rest).lines, if SplitOf(rest).rest == "" then [] else [TrimCR(SplitOf(rest).rest)]);
    UnfinishedLine(line);
  }

  lemma FirstLineTrimmed(line: string, lines: seq<string>, end: seq<string>)
    ensures TrimAll([line] + lines) + end == [TrimCR(line)] + (TrimAll(lines) + end)
  {
    TrimAllAppend([line], lines);
    assert TrimAll([line]) == [TrimCR(line)];
  }

  lemma UnfinishedLine(line: string)
    requires NewlineFree(line)
    ensures OneShot(line) == if line == "" then [] else [TrimCR(line)]
  {
    FeedQuietly(Split([], ""), line);
    assert "" + line == line;
  }

  lemma SplitFirstLine(line: string, rest: string)
    requires NewlineFree(line)
    ensures SplitOf(line + "\n" + rest) == Split([line] + SplitOf(rest).lines, SplitOf(rest).rest)
  {
    assert line + "\n" + rest == line + ("\n" + rest);
    FeedLine([], line, rest);
    assert [] + [line] == [line];
    FeedKeepsLines([line], "", rest);
  }

  // ----- The splitter -----

  lemma TrimAllAppend(x: seq<string>, y: seq<string>)
    ensures TrimAll(x + y) == TrimAll(x) + TrimAll(y)
  {
  }

  class LineWriter {
    /** The lines handed to the callback so far. */
    var emitted: seq<string>
    var buf: string

    constructor ()
      ensures emitted == [] && buf == ""
    {
      emitted, buf := [], "";
    }

    /** Between writes the buffer holds an unfinished line, without a newline. */
    method Write(p: string) returns (n: nat)
      modifies this
      ensures n == |p| && NewlineFree(buf)
      ensures emitted == old(emitted) + TrimAll(SplitOf(old(buf) + p).lines)
      ensures buf == SplitOf(old(buf) + p).rest
    {
      buf := buf + p;
      ghost var whole := buf;
      ghost var lines: seq<string> := [];
      while true
        invariant emitted == old(emitted) + TrimAll(lines)
        invariant SplitOf(whole) == Feed(Split(lines, ""), buf)
        decreases |buf|
      {
        var i := IndexByte(buf, '\n');
        if i < 0 {
          FeedQuietly(Split(lines, ""), buf);
          assert "" + buf == buf;
          break;
        }
        assert buf == buf[..i] + ("\n" + buf[i + 1..]);
        FeedLine(lines, buf[..i], buf[i + 1..]);
        TrimAllAppend(lines, [buf[..i]]);
        lines := lines + [buf[..i]];
        emitted := emitted + [TrimCR(buf[..i])];
        buf := buf[i + 1..];
      }
      return |p|;
    }

    method Flush()
      modifies this
      ensures emitted == old(emitted) + if old(buf) == "" then [] else [TrimCR(old(buf))]
      ensures buf == ""
    {
      if |buf| > 0 {
        emitted := emitted + [TrimCR(buf)];
        buf := "";
      }
    }
  }

  /** Splitting what is left of a stream together with what comes next. */
  lemma SplitResumes(a: string, b: string)
    ensures SplitOf(a + b).lines == SplitOf(a).lines + SplitOf(SplitOf(a).rest + b).lines
    ensures SplitOf(a + b).rest == SplitOf(SplitOf(a).rest + b).rest
  {
    var st := SplitOf(a);
    FeedInTwo(Split([], ""), a, b);
    RestIsNewlineFree(a);
    FeedInTwo(Split([], ""), st.rest, b);
    FeedQuietly(Split([], ""), st.rest);
    assert "" + st.rest == st.rest;
    FeedKeepsLines(st.lines, st.rest, b);
  }

  /** However a stream is cut into writes, the lines are those of the whole stream; one flush is enough. */
  method SplitLines(chunks: seq<string>) returns (lines: seq<string>, afterAnother: seq<string>)
    ensures lines == OneShot(Concat(chunks))
    ensures afterAnother == lines
  {
    var w := new LineWriter();
    for i := 0 to |chunks|
      invariant w.emitted == TrimAll(SplitOf(Concat(chunks[..i])).lines) && w.buf == SplitOf(Concat(chunks[..i])).rest
    {
      assert chunks[..i + 1][..i] == chunks[..i];
      SplitResumes(Concat(chunks[..i]), chunks[i]);
      TrimAllAppend(SplitOf(Concat(chunks[..i])).lines, SplitOf(w.buf + chunks[i]).lines);
      var n := w.Write(chunks[i]);
    }
    assert chunks[..|chunks|] == chunks;
    w.Flush();
    lines := w.emitted;
    w.Flush();
    afterAnother := w.emitted;
  }

  // ----- Prefixing lines -----

  /** The stream with `prefix` before every byte that begins a line. */
  function Prefixed(prefix: string, s: string, atLineStart: bool): string {
    if s == "" then ""
    else (if atLineStart then prefix else "") + [s[0]] + Prefixed(prefix, s[1..], s[0] == '\n')
  }

  /** Whether the byte after `s` begins a line. */
  function LineStartAfter(s: string, atLineStart: bool): bool {
    if s == "" then atLineStart else s[|s| - 1] == '\n'
  }

  lemma {:induction false} PrefixedInTwo(prefix: string, a: string, b: string, start: bool)
    ensures Prefixed(prefix, a + b, start) == Prefixed(prefix, a, start) + Prefixed(prefix, b, LineStartAfter(a, start))
    ensures LineStartAfter(a + b, start) == LineStartAfter(b, LineStartAfter(a, start))
  {
    if a == "" {
      assert a + b == b && "" + Prefixed(prefix, b, start) == Prefixed(prefix, b, start);
    } else {
      assert (a + b)[1..] == a[1..] + b;
      PrefixedInTwo(prefix, a[1..], b, a[0] == '\n');
    }
  }

  /** Inside a line nothing is inserted. */
  lemma {:induction false} PrefixedWithin(prefix: string, s: string)
    requires forall i :: 0 <= i < |s| - 1 ==> s[i] != '\n'
    ensures Prefixed(prefix, s, false) == s
  {
    if s != "" {
      if |s| > 1 {
        PrefixedWithin(prefix, s[1..]);
        assert s[0] != '\n';
      }
      assert [s[0]] + s[1..] == s;
    }
  }

  /** The prefix stands before each line, the last one too unless it is empty, and nowhere else. */
  lemma PrefixedLineByLine(prefix: string, line: string, rest: string)
    requires NewlineFree(line)
    ensures Prefixed(prefix, line + "\n" + rest, true) == prefix + line + "\n" + Prefixed(prefix, rest, true)
    ensures Prefixed(prefix, line, true) == if line == "" then "" else prefix + line
  {
    var piece := line + "\n";
    PrefixedInTwo(prefix, piece, rest, true);
    PrefixedPiece(prefix, piece, true);
    assert prefix + line + "\n" == prefix + piece;
    if line != "" {
      PrefixedPiece(prefix, line, true);
    }
  }

  lemma StartAdds(prefix: string, s: string)
    requires s != ""
    ensures Prefixed(prefix, s, true) == prefix + Prefixed(prefix, s, false)
  {
    assert "" + [s[0]] == [s[0]];
  }

  /** One piece of the input, up to and including a newline. */
  lemma PrefixedPiece(prefix: string, piece: string, start: bool)
    requires piece != "" && forall i :: 0 <= i < |piece| - 1 ==> piece[i] != '\n'
    ensures Prefixed(prefix, piece, start) == (if start then prefix else "") + piece
  {
    PrefixedWithin(prefix, piece);
    StartAdds(prefix, piece);
    assert "" + piece == piece;
  }

  lemma Regroup(a: string, b: string, c: string, d: string)
    ensures a + (b + (c + d)) == a + b + c + d
    ensures a + (b + c) == a + b + c
    ensures b == "" ==> a + b == a
  {
  }

  /** The writer underneath: it accepts a number of whole writes, then fails. */
  class Sink {
    var sent: string
    var budget: nat

    constructor (budget: nat)
      ensures sent == "" && this.budget == budget
    {
      sent, this.budget := "", budget;
    }

    method Write(b: string) returns (ok: bool)
      modifies this
      ensures ok <==> old(budget) > 0
      ensures sent == old(sent) + if ok then b else ""
      ensures budget == if ok then old(budget) - 1 else old(budget)
    {
      ok := budget > 0;
      if ok {
        sent := sent + b;
        budget := budget - 1;
      }
    }
  }

  /** How many writes the sink sees: one for each piece of a line, and one for each prefix. */
  function Calls(s: string, start: bool): nat {
    if s == "" then 0
    else (if start then 1 else 0) + (if s[0] == '\n' || |s| == 1 then 1 else 0) + Calls(s[1..], s[0] == '\n')
  }

  lemma {:induction false} CallsOfPiece(piece: string, rest: string, start: bool)
    requires piece != "" && forall j :: 0 <= j < |piece| - 1 ==> piece[j] != '\n'
    requires rest != "" ==> piece[|piece| - 1] == '\n'
    ensures Calls(piece + rest, start) == (if start then 2 else 1) + Calls(rest, LineStartAfter(piece, start))
  {
    assert (piece + rest)[1..] == piece[1..] + rest;
    if |piece| == 1 {
      assert piece[1..] + rest == rest;
    } else {
      assert piece[0] != '\n';
      CallsOfPiece(piece[1..], rest, false);
    }
  }

  lemma {:induction false} CutPiece(done: string, b: string, piece: string)
    requires piece <= b
    ensures b == piece + b[|piece|..] && done + b == done + piece + b[|piece|..]
  {
    assert done + (piece + b[|piece|..]) == done + piece + b[|piece|..];
  }

  /** What one more piece adds to what was sent, and takes from what is to come. */
  lemma {:induction false} NextPiece(prefix: string, sent: string, done: string, piece: string, rest: string,
                                     start: bool)
    requires piece != "" && forall j :: 0 <= j < |piece| - 1 ==> piece[j] != '\n'
    requires rest != "" ==> piece[|piece| - 1] == '\n'
    ensures var line := LineStartAfter(done, start);
            && sent + Prefixed(prefix, done + piece, start)
               == sent + Prefixed(prefix, done, start) + Prefixed(prefix, piece, line)
            && LineStartAfter(done + piece, start) == LineStartAfter(piece, line)
            && Calls(piece + rest, line) == (if line then 2 else 1) + Calls(rest, LineStartAfter(piece, line))
  {
    var line := LineStartAfter(done, start);
    PrefixedInTwo(prefix, done, piece, start);
    Regroup(sent, Prefixed(prefix, done, start), Prefixed(prefix, piece, line), "");
    CallsOfPiece(piece, rest, line);
  }

  class PrefixWriter {
    const w: Sink
    const prefix: string
    var atLineStart: bool

    constructor (w: Sink, prefix: string)
      ensures this.w == w && this.prefix == prefix && atLineStart
    {
      this.w, this.prefix, atLineStart := w, prefix, true;
    }

    /** Part of one line, after the prefix if the line is about to begin. */
    method WritePiece(piece: string) returns (ok: bool)
      requires piece != "" && forall j :: 0 <= j < |piece| - 1 ==> piece[j] != '\n'
      modifies this, w
      ensures ok <==> old(w.budget) >= if old(atLineStart) then 2 else 1
      ensures ok ==> && w.sent == old(w.sent) + Prefixed(prefix, piece, old(atLineStart))
                     && atLineStart == LineStartAfter(piece, old(atLineStart))
                     && w.budget == old(w.budget) - if old(atLineStart) then 2 else 1
      ensures !ok ==> && w.budget == 0
                      && (|| (w.sent == old(w.sent) && atLineStart == old(atLineStart))
                          || (w.sent == old(w.sent) + prefix && old(atLineStart) && !atLineStart))
    {
      PrefixedPiece(prefix, piece, atLineStart);
      ghost var lead := if atLineStart then prefix else "";
      Regroup(w.sent, lead, piece, "");
      if atLineStart {
        ok := w.Write(prefix);
        if !ok {
          return false;
        }
        atLineStart := false;
      }
      assert w.sent == old(w.sent) + lead;
      ok := w.Write(piece);
      if !ok {
        return false;
      }
      if piece[|piece| - 1] == '\n' {
        atLineStart := true;
      }
    }

    /** Reports the whole input as written; or, when the sink fails, nothing, wherever it stopped. */
    method Write(b0: string) returns (n: nat, ok: bool)
      modifies this, w
      ensures ok <==> old(w.budget) >= Calls(b0, old(atLineStart))
      ensures ok ==> w.budget == old(w.budget) - Calls(b0, old(atLineStart))
      ensures ok ==> && n == |b0| && w.sent == old(w.sent) + Prefixed(prefix, b0, old(atLineStart))
                     && atLineStart == LineStartAfter(b0, old(atLineStart))
      ensures !ok ==> && n == 0 && w.budget == 0
                      && StoppedShort(prefix, b0, old(atLineStart), old(w.sent), w.sent, atLineStart)
    {
      var b := b0;
      var consumed := |b|;
      ghost var done := "";
      ghost var sent, start := w.sent, atLineStart;
      assert sent + "" == sent;
      while |b| > 0
        invariant done + b == b0
        invariant w.budget + Calls(b0, start) == old(w.budget) + Calls(b, atLineStart)
        invariant w.sent == sent + Prefixed(prefix, done, start) && atLineStart == LineStartAfter(done, start)
        decreases |b|
      {
        var i := IndexByte(b, '\n');
        var piece := if i < 0 then b else b[..i + 1];
        CutPiece(done, b, piece);
        NextPiece(prefix, sent, done, piece, b[|piece|..], start);
        var wrote := WritePiece(piece);
        if !wrote {
          return 0, false;
        }
        done := done + piece;
        b := b[|piece|..];
      }
      assert done == b0;
      return consumed, true;
    }
  }

  /** What was sent is a beginning of the input, prefixed, and perhaps the prefix of the next byte's line. */
  ghost predicate StoppedShort(prefix: string, s: string, start: bool, before: string, sent: string,
                               atLineStart: bool) {
    exists done: string ::
      && done < s
      && var line := LineStartAfter(done, start);
         || (sent == before + Prefixed(prefix, done, start) && atLineStart == line)
         || (sent == before + Prefixed(prefix, done, start) + prefix && line && !atLineStart)
  }

  /** How many writes the sink sees when a stream comes in chunks. */
  function TotalCalls(chunks: seq<string>): nat {
    if chunks == [] then 0
    else
      var front := chunks[..|chunks| - 1];
      TotalCalls(front) + Calls(chunks[|chunks| - 1], LineStartAfter(Concat(front), true))
  }

  lemma {:induction false} CallsAtMost(s: string, start: bool)
    ensures Calls(s, start) <= 2 * |s|
  {
    if s != "" {
      CallsAtMost(s[1..], s[0] == '\n');
    }
  }

  /** Two writes for each byte are always enough. */
  lemma {:induction false} TotalCallsAtMost(chunks: seq<string>)
    ensures TotalCalls(chunks) <= 2 * |Concat(chunks)|
  {
    if chunks != [] {
      var front, last := chunks[..|chunks| - 1], chunks[|chunks| - 1];
      TotalCallsAtMost(front);
      CallsAtMost(last, LineStartAfter(Concat(front), true));
    }
  }

  lemma {:induction false} TotalCallsGrow(chunks: seq<string>, i: nat)
    requires i <= |chunks|
    ensures TotalCalls(chunks[..i]) <= TotalCalls(chunks)
  {
    if i == |chunks| {
      assert chunks[..i] == chunks;
    } else {
      var front := chunks[..|chunks| - 1];
      assert front[..i] == chunks[..i];
      TotalCallsGrow(front, i);
    }
  }

  lemma {:induction false} ConcatGrows(chunks: seq<string>, i: nat)
    requires i <= |chunks|
    ensures Concat(chunks[..i]) <= Concat(chunks)
  {
    if i == |chunks| {
      assert chunks[..i] == chunks;
    } else {
      var front := chunks[..|chunks| - 1];
      assert front[..i] == chunks[..i];
      ConcatGrows(front, i);
    }
  }

  lemma {:induction false} ChunkEnds(chunks: seq<string>, i: nat, done: string)
    requires i < |chunks| && done < chunks[i]
    ensures Concat(chunks[..i]) + done < Concat(chunks)
  {
    ConcatGrows(chunks, i + 1);
    assert chunks[..i + 1][..i] == chunks[..i];
    assert Concat(chunks[..i + 1]) == Concat(chunks[..i]) + chunks[i];
  }

  /** A chunk that stops short stops the whole stream short. */
  lemma {:induction false} StreamStopsShort(prefix: string, chunks: seq<string>, i: nat, before: string, sent: string,
                                            line: bool)
    requires i < |chunks| && before == Prefixed(prefix, Concat(chunks[..i]), true)
    requires StoppedShort(prefix, chunks[i], LineStartAfter(Concat(chunks[..i]), true), before, sent, line)
    ensures StoppedShort(prefix, Concat(chunks), true, "", sent, line)
  {
    var earlier, start := Concat(chunks[..i]), LineStartAfter(Concat(chunks[..i]), true);
    var done: string :|
      && done < chunks[i]
      && var l := LineStartAfter(done, start);
         || (sent == before + Prefixed(prefix, done, start) && line == l)
         || (sent == before + Prefixed(prefix, done, start) + prefix && l && !line);
    PrefixedInTwo(prefix, earlier, done, true);
    assert "" + Prefixed(prefix, earlier + done, true) == before + Prefixed(prefix, done, start);
    ChunkEnds(chunks, i, done);
  }

  /** However a stream is cut into writes, what is sent is the whole stream, prefixed. */
  method PrefixStream(prefix: string, chunks: seq<string>, budget: nat) returns (sent: string, ok: bool)
    ensures ok <==> budget >= TotalCalls(chunks)
    ensures ok ==> sent == Prefixed(prefix, Concat(chunks), true)
    ensures !ok ==> exists line :: StoppedShort(prefix, Concat(chunks), true, "", sent, line)
  {
    var sink := new Sink(budget);
    var p := new PrefixWriter(sink, prefix);
    for i := 0 to |chunks|
      invariant sink.sent == Prefixed(prefix, Concat(chunks[..i]), true)
      invariant p.atLineStart == LineStartAfter(Concat(chunks[..i]), true)
      invariant sink.budget + TotalCalls(chunks[..i]) == budget
    {
      ghost var before := sink.sent;
      assert chunks[..i + 1][..i] == chunks[..i];
      TotalCallsGrow(chunks, i + 1);
      var n, wrote := p.Write(chunks[i]);
      if !wrote {
        StreamStopsShort(prefix, chunks, i, before, sink.sent, p.atLineStart);
        return sink.sent, false;
      }
      PrefixedInTwo(prefix, Concat(chunks[..i]), chunks[i], true);
    }
    assert chunks[..|chunks|] == chunks;
    return sink.sent, true;
  }
}
