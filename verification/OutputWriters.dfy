/** What restic's output goes through (internal/resticrun/command.go:119-179):
    a splitter that hands on complete lines and a buffer that stops growing.
    Both see the stream in whatever pieces the pipe delivers. */
module OutputWriters {

  newtype byte = b: int | 0 <= b < 256
  type Bytes = seq<byte>

  const NEWLINE: byte := 10
  const MAX_PENDING_LINE := 1024 * 1024

  function Flat(writes: seq<Bytes>): Bytes {
    if writes == [] then [] else Flat(writes[..|writes| - 1]) + writes[|writes| - 1]
  }

  // ---- Lines, one byte at a time ----

  /** The lines completed so far and the one that is not. */
  datatype Lines = Lines(done: seq<Bytes>, pending: Bytes)

  const NOTHING := Lines([], [])

  function Step(lines: Lines, b: byte): Lines {
    if b != NEWLINE then Lines(lines.done, lines.pending + [b])
    else Lines(Emitted(lines.done, lines.pending), [])
  }

  function Emitted(done: seq<Bytes>, line: Bytes): seq<Bytes> {
    if line == [] then done else done + [line]
  }

  function Run(lines: Lines, s: Bytes): Lines {
    if s == [] then lines else Step(Run(lines, s[..|s| - 1]), s[|s| - 1])
  }

  lemma {:induction false} RunConcat(lines: Lines, a: Bytes, b: Bytes)
    ensures Run(lines, a + b) == Run(Run(lines, a), b)
  {
    if b == [] {
      assert a + b == a;
    } else {
      assert (a + b)[..|a + b| - 1] == a + b[..|b| - 1];
      RunConcat(lines, a, b[..|b| - 1]);
    }
  }

  lemma {:induction false} RunPlain(lines: Lines, s: Bytes)
    requires NEWLINE !in s
    ensures Run(lines, s) == Lines(lines.done, lines.pending + s)
  {
    if s != [] {
      RunPlain(lines, s[..|s| - 1]);
      assert lines.pending + s == lines.pending + s[..|s| - 1] + [s[|s| - 1]];
    }
  }

  /** What the reference reads out of a stream is what was put into it. */
  lemma {:induction false} LinesReadBack(lines: seq<Bytes>, tail: Bytes)
    requires forall i | 0 <= i < |lines| :: lines[i] != [] && NEWLINE !in lines[i]
    requires NEWLINE !in tail
    ensures Run(NOTHING, Terminated(lines) + tail) == Lines(lines, tail)
  {
    RunConcat(NOTHING, Terminated(lines), tail);
    if lines == [] {
      RunPlain(NOTHING, tail);
    } else {
      var n := |lines| - 1;
      LinesReadBack(lines[..n], lines[n]);
      assert (Terminated(lines[..n]) + lines[n] + [NEWLINE])[..|Terminated(lines)| - 1] == Terminated(lines[..n]) + lines[n];
      assert lines[..n] + [lines[n]] == lines;
      RunPlain(Lines(lines, []), tail);
    }
  }

  /** Blank lines are dropped: of any stream, cut at its newlines, the reading
      is what is not empty, and what follows the last of them. */
  lemma {:induction false} LinesAreThePieces(lines: seq<Bytes>, tail: Bytes)
    requires forall i | 0 <= i < |lines| :: 10 !in lines[i]
    requires 10 !in tail
    ensures Run(NOTHING, Terminated(lines) + tail) == Lines(NonEmpty(lines), tail)
  {
    RunConcat(NOTHING, Terminated(lines), tail);
    if lines == [] {
      RunPlain(NOTHING, tail);
    } else {
      var n := |lines| - 1;
      LinesAreThePieces(lines[..n], lines[n]);
      assert (Terminated(lines[..n]) + lines[n] + [NEWLINE])[..|Terminated(lines)| - 1] == Terminated(lines[..n]) + lines[n];
      RunPlain(Lines(NonEmpty(lines), []), tail);
    }
  }

  function NonEmpty(lines: seq<Bytes>): (kept: seq<Bytes>)
    ensures forall line :: line in kept <==> line in lines && |line| > 0
  {
    if lines == [] then []
    else
      var front, last := lines[..|lines| - 1], lines[|lines| - 1];
      assert lines == front + [last];
      if |last| > 0 then NonEmpty(front) + [last] else NonEmpty(front)
  }

  /** And every stream is such pieces. */
  lemma {:induction false} EveryStreamIsLines(s: Bytes) returns (lines: seq<Bytes>, tail: Bytes)
    ensures s == Terminated(lines) + tail && 10 !in tail && forall i | 0 <= i < |lines| :: 10 !in lines[i]
  {
    if s == [] {
      lines, tail := [], [];
    } else {
      var n := |s| - 1;
      lines, tail := EveryStreamIsLines(s[..n]);
      if s[n] == 10 {
        assert (lines + [tail])[..|lines|] == lines;
        lines, tail := lines + [tail], [];
      } else {
        tail := tail + [s[n]];
      }
    }
  }

  function Terminated(lines: seq<Bytes>): Bytes {
    if lines == [] then [] else Terminated(lines[..|lines| - 1]) + lines[|lines| - 1] + [NEWLINE]
  }

  // ---- The splitter ----

  /** The part of a write up to its last newline. */
  function UpToNewline(p: Bytes): (head: Bytes)
    ensures head <= p && NEWLINE !in p[|head|..]
  {
    if p == [] || p[|p| - 1] == NEWLINE then p else UpToNewline(p[..|p| - 1])
  }

  /** One write: everything, unless the unfinished line would grow past the
      bound; then what follows the write's last newline is lost. */
  function Written(lines: Lines, p: Bytes): Lines {
    if |Run(lines, p).pending| <= MAX_PENDING_LINE then Run(lines, p) else Run(lines, UpToNewline(p))
  }

  function IndexByte(p: Bytes, b: byte): (i: int)
    ensures -1 <= i < |p|
    ensures i >= 0 ==> p[i] == b && b !in p[..i]
    ensures i < 0 ==> b !in p
  {
    if p == [] then -1
    else if p[0] == b then 0
    else
      var i := IndexByte(p[1..], b);
      assert p == [p[0]] + p[1..];
      if i < 0 then -1 else
        assert p[..i + 1] == [p[0]] + p[1..][..i];
        i + 1
  }

  lemma {:induction false} UpToNewlineIs(head: Bytes, tail: Bytes)
    requires head == [] || head[|head| - 1] == NEWLINE
    requires NEWLINE !in tail
    ensures UpToNewline(head + tail) == head
  {
    if tail == [] {
      assert head + tail == head;
    } else {
      var n := |tail| - 1;
      assert (head + tail)[..|head| + n] == head + tail[..n];
      UpToNewlineIs(head, tail[..n]);
    }
  }

  lemma RunLine(lines: Lines, head: Bytes, line: Bytes)
    requires NEWLINE !in line
    ensures var at := Run(lines, head);
            Run(lines, head + line + [NEWLINE]) == Lines(Emitted(at.done, at.pending + line), [])
  {
    RunConcat(lines, head, line);
    RunPlain(Run(lines, head), line);
    assert (head + line + [NEWLINE])[..|head| + |line|] == head + line;
  }

  lemma Advance(head: Bytes, rest: Bytes, i: nat)
    requires i < |rest|
    ensures head + rest == (head + rest[..i] + [rest[i]]) + rest[i + 1..]
  {
  }

  lemma WrittenTail(lines: Lines, head: Bytes, tail: Bytes)
    requires head == [] || head[|head| - 1] == NEWLINE
    requires NEWLINE !in tail
    ensures var at := Run(lines, head);
            Written(lines, head + tail) ==
            if |at.pending| + |tail| <= MAX_PENDING_LINE then Lines(at.done, at.pending + tail) else at
  {
    RunConcat(lines, head, tail);
    RunPlain(Run(lines, head), tail);
    UpToNewlineIs(head, tail);
  }

  /** Past the bound only the unfinished line is lost: every line the write
      completes is handed on, and nothing of an earlier write is lost with it. */
  lemma OnlyTheTailIsLost(lines: Lines, p: Bytes)
    ensures Written(lines, p).done == Run(lines, p).done
    ensures Written(lines, p).pending ==
            if |Run(lines, p).pending| <= 1_048_576 then Run(lines, p).pending
            else if 10 in p then [] else lines.pending
  {
    var head := UpToNewline(p);
    var tail := p[|head|..];
    assert p == head + tail;
    RunConcat(lines, head, tail);
    RunPlain(Run(lines, head), tail);
    EndsAtNewline(p);
    HeldAtHead(lines, p, head);
  }

  lemma HeldAtHead(lines: Lines, p: Bytes, head: Bytes)
    requires if 10 in p then head != [] && head[|head| - 1] == 10 else head == []
    ensures Run(lines, head).pending == if 10 in p then [] else lines.pending
  {
  }

  lemma {:induction false} EndsAtNewline(p: Bytes)
    ensures if 10 in p then UpToNewline(p) != [] && UpToNewline(p)[|UpToNewline(p)| - 1] == 10 else UpToNewline(p) == []
  {
    if p != [] && p[|p| - 1] != NEWLINE {
      EndsAtNewline(p[..|p| - 1]);
      assert p == p[..|p| - 1] + [p[|p| - 1]];
    }
  }

  class LineWriter {
    /** What emit was called with, in order. */
    var emitted: seq<Bytes>
    var pending: Bytes

    function Read(): Lines
      reads this
    {
      Lines(emitted, pending)
    }

    constructor ()
      ensures Read() == NOTHING
    {
      emitted := [];
      pending := [];
    }

    method Write(p: Bytes) returns (written: nat)
      modifies this
      ensures written == |p|
      ensures Read() == Written(old(Read()), p)
      ensures |old(pending)| <= MAX_PENDING_LINE ==> |pending| <= MAX_PENDING_LINE
    {
      var rest := p;
      ghost var head: Bytes := [];
      ghost var before := Read();
      while rest != []
        invariant p == head + rest
        invariant head == [] || head[|head| - 1] == NEWLINE
        invariant Read() == Run(before, head)
        invariant head == [] ==> pending == before.pending
        invariant head != [] ==> pending == []
        decreases |rest|
      {
        var newline := IndexByte(rest, NEWLINE);
        if newline < 0 {
          WrittenTail(before, head, rest);
          if |pending| + |rest| <= MAX_PENDING_LINE {
            pending := pending + rest;
          }
          return |p|;
        }
        var line := rest[..newline];
        RunLine(before, head, line);
        assert |pending| == 0 ==> pending + line == line;
        Advance(head, rest, newline);
        head := head + line + [NEWLINE];
        if |pending| > 0 {
          line := pending + line;
          pending := [];
        }
        if |line| > 0 {
          emitted := emitted + [line];
        }
        rest := rest[newline + 1..];
      }
      assert head + [] == head == p;
      WrittenTail(before, head, []);
      assert pending + [] == pending;
      return |p|;
    }
  }

  // ---- Every way of cutting the stream ----

  function WriteAll(writes: seq<Bytes>): Lines {
    if writes == [] then NOTHING else Written(WriteAll(writes[..|writes| - 1]), writes[|writes| - 1])
  }

  /** No write ever leaves an unfinished line longer than the bound. */
  ghost predicate Fits(writes: seq<Bytes>) {
    forall k | 0 <= k <= |writes| :: |Run(NOTHING, Flat(writes[..k])).pending| <= MAX_PENDING_LINE
  }

  lemma {:induction false} FitsIsExact(writes: seq<Bytes>)
    requires Fits(writes)
    ensures WriteAll(writes) == Run(NOTHING, Flat(writes))
  {
    if writes != [] {
      var n := |writes| - 1;
      assert forall k | 0 <= k <= n :: writes[..n][..k] == writes[..k];
      FitsIsExact(writes[..n]);
      RunConcat(NOTHING, Flat(writes[..n]), writes[n]);
      assert writes[..n + 1] == writes;
    }
  }

  function Held(lines: Lines): nat {
    SumLengths(lines.done) + |lines.pending|
  }

  function SumLengths(lines: seq<Bytes>): nat {
    if lines == [] then 0 else SumLengths(lines[..|lines| - 1]) + |lines[|lines| - 1]|
  }

  function Plain(s: Bytes): nat {
    if s == [] then 0 else Plain(s[..|s| - 1]) + if s[|s| - 1] == NEWLINE then 0 else 1
  }

  /** Reading loses no byte but the newlines. */
  lemma {:induction false} RunHolds(lines: Lines, s: Bytes)
    ensures Held(Run(lines, s)) == Held(lines) + Plain(s)
  {
    if s != [] {
      var before := Run(lines, s[..|s| - 1]);
      RunHolds(lines, s[..|s| - 1]);
      assert (before.done + [before.pending])[..|before.done|] == before.done;
    }
  }

  lemma {:induction false} PlainConcat(a: Bytes, b: Bytes)
    ensures Plain(a + b) == Plain(a) + Plain(b)
    ensures NEWLINE !in b ==> Plain(b) == |b|
  {
    if b == [] {
      assert a + b == a;
    } else {
      assert (a + b)[..|a + b| - 1] == a + b[..|b| - 1];
      PlainConcat(a, b[..|b| - 1]);
    }
  }

  /** A write either keeps every byte or loses some of its own for good. */
  lemma WriteHolds(lines: Lines, p: Bytes)
    requires |lines.pending| <= MAX_PENDING_LINE
    ensures |Run(lines, p).pending| <= MAX_PENDING_LINE ==> Held(Written(lines, p)) == Held(lines) + Plain(p)
    ensures |Run(lines, p).pending| > MAX_PENDING_LINE ==> Held(Written(lines, p)) < Held(lines) + Plain(p)
  {
    var head := UpToNewline(p);
    var tail := p[|head|..];
    assert p == head + tail;
    RunHolds(lines, p);
    RunHolds(lines, head);
    PlainConcat(head, tail);
    if tail == [] { Pending(lines, head); }
  }

  /** A stream that ends in a newline leaves no unfinished line. */
  lemma Pending(lines: Lines, head: Bytes)
    requires UpToNewline(head) == head
    ensures |Run(lines, head).pending| <= |lines.pending|
  {
    assert head == [] || head[|head| - 1] == NEWLINE;
  }

  /** The bound on the partial line, on every run. */
  lemma {:induction false} PendingIsBounded(writes: seq<Bytes>)
    ensures |WriteAll(writes).pending| <= MAX_PENDING_LINE
  {
    if writes != [] {
      var lines, p := WriteAll(writes[..|writes| - 1]), writes[|writes| - 1];
      PendingIsBounded(writes[..|writes| - 1]);
      UpToNewlineIdempotent(p);
      Pending(lines, UpToNewline(p));
    }
  }

  lemma {:induction false} UpToNewlineIdempotent(p: Bytes)
    ensures UpToNewline(UpToNewline(p)) == UpToNewline(p)
  {
    if p != [] && p[|p| - 1] != NEWLINE { UpToNewlineIdempotent(p[..|p| - 1]); }
  }

  lemma {:induction false} NeverHoldsMore(writes: seq<Bytes>)
    ensures Held(WriteAll(writes)) <= Plain(Flat(writes))
    ensures !Fits(writes) ==> Held(WriteAll(writes)) < Plain(Flat(writes))
  {
    if writes == [] {
      assert forall k | 0 <= k <= |writes| :: writes[..k] == [];
    } else {
      var n := |writes| - 1;
      var before := writes[..n];
      NeverHoldsMore(before);
      PendingIsBounded(before);
      WriteHolds(WriteAll(before), writes[n]);
      PlainConcat(Flat(before), writes[n]);
      FitsNext(writes);
    }
  }

  /** The first write that does not fit is one the splitter, exact until then,
      has to cut. */
  lemma FitsNext(writes: seq<Bytes>)
    requires writes != []
    ensures var before, p := writes[..|writes| - 1], writes[|writes| - 1];
            Fits(before) && !Fits(writes) ==> |Run(WriteAll(before), p).pending| > MAX_PENDING_LINE
  {
    var n := |writes| - 1;
    var before := writes[..n];
    if Fits(before) && !Fits(writes) {
      FitsIsExact(before);
      RunConcat(NOTHING, Flat(before), writes[n]);
      assert forall k | 0 <= k <= n :: before[..k] == writes[..k];
      assert writes[..n + 1] == writes;
    }
  }

  /** The splitter gives the lines of the whole stream, however it is cut,
      exactly when no write leaves an unfinished line past the bound. */
  lemma SplitterIff(writes: seq<Bytes>)
    ensures WriteAll(writes) == Run(NOTHING, Flat(writes)) <==> Fits(writes)
  {
    if Fits(writes) {
      FitsIsExact(writes);
    } else {
      NeverHoldsMore(writes);
      RunHolds(NOTHING, Flat(writes));
    }
  }

  /** Once the stream ends in a newline, a byte lost is a line lost or cut. */
  lemma LinesIff(writes: seq<Bytes>)
    requires Flat(writes) != [] && Flat(writes)[|Flat(writes)| - 1] == NEWLINE
    requires writes[|writes| - 1] != []
    ensures WriteAll(writes).done == Run(NOTHING, Flat(writes)).done <==> Fits(writes)
  {
    var n := |writes| - 1;
    var p := writes[n];
    assert p[|p| - 1] == NEWLINE;
    assert UpToNewline(p) == p;
    SplitterIff(writes);
  }

  // ---- The capped buffer ----

  class CappedWriter {
    var buf: Bytes
    const limit: nat
    var dropped: bool

    constructor (limit: nat)
      ensures this.limit == limit && buf == [] && !dropped
    {
      this.limit := limit;
      buf := [];
      dropped := false;
    }

    method Write(p: Bytes) returns (written: nat)
      modifies this
      ensures written == |p|
      ensures Capped(buf, dropped) == Cap(limit, Capped(old(buf), old(dropped)), p)
    {
      var remaining := limit - |buf|;
      if remaining <= 0 {
        dropped := true;
      } else if |p| > remaining {
        buf := buf + p[..remaining];
        dropped := true;
      } else {
        buf := buf + p;
      }
      return |p|;
    }
  }

  datatype Capped = Capped(buf: Bytes, dropped: bool)

  /** A full buffer takes even an empty write for output thrown away. */
  function Cap(limit: nat, c: Capped, p: Bytes): Capped {
    Capped(
      if |c.buf| >= limit then c.buf else First(limit, c.buf + p),
      c.dropped || |c.buf| + |p| > limit || |c.buf| >= limit)
  }

  function First(n: nat, s: Bytes): Bytes {
    if |s| <= n then s else s[..n]
  }

  function CapAll(limit: nat, writes: seq<Bytes>): Capped {
    if writes == [] then Capped([], false)
    else Cap(limit, CapAll(limit, writes[..|writes| - 1]), writes[|writes| - 1])
  }

  /** Some write was empty and found the buffer exactly full. */
  predicate EmptyWhenFull(limit: nat, writes: seq<Bytes>) {
    exists k | 0 <= k < |writes| :: writes[k] == [] && |Flat(writes[..k])| == limit
  }

  /** However the stream is cut, its first bytes are kept. It is reported as
      cut short when it was, and also after an empty write to a full buffer. */
  lemma {:induction false} CappedKeepsFirst(limit: nat, writes: seq<Bytes>)
    ensures CapAll(limit, writes).buf == First(limit, Flat(writes))
    ensures CapAll(limit, writes).dropped <==> |Flat(writes)| > limit || EmptyWhenFull(limit, writes)
  {
    if writes != [] {
      var n := |writes| - 1;
      var before := writes[..n];
      CappedKeepsFirst(limit, before);
      assert forall k | 0 <= k < n :: before[k] == writes[k] && before[..k] == writes[..k];
      assert EmptyWhenFull(limit, writes) <==>
             EmptyWhenFull(limit, before) || (writes[n] == [] && |Flat(before)| == limit);
      if |Flat(before)| >= limit { assert Flat(writes)[..limit] == Flat(before)[..limit]; }
    }
  }

  lemma NonEmptyWrites(limit: nat, writes: seq<Bytes>)
    requires forall k | 0 <= k < |writes| :: writes[k] != []
    ensures CapAll(limit, writes).dropped <==> |Flat(writes)| > limit
  {
    CappedKeepsFirst(limit, writes);
  }

  /** Nothing was lost, and it is reported as lost. */
  lemma EmptyWriteMisreports(p: Bytes)
    ensures CapAll(|p|, [p, []]).dropped && CapAll(|p|, [p, []]).buf == Flat([p, []])
  {
    var writes: seq<Bytes> := [p, []];
    assert writes[..1] == [p] && [p][..0] == [];
    assert Flat([p]) == [] + p == p;
    assert Flat(writes) == p + [] == p;
    assert writes[1] == [] && |Flat(writes[..1])| == |p|;
    CappedKeepsFirst(|p|, writes);
  }
}
