/**
 The reader that strips the worker's control lines from a task stream.  What a caller
 receives is compared with a filter over the whole input, whatever buffers it reads with.
 */
module Sentinel {
  import opened Wire
  import opened Wrappers

  const LF: byte := 10
  const CR: byte := 13
  const SPACE: byte := 32
  const TAB: byte := 9

  /** "[AGENTFM:" */
  const PREFIX: seq<byte> := [91, 65, 71, 69, 78, 84, 70, 77, 58]

  /** The scanner's buffer holds a line and its newline, or it gives up. */
  const MAX_LINE: nat := 8 * 1024 * 1024

  // ------------------------------------------------------------ lines

  function TrimLeft(line: seq<byte>): seq<byte>
  {
    if |line| > 0 && (line[0] == SPACE || line[0] == TAB) then TrimLeft(line[1..]) else line
  }

  predicate IsSentinel(line: seq<byte>)
  {
    PREFIX <= TrimLeft(line)
  }

  function DropCr(line: seq<byte>): seq<byte>
  {
    if |line| > 0 && line[|line| - 1] == CR then line[..|line| - 1] else line
  }

  /** Where the first line of `data` ends. */
  function LineEnd(data: seq<byte>): (n: nat)
    ensures n <= |data| && (n < |data| ==> data[n] == LF)
    ensures forall i | 0 <= i < n :: data[i] != LF
  {
    if |data| == 0 || data[0] == LF then 0 else 1 + LineEnd(data[1..])
  }

  /** What lies behind the first line. */
  function AfterLine(data: seq<byte>): (rest: seq<byte>)
    requires |data| > 0
    ensures |rest| < |data|
  {
    if LineEnd(data) < |data| then data[LineEnd(data) + 1..] else []
  }

  /** The lines a scanner delivers; it stops before a line that does not fit its buffer. */
  function Lines(data: seq<byte>): seq<seq<byte>>
    decreases |data|
  {
    if |data| == 0 || LineEnd(data) >= MAX_LINE then []
    else [DropCr(data[..LineEnd(data)])] + Lines(AfterLine(data))
  }

  predicate HasLongLine(data: seq<byte>)
    decreases |data|
  {
    |data| > 0 && (LineEnd(data) >= MAX_LINE || HasLongLine(AfterLine(data)))
  }

  function Kept(lines: seq<seq<byte>>): seq<seq<byte>>
  {
    if |lines| == 0 then []
    else if IsSentinel(lines[0]) then Kept(lines[1..])
    else [lines[0]] + Kept(lines[1..])
  }

  function Joined(lines: seq<seq<byte>>): seq<byte>
  {
    if |lines| == 0 then [] else lines[0] + [LF] + Joined(lines[1..])
  }

  /** What becomes of one line. */
  function Delivered(line: seq<byte>): seq<byte>
  {
    if IsSentinel(line) then [] else line + [LF]
  }

  /** What is left of a stream without its sentinel lines. */
  function Output(data: seq<byte>): seq<byte>
  {
    Joined(Kept(Lines(data)))
  }

  // ------------------------------------------------------------ what the output is

  lemma OutputUnfold(data: seq<byte>)
    requires |data| > 0 && LineEnd(data) < MAX_LINE
    ensures Output(data) == Delivered(DropCr(data[..LineEnd(data)])) + Output(AfterLine(data))
  {
    KeptUnfold(DropCr(data[..LineEnd(data)]), Lines(AfterLine(data)));
  }

  /** What the scanner takes off the front, and what it leaves. */
  lemma {:induction false} ScanStep(data: seq<byte>, n: nat)
    requires |data| > 0 && n == LineEnd(data) < MAX_LINE
    ensures var after := if n < |data| then data[n + 1..] else [];
            && |after| < |data| && (HasLongLine(data) <==> HasLongLine(after))
            && Output(data) == Delivered(DropCr(data[..n])) + Output(after)
  {
    OutputUnfold(data);
    assert AfterLine(data) == if n < |data| then data[n + 1..] else [];
  }

  lemma KeptUnfold(line: seq<byte>, rest: seq<seq<byte>>)
    ensures Joined(Kept([line] + rest)) == Delivered(line) + Joined(Kept(rest))
  {
    assert ([line] + rest)[1..] == rest;
    JoinedUnfold(line, Kept(rest));
  }

  lemma JoinedUnfold(line: seq<byte>, rest: seq<seq<byte>>)
    ensures Joined([line] + rest) == line + [LF] + Joined(rest)
  {
    assert ([line] + rest)[1..] == rest;
  }

  /** A line that can be written and read back: no newline inside, and it fits the scanner. */
  predicate Plain(line: seq<byte>)
  {
    |line| < MAX_LINE && LF !in line
  }

  lemma {:induction false} LinesArePlain(data: seq<byte>)
    ensures forall l | l in Lines(data) :: Plain(l)
    decreases |data|
  {
    if |data| > 0 && LineEnd(data) < MAX_LINE {
      LinesArePlain(AfterLine(data));
    }
  }

  lemma {:induction false} KeptAreKept(lines: seq<seq<byte>>)
    ensures forall l :: l in Kept(lines) <==> l in lines && !IsSentinel(l)
  {
    if |lines| > 0 {
      KeptAreKept(lines[1..]);
      assert lines == [lines[0]] + lines[1..];
    }
  }

  function Dropped(lines: seq<seq<byte>>): (r: seq<seq<byte>>)
    ensures |r| == |lines|
  {
    if |lines| == 0 then [] else [DropCr(lines[0])] + Dropped(lines[1..])
  }

  lemma LineOfJoined(line: seq<byte>, rest: seq<byte>)
    requires Plain(line)
    ensures LineEnd(line + [LF] + rest) == |line| && AfterLine(line + [LF] + rest) == rest
    ensures (line + [LF] + rest)[..|line|] == line
  {
    var data := line + [LF] + rest;
    assert data[|line|] == LF;
    forall i | 0 <= i < |line| ensures data[i] != LF {
      assert data[i] == line[i] && line[i] in line;
    }
    assert LineEnd(data) == |line|;
  }

  /** Reading joined lines back gives those lines, each without a trailing carriage return. */
  lemma {:induction false} LinesOfJoined(lines: seq<seq<byte>>)
    requires forall l | l in lines :: Plain(l)
    ensures Lines(Joined(lines)) == Dropped(lines) && !HasLongLine(Joined(lines))
  {
    if |lines| > 0 {
      var rest := Joined(lines[1..]);
      LineOfJoined(lines[0], rest);
      LinesOfJoined(lines[1..]);
    }
  }

  lemma {:induction false} TrimMissesCr(line: seq<byte>)
    ensures DropCr(TrimLeft(line)) == TrimLeft(DropCr(line))
  {
    if |line| > 0 && (line[0] == SPACE || line[0] == TAB) {
      TrimMissesCr(line[1..]);
      assert DropCr(line)[1..] == DropCr(line[1..]);
    }
  }

  lemma SentinelMissesCr(line: seq<byte>)
    ensures IsSentinel(DropCr(line)) <==> IsSentinel(line)
  {
    TrimMissesCr(line);
    var t := TrimLeft(line);
    if PREFIX <= t && |t| == |PREFIX| {
      assert t == PREFIX;
    }
  }

  lemma {:induction false} DroppedAre(lines: seq<seq<byte>>)
    ensures forall i | 0 <= i < |lines| :: Dropped(lines)[i] == DropCr(lines[i])
  {
    if |lines| > 0 {
      DroppedAre(lines[1..]);
    }
  }

  /** A control line has "[AGENTFM:" behind nothing but spaces and tabs. */
  lemma {:induction false} SentinelIff(line: seq<byte>)
    ensures IsSentinel(line) <==> exists n :: BeginsAt(line, n)
  {
    if IsSentinel(line) {
      var n := |line| - |TrimLeft(line)|;
      TrimmedAt(line);
      assert BeginsAt(line, n);
    }
    if n :| BeginsAt(line, n) {
      BlanksAreTrimmed(line, n);
    }
  }

  ghost predicate BeginsAt(line: seq<byte>, n: nat)
  {
    && n + 9 <= |line| && (forall i | 0 <= i < n :: line[i] as int in {32, 9})
    && line[n] as char == '[' && line[n + 1] as char == 'A' && line[n + 2] as char == 'G' && line[n + 3] as char == 'E'
    && line[n + 4] as char == 'N' && line[n + 5] as char == 'T' && line[n + 6] as char == 'F'
    && line[n + 7] as char == 'M' && line[n + 8] as char == ':'
  }

  lemma {:induction false} TrimmedAt(line: seq<byte>)
    ensures |TrimLeft(line)| <= |line| && TrimLeft(line) == line[|line| - |TrimLeft(line)|..]
    ensures forall i | 0 <= i < |line| - |TrimLeft(line)| :: line[i] as int in {32, 9}
  {
    if |line| > 0 && (line[0] == SPACE || line[0] == TAB) {
      TrimmedAt(line[1..]);
    }
  }

  lemma {:induction false} BlanksAreTrimmed(line: seq<byte>, n: nat)
    requires n < |line| && (forall i | 0 <= i < n :: line[i] as int in {32, 9}) && line[n] as char == '['
    ensures TrimLeft(line) == line[n..]
  {
    if n > 0 {
      assert line[0] as int in {32, 9};
      BlanksAreTrimmed(line[1..], n - 1);
      assert line[1..][n - 1..] == line[n..];
    }
  }

  /** Whoever reads the output line by line sees the kept lines and no sentinel. */
  lemma NoSentinelGetsThrough(data: seq<byte>)
    ensures Lines(Output(data)) == Dropped(Kept(Lines(data)))
    ensures forall l | l in Lines(Output(data)) :: !IsSentinel(l)
  {
    var kept := Kept(Lines(data));
    LinesArePlain(data);
    KeptAreKept(Lines(data));
    LinesOfJoined(kept);
    DroppedAre(kept);
    forall i | 0 <= i < |kept| ensures !IsSentinel(Dropped(kept)[i]) {
      assert kept[i] in kept;
      SentinelMissesCr(kept[i]);
    }
  }

  /** Complete short lines, none ending in a carriage return and none a sentinel. */
  ghost predicate Clean(data: seq<byte>)
    decreases |data|
  {
    |data| == 0 ||
    (var n := LineEnd(data);
     n < |data| && n < MAX_LINE && (n > 0 ==> data[n - 1] as int != 13) && !IsSentinel(data[..n]) && Clean(AfterLine(data)))
  }

  lemma {:induction false} OutputIsNoLonger(data: seq<byte>)
    ensures |Output(data)| <= |data| + 1
    decreases |data|
  {
    if |data| > 0 && LineEnd(data) < MAX_LINE {
      OutputUnfold(data);
      if LineEnd(data) < |data| {
        OutputIsNoLonger(AfterLine(data));
      }
    }
  }

  lemma {:induction false} SentinelIsLong(line: seq<byte>)
    requires IsSentinel(line)
    ensures |line| >= |PREFIX|
  {
    if |line| > 0 && (line[0] == SPACE || line[0] == TAB) {
      SentinelIsLong(line[1..]);
    }
  }

  /** The filter leaves a stream untouched exactly when it is clean. */
  lemma {:induction false} UntouchedIff(data: seq<byte>)
    ensures Output(data) == data <==> Clean(data)
    decreases |data|
  {
    if |data| > 0 && LineEnd(data) < MAX_LINE {
      OutputUnfold(data);
      OutputIsNoLonger(AfterLine(data));
      UntouchedStep(data, Output(AfterLine(data)));
      UntouchedIff(AfterLine(data));
    }
  }

  lemma UntouchedStep(data: seq<byte>, tail: seq<byte>)
    requires |data| > 0 && |tail| <= |AfterLine(data)| + 1
    ensures var n := LineEnd(data);
            (Delivered(DropCr(data[..n])) + tail == data
             <==> n < |data| && (n > 0 ==> data[n - 1] != CR) && !IsSentinel(data[..n]) && tail == AfterLine(data))
  {
    var n := LineEnd(data);
    var line := DropCr(data[..n]);
    SentinelMissesCr(data[..n]);
    if IsSentinel(line) {
      SentinelIsMissed(data, n, tail);
    } else if n < |data| && line == data[..n] {
      assert data == line + [LF] + AfterLine(data);
      SameTails(line + [LF], tail, AfterLine(data));
    } else {
      TailDiffers(data, line, tail);
    }
  }

  lemma SentinelIsMissed(data: seq<byte>, n: nat, tail: seq<byte>)
    requires n <= |data| && |tail| <= |data| - n + 1 && IsSentinel(DropCr(data[..n]))
    ensures tail != data
  {
    SentinelIsLong(DropCr(data[..n]));
  }

  lemma SameTails(a: seq<byte>, b: seq<byte>, c: seq<byte>)
    ensures a + b == a + c <==> b == c
  {
    if a + b == a + c {
      assert b == (a + b)[|a|..] && c == (a + c)[|a|..];
    }
  }

  /** A line that lost its carriage return or gained a newline no longer matches. */
  lemma TailDiffers(data: seq<byte>, line: seq<byte>, rest: seq<byte>)
    requires |line| < |data| ==> data[|line|] != LF
    ensures line + [LF] + rest != data
  {
    assert (line + [LF] + rest)[|line|] == LF;
  }

  // ------------------------------------------------------------ the reader

  datatype End = Eof | SourceError | LineTooLong

  /** How a stream ends for the reader; a source that fails still has its last line delivered. */
  function EndOf(data: seq<byte>, sourceFails: bool): End
  {
    if HasLongLine(data) then LineTooLong else if sourceFails then SourceError else Eof
  }

  /** From the start of a line on, 8 MiB without a newline. */
  ghost predicate IsLongFrom(data: seq<byte>, start: nat)
  {
    && start + 8 * 1024 * 1024 <= |data| && (start > 0 ==> data[start - 1] as int == 10)
    && forall i | start <= i < start + 8 * 1024 * 1024 :: data[i] as int != 10
  }

  lemma {:induction false} LongFirstLine(data: seq<byte>)
    ensures IsLongFrom(data, 0) <==> LineEnd(data) >= MAX_LINE
  {
  }

  lemma {:induction false} LongLater(data: seq<byte>, start: nat)
    requires LineEnd(data) < |data| && start > LineEnd(data)
    ensures IsLongFrom(data, start) <==> IsLongFrom(data[LineEnd(data) + 1..], start - LineEnd(data) - 1)
  {
    var n := LineEnd(data) + 1;
    assert forall i | n <= i < |data| :: data[i] == data[n..][i - n];
  }

  lemma {:induction false} NoneInside(data: seq<byte>, start: nat)
    requires 0 < start <= LineEnd(data)
    ensures !IsLongFrom(data, start)
  {
  }

  lemma {:induction false} LongLineIff(data: seq<byte>)
    ensures HasLongLine(data) <==> exists start: nat :: IsLongFrom(data, start)
    decreases |data|
  {
    LongFirstLine(data);
    if |data| > 0 && LineEnd(data) < MAX_LINE {
      LongLineIff(AfterLine(data));
      LongIsBehindIff(data);
    }
  }

  lemma {:induction false} LongIsBehindIff(data: seq<byte>)
    requires |data| > 0 && LineEnd(data) < MAX_LINE
    ensures (exists start: nat :: IsLongFrom(data, start)) <==> exists start: nat :: IsLongFrom(AfterLine(data), start)
  {
    var n := LineEnd(data);
    if start: nat :| IsLongFrom(data, start) {
      LongIsBehind(data, start);
      assert IsLongFrom(AfterLine(data), start - n - 1);
    }
    if start: nat :| IsLongFrom(AfterLine(data), start) {
      LongLater(data, start + n + 1);
      assert IsLongFrom(data, start + n + 1);
    }
  }

  lemma {:induction false} LongIsBehind(data: seq<byte>, start: nat)
    requires |data| > 0 && LineEnd(data) < MAX_LINE && IsLongFrom(data, start)
    ensures LineEnd(data) < start && LineEnd(data) < |data| && IsLongFrom(AfterLine(data), start - LineEnd(data) - 1)
  {
    if start == 0 {
      LongFirstLine(data);
      assert false;
    }
    if start <= LineEnd(data) {
      NoneInside(data, start);
      assert false;
    }
    LongLater(data, start);
  }

  /** A stream ends with an error if a line does not fit the scanner, or if the source failed. */
  lemma {:induction false} EndIs(data: seq<byte>, sourceFails: bool)
    ensures EndOf(data, sourceFails) == LineTooLong <==> exists start: nat :: IsLongFrom(data, start)
    ensures EndOf(data, sourceFails) == SourceError <==> sourceFails && forall start: nat :: !IsLongFrom(data, start)
    ensures EndOf(data, sourceFails) == Eof <==> !sourceFails && forall start: nat :: !IsLongFrom(data, start)
  {
    LongLineIff(data);
  }

  method FindLineEnd(data: seq<byte>) returns (n: nat)
    ensures n == LineEnd(data)
  {
    n := 0;
    while n < |data| && data[n] != LF
      invariant 0 <= n <= |data| && forall i | 0 <= i < n :: data[i] != LF
    {
      n := n + 1;
    }
  }

  class SentinelFilter {
    const sourceFails: bool
    /** What the scanner has not delivered yet. */
    var rest: seq<byte>
    var tooLong: bool
    var pending: seq<byte>
    var err: Option<End>

    ghost predicate Valid()
      reads this
    {
      && (tooLong ==> HasLongLine(rest) && Output(rest) == [])
      && (err.Some? ==> pending == [] && Output(rest) == [] && err.value == EndOf(rest, sourceFails))
    }

    /** Everything the caller has still to receive. */
    ghost function Remaining(): seq<byte>
      reads this
    {
      pending + Output(rest)
    }

    ghost function Ending(): End
      reads this
    {
      EndOf(rest, sourceFails)
    }

    constructor (data: seq<byte>, sourceFails: bool)
      ensures Valid() && err == None
      ensures Remaining() == Output(data) && Ending() == EndOf(data, sourceFails)
    {
      this.sourceFails := sourceFails;
      rest, tooLong, pending, err := data, false, [], None;
    }

    /** One step of the line scanner. */
    method Scan() returns (line: Option<seq<byte>>)
      requires Valid()
      modifies this`rest, this`tooLong
      ensures Valid() && Ending() == old(Ending())
      ensures line.None? ==> Output(old(rest)) == [] && rest == old(rest) && (tooLong <==> HasLongLine(rest))
      ensures line.Some? ==> |rest| < |old(rest)| && !tooLong
      ensures line.Some? ==> Output(old(rest)) == Delivered(line.value) + Output(rest)
    {
      if tooLong || |rest| == 0 {
        return None;
      }
      var n := FindLineEnd(rest);
      if n >= MAX_LINE {
        tooLong := true;
        return None;
      }
      ScanStep(rest, n);
      line := Some(DropCr(rest[..n]));
      rest := if n < |rest| then rest[n + 1..] else [];
    }

    /** Scans on to the next line to deliver, or to the end. */
    method Refill()
      requires Valid() && pending == [] && err == None
      modifies this
      ensures Valid() && Ending() == old(Ending()) && Remaining() == old(Remaining())
      ensures pending == [] ==> Output(rest) == [] && err == Some(Ending())
      ensures pending != [] ==> err == None
    {
      while true
        invariant Valid() && Ending() == old(Ending()) && pending == [] && err == None
        invariant Output(rest) == old(Remaining())
        decreases |rest|
      {
        var line := Scan();
        if line.None? {
          err := Some(if tooLong then LineTooLong else if sourceFails then SourceError else Eof);
          return;
        }
        if !IsSentinel(line.value) {
          pending := line.value + [LF];
          return;
        }
      }
    }

    /** Fills `p` with what comes next; never delivers a byte and an end together. */
    method Read(p: array<byte>) returns (n: nat, end: Option<End>)
      requires Valid()
      modifies this, p
      ensures Valid() && Ending() == old(Ending())
      ensures n <= p.Length && old(Remaining()) == p[..n] + Remaining()
      ensures p[n..] == old(p[n..])
      ensures end.Some? <==> old(Remaining()) == []
      ensures end.Some? ==> end.value == Ending()
      ensures p.Length > 0 && end.None? ==> n > 0
    {
      if |pending| == 0 && err.None? {
        Refill();
      }
      if |pending| == 0 {
        return 0, err;
      }
      n := Deliver(p);
      end := None;
    }

    method Deliver(p: array<byte>) returns (n: nat)
      requires Valid() && |pending| > 0
      modifies this`pending, p
      ensures Valid()
      ensures n <= p.Length && old(Remaining()) == p[..n] + Remaining() && p[n..] == old(p[n..])
      ensures p.Length > 0 ==> n > 0
    {
      n := Copy(p, pending);
      SplitJoins(pending, n, Output(rest));
      pending := pending[n..];
    }
  }

  lemma SplitJoins(a: seq<byte>, n: nat, b: seq<byte>)
    requires n <= |a|
    ensures a + b == a[..n] + (a[n..] + b)
  {
  }

  /** Copies as much of `src` as fits. */
  method Copy(dst: array<byte>, src: seq<byte>) returns (n: nat)
    modifies dst
    ensures n == (if dst.Length < |src| then dst.Length else |src|)
    ensures dst[..n] == src[..n] && dst[n..] == old(dst[n..])
  {
    n := if dst.Length < |src| then dst.Length else |src|;
    var i := 0;
    while i < n
      invariant 0 <= i <= n
      invariant dst[..i] == src[..i]
      invariant dst[n..] == old(dst[n..])
    {
      dst[i] := src[i];
      i := i + 1;
    }
  }

  /** Whatever buffer sizes a caller reads with, it receives the filtered stream and then its end. */
  method ReadAll(data: seq<byte>, sourceFails: bool, size: nat -> nat) returns (out: seq<byte>, end: End)
    requires forall k: nat :: size(k) > 0
    ensures out == Output(data) && end == EndOf(data, sourceFails)
  {
    var f := new SentinelFilter(data, sourceFails);
    out := [];
    var k := 0;
    while true
      invariant f.Valid() && fresh(f)
      invariant out + f.Remaining() == Output(data) && f.Ending() == EndOf(data, sourceFails)
      decreases |f.Remaining()|
    {
      var p := new byte[size(k)];
      ghost var before := f.Remaining();
      var n, e := f.Read(p);
      if e.Some? {
        assert out + [] == out;
        return out, e.value;
      }
      assert out + before == (out + p[..n]) + f.Remaining();
      out := out + p[..n];
      k := k + 1;
    }
  }
}
