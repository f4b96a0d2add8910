/** The scanner of the floating-pane edit mode (src/client_input.rs:16-118). */
module FloatEdit {
  import opened Wrappers
  import opened FixedWidth
  import opened ClientInput

  datatype Command = Commit | Cancel | EditStep(direction: Direction, cells: nat)

  /** Milliseconds after which a lone ESC is the Escape key. */
  const ESCAPE_DELAY: nat := 25

  predicate IsEnter(b: byte) { b == 0x0d || b == 0x0a }

  /** The eight recognized sequences: an arrow moves by one cell, with shift by five. */
  function FloatEditSequence(sequence: seq<byte>): Option<Command> {
    if |sequence| == 3 && sequence[..2] == [ESC, 0x5b] && ArrowDirection(sequence[2]).Some? then
      Some(EditStep(ArrowDirection(sequence[2]).value, 1))
    else if |sequence| == 6 && sequence[..5] == [ESC, 0x5b, 0x31, 0x3b, 0x32] && ArrowDirection(sequence[5]).Some? then
      Some(EditStep(ArrowDirection(sequence[5]).value, 5))
    else None
  }

  predicate FloatEditSequencePrefix(sequence: seq<byte>) {
    || sequence <= [ESC, 0x5b]
    || (|sequence| == 3 && FloatEditSequence(sequence).Some?)
    || sequence <= [ESC, 0x5b, 0x31, 0x3b, 0x32]
    || (|sequence| == 6 && FloatEditSequence(sequence).Some?)
  }

  /** The prefix test accepts exactly the beginnings of the recognized sequences. */
  lemma PrefixesAreExact(sequence: seq<byte>)
    ensures FloatEditSequencePrefix(sequence) <==>
            exists rest: seq<byte> :: FloatEditSequence(sequence + rest).Some?
  {
    if FloatEditSequencePrefix(sequence) {
      var whole := if |sequence| <= 2 then [ESC, 0x5b, 0x41] else if |sequence| == 3 && ArrowDirection(sequence[2]).Some?
                   then sequence else if |sequence| == 6 then sequence else [ESC, 0x5b, 0x31, 0x3b, 0x32, 0x41];
      assert sequence + whole[|sequence|..] == whole;
      assert whole[..5 * |whole| / 6] == if |whole| == 3 then [ESC, 0x5b] else [ESC, 0x5b, 0x31, 0x3b, 0x32];
      assert FloatEditSequence(sequence + whole[|sequence|..]).Some?;
    }
    forall rest: seq<byte> | FloatEditSequence(sequence + rest).Some? ensures FloatEditSequencePrefix(sequence) {
      var whole := sequence + rest;
      assert sequence == whole[..|sequence|];
      if |whole| == 3 {
        assert whole[..2] == [ESC, 0x5b];
        if |sequence| <= 2 { assert sequence == whole[..2][..|sequence|]; } else { assert sequence == whole; }
      } else {
        assert whole[..5] == [ESC, 0x5b, 0x31, 0x3b, 0x32];
        if |sequence| <= 5 { assert sequence == whole[..5][..|sequence|]; } else { assert sequence == whole; }
      }
    }
  }

  // ---- What a stream means: a cutting into segments ----

  /** A piece of the stream: bytes given back for ordinary input, or a command's whole key sequence. */
  datatype Segment = Passed(bytes: seq<byte>) | Recognized(bytes: seq<byte>, command: Command)

  predicate IsSegment(segment: Segment) {
    segment.Recognized? ==>
      || (|segment.bytes| == 1 && IsEnter(segment.bytes[0]) && segment.command == Commit)
      || FloatEditSequence(segment.bytes) == Some(segment.command)
  }

  function Covered(segments: seq<Segment>): seq<byte> {
    if segments == [] then [] else Covered(segments[..|segments| - 1]) + segments[|segments| - 1].bytes
  }

  function Forwarded(segments: seq<Segment>): seq<byte> {
    if segments == [] then []
    else
      var last := segments[|segments| - 1];
      Forwarded(segments[..|segments| - 1]) + if last.Passed? then last.bytes else []
  }

  function Commands(segments: seq<Segment>): seq<Command> {
    if segments == [] then []
    else
      var last := segments[|segments| - 1];
      Commands(segments[..|segments| - 1]) + if last.Recognized? then [last.command] else []
  }

  lemma SnocSegment(segments: seq<Segment>, last: Segment)
    ensures Covered(segments + [last]) == Covered(segments) + last.bytes
    ensures Forwarded(segments + [last]) == Forwarded(segments) + if last.Passed? then last.bytes else []
    ensures Commands(segments + [last]) == Commands(segments) + if last.Recognized? then [last.command] else []
  {
    assert (segments + [last])[..|segments|] == segments;
  }

  datatype Scanned = Scanned(segments: seq<Segment>, pending: seq<byte>, committed: bool)

  /** The segment that a byte completes, if any. */
  function Completed(pending: seq<byte>, committed: bool, b: byte): Option<Segment> {
    if committed then Some(Passed([b]))
    else if pending == [] then
      if IsEnter(b) then Some(Recognized([b], Commit)) else if b == ESC then None else Some(Passed([b]))
    else if FloatEditSequence(pending + [b]).Some? then
      Some(Recognized(pending + [b], FloatEditSequence(pending + [b]).value))
    else if FloatEditSequencePrefix(pending + [b]) then None
    else Some(Passed(pending + [b]))
  }

  function ScanStep(s: Scanned, b: byte): Scanned {
    var completed := Completed(s.pending, s.committed, b);
    if s.committed then s.(segments := s.segments + [Passed([b])])
    else if completed.None? then s.(pending := s.pending + [b])
    else Scanned(s.segments + [completed.value], [], s.pending == [] && IsEnter(b))
  }

  function Scan(s: Scanned, bytes: seq<byte>): Scanned {
    if bytes == [] then s
    else ScanStep(Scan(s, bytes[..|bytes| - 1]), bytes[|bytes| - 1])
  }

  /** Cutting a stream anywhere does not change what it means. */
  lemma {:induction false} ScanAppend(s: Scanned, x: seq<byte>, y: seq<byte>)
    ensures Scan(s, x + y) == Scan(Scan(s, x), y)
  {
    if y == [] {
      assert x + y == x;
    } else {
      var n := |y| - 1;
      ScanAppend(s, x, y[..n]);
      assert (x + y)[..|x| + n] == x + y[..n];
    }
  }

  /** A scan in progress holds back only the beginning of a recognized sequence, which starts with ESC. */
  predicate Holds(s: Scanned) {
    && (s.pending != [] ==> !s.committed && s.pending[0] == ESC && FloatEditSequencePrefix(s.pending))
    && FloatEditSequence(s.pending).None?
    && (forall i :: 0 <= i < |s.segments| ==> IsSegment(s.segments[i]))
  }

  /** Every byte is passed on in order, held back, or part of exactly one command's sequence. */
  lemma {:induction false} EveryByteIsAccounted(s: Scanned, bytes: seq<byte>)
    requires Holds(s)
    ensures Holds(Scan(s, bytes))
    ensures Covered(Scan(s, bytes).segments) + Scan(s, bytes).pending == Covered(s.segments) + s.pending + bytes
  {
    hide ScanStep, Holds, Covered;
    var start := Covered(s.segments) + s.pending;
    if bytes == [] {
      assert start + bytes == start;
    } else {
      var n := |bytes| - 1;
      EveryByteIsAccounted(s, bytes[..n]);
      StepIsAccounted(Scan(s, bytes[..n]), bytes[n]);
      assert start + bytes == start + bytes[..n] + [bytes[n]];
    }
  }

  lemma StepIsAccounted(s: Scanned, b: byte)
    requires Holds(s)
    ensures Holds(ScanStep(s, b))
    ensures Covered(ScanStep(s, b).segments) + ScanStep(s, b).pending == Covered(s.segments) + s.pending + [b]
  {
    hide FloatEditSequence, FloatEditSequencePrefix, Covered;
    NothingAndEscape();
    var completed := Completed(s.pending, s.committed, b);
    assert Covered(s.segments) + (s.pending + [b]) == Covered(s.segments) + s.pending + [b];
    assert [] + [b] == [b];
    if completed.Some? {
      SnocSegment(s.segments, completed.value);
    }
  }

  /** What one byte adds to the commands and to the forwarded bytes. */
  lemma StepEffect(s: Scanned, b: byte)
    requires !s.committed && !(s.pending == [] && IsEnter(b))
    ensures
      var after, completed := ScanStep(s, b), Completed(s.pending, false, b);
      && !after.committed && after.pending == (if completed.None? then s.pending + [b] else [])
      && Commands(after.segments)
         == Commands(s.segments) + (if completed.Some? && completed.value.Recognized? then [completed.value.command] else [])
      && Forwarded(after.segments)
         == Forwarded(s.segments) + (if completed.Some? && completed.value.Passed? then completed.value.bytes else [])
  {
    hide FloatEditSequence, FloatEditSequencePrefix, Commands, Forwarded, Covered;
    var completed := Completed(s.pending, false, b);
    if completed.Some? {
      SnocSegment(s.segments, completed.value);
    }
  }

  lemma NothingAndEscape()
    ensures FloatEditSequence([]).None? && FloatEditSequence([ESC]).None? && FloatEditSequencePrefix([ESC])
  {
  }

  lemma HoldsAlone(s: Scanned)
    requires Holds(s)
    ensures Holds(Scanned([], s.pending, false))
  {
  }

  // ---- The scanner ----

  class FloatEditScanner {
    var pending: seq<byte>
    var pendingSince: Option<nat>

    ghost predicate Valid()
      reads this
    {
      (pendingSince.Some? <==> pending != []) && Holds(Scanned([], pending, false))
    }

    constructor ()
      ensures Valid() && pending == []
    {
      pending, pendingSince := [], None;
      new;
      NothingAndEscape();
    }

    /** One byte other than Enter at the start of a sequence; `r` is the scan so far. */
    method ScanByte(b: byte, now: nat, commands: seq<Command>, forward: seq<byte>, ghost r: Scanned)
      returns (commands': seq<Command>, forward': seq<byte>)
      requires Valid() && Holds(r) && !r.committed && !(pending == [] && IsEnter(b))
      requires commands == Commands(r.segments) && forward == Forwarded(r.segments) && pending == r.pending
      modifies this
      ensures var after := ScanStep(r, b);
        Valid() && Holds(after) && !after.committed && pending == after.pending
        && commands' == Commands(after.segments) && forward' == Forwarded(after.segments)
      ensures Commit in commands' <==> Commit in commands
    {
      hide FloatEditSequence, FloatEditSequencePrefix, Commands, Forwarded, ScanStep, Holds, Covered;
      NothingAndEscape();
      StepIsAccounted(r, b);
      StepEffect(r, b);
      HoldsAlone(ScanStep(r, b));
      commands', forward' := commands, forward;
      if pending == [] {
        if b == ESC {
          pending := pending + [b];
          pendingSince := Some(now);
        } else {
          forward' := forward + [b];
        }
      } else {
        pending := pending + [b];
        var command := FloatEditSequence(pending);
        if command.Some? {
          OnlyMoves(pending);
          commands' := commands + [command.value];
          pending, pendingSince := [], None;
        } else if !FloatEditSequencePrefix(pending) {
          forward' := forward + pending;
          pending, pendingSince := [], None;
        }
      }
    }

    /** The commands, the forwarded bytes and the bytes still held are those of one cutting of the stream. */
    method ScanRead(bytes: seq<byte>, now: nat) returns (commands: seq<Command>, forward: seq<byte>)
      requires Valid()
      modifies this
      ensures
        var r := Scan(Scanned([], old(pending), false), bytes);
        commands == Commands(r.segments) && forward == Forwarded(r.segments) && pending == r.pending
        && (r.committed <==> Commit in commands)
      ensures Valid()
    {
      hide Completed, ScanStep, FloatEditSequence, FloatEditSequencePrefix, Commands, Forwarded, Holds;
      commands, forward := [], [];
      ghost var start := Scanned([], pending, false);
      ghost var r := start;
      var index := 0;
      EmptySegments();
      while index < |bytes|
        invariant 0 <= index <= |bytes|
        invariant Valid() && r == Scan(start, bytes[..index]) && !r.committed && Holds(r)
        invariant commands == Commands(r.segments) && forward == Forwarded(r.segments) && pending == r.pending
        invariant Commit !in commands
      {
        var b := bytes[index];
        assert bytes[..index + 1][..index] == bytes[..index];
        if pending == [] && IsEnter(b) {
          EnterCommits(r, b);
          commands := commands + [Commit];
          forward := forward + bytes[index + 1..];
          AfterCommit(ScanStep(r, b), bytes[index + 1..]);
          ScanAppend(start, bytes[..index + 1], bytes[index + 1..]);
          assert bytes[..index + 1] + bytes[index + 1..] == bytes;
          return;
        }
        commands, forward := ScanByte(b, now, commands, forward, r);
        r := ScanStep(r, b);
        index := index + 1;
      }
      assert bytes[..index] == bytes;
    }

    /** A lone ESC that has waited long enough is the Escape key; nothing else expires. */
    method Expire(now: nat) returns (command: Option<Command>)
      requires Valid()
      modifies this
      ensures Valid()
      ensures command == if old(pending) == [ESC] && now - old(pendingSince).value >= ESCAPE_DELAY then Some(Cancel) else None
      ensures pending == if command.Some? then [] else old(pending)
      ensures command.None? ==> pendingSince == old(pendingSince)
    {
      hide FloatEditSequence, FloatEditSequencePrefix;
      NothingAndEscape();
      if pendingSince.Some? && pending == [ESC] && now - pendingSince.value >= ESCAPE_DELAY {
        pending, pendingSince := [], None;
        return Some(Cancel);
      }
      return None;
    }

    /** Leaving the mode gives the bytes held back to ordinary input. */
    method Reset() returns (held: seq<byte>)
      requires Valid()
      modifies this
      ensures Valid() && held == old(pending) && pending == []
    {
      NothingAndEscape();
      held := pending;
      pending, pendingSince := [], None;
    }

    /** A stream in any number of reads, the later ones going straight to ordinary input after a Commit:
        the commands and forwarded bytes are those of the stream in one read. */
    method ScanReads(chunks: seq<seq<byte>>, times: seq<nat>) returns (commands: seq<Command>, forward: seq<byte>)
      requires Valid() && |times| == |chunks|
      modifies this
      ensures
        var r := Scan(Scanned([], old(pending), false), Concat(chunks));
        commands == Commands(r.segments) && forward == Forwarded(r.segments) && pending == r.pending
    {
      hide ScanStep, Holds, FloatEditSequence, FloatEditSequencePrefix, Commands, Forwarded;
      commands, forward := [], [];
      EmptySegments();
      ghost var start := Scanned([], pending, false);
      ghost var r := start;
      var committed := false;
      var i := 0;
      while i < |chunks|
        invariant 0 <= i <= |chunks|
        invariant Valid() && r == Scan(start, Concat(chunks[..i])) && committed == r.committed
        invariant commands == Commands(r.segments) && forward == Forwarded(r.segments) && pending == r.pending
      {
        assert chunks[..i + 1][..i] == chunks[..i];
        ScanAppend(start, Concat(chunks[..i]), chunks[i]);
        if committed {
          AfterCommit(r, chunks[i]);
          forward := forward + chunks[i];
        } else {
          ScanFrom(r, chunks[i]);
          ProjectionsAppend(r.segments, Scan(r.(segments := []), chunks[i]).segments);
          var more, passed := ScanRead(chunks[i], times[i]);
          commands, forward := commands + more, forward + passed;
          committed := Commit in more;
        }
        r := Scan(r, chunks[i]);
        i := i + 1;
      }
      assert chunks[..i] == chunks;
    }
  }

  lemma OnlyMoves(sequence: seq<byte>)
    ensures FloatEditSequence(sequence) != Some(Commit)
  {
  }

  lemma EnterCommits(s: Scanned, b: byte)
    requires !s.committed && s.pending == [] && IsEnter(b)
    ensures
      var r := ScanStep(s, b);
      r.committed && r.pending == [] && Commands(r.segments) == Commands(s.segments) + [Commit]
      && Forwarded(r.segments) == Forwarded(s.segments)
  {
    SnocSegment(s.segments, Recognized([b], Commit));
  }

  lemma {:induction false} AfterCommit(s: Scanned, rest: seq<byte>)
    requires s.committed
    ensures
      var r := Scan(s, rest);
      r.committed && r.pending == s.pending && Commands(r.segments) == Commands(s.segments)
      && Forwarded(r.segments) == Forwarded(s.segments) + rest
  {
    hide Commands, Forwarded;
    if rest != [] {
      var n := |rest| - 1;
      AfterCommit(s, rest[..n]);
      SnocSegment(Scan(s, rest[..n]).segments, Passed([rest[n]]));
      assert rest == rest[..n] + [rest[n]];
    }
  }

  /** The segments already cut do not influence the cutting of what follows. */
  lemma {:induction false} ScanFrom(s: Scanned, bytes: seq<byte>)
    ensures
      var r, alone := Scan(s, bytes), Scan(s.(segments := []), bytes);
      r == alone.(segments := s.segments + alone.segments)
  {
    if bytes == [] {
      assert s.segments + [] == s.segments;
    } else {
      var n := |bytes| - 1;
      ScanFrom(s, bytes[..n]);
      StepFrom(s.segments, Scan(s.(segments := []), bytes[..n]), bytes[n]);
    }
  }

  lemma StepFrom(earlier: seq<Segment>, s: Scanned, b: byte)
    ensures
      var alone := ScanStep(s, b);
      ScanStep(s.(segments := earlier + s.segments), b) == alone.(segments := earlier + alone.segments)
  {
    hide Completed;
    var completed := Completed(s.pending, s.committed, b);
    if s.committed {
      assert earlier + (s.segments + [Passed([b])]) == earlier + s.segments + [Passed([b])];
    } else if completed.Some? {
      assert earlier + (s.segments + [completed.value]) == earlier + s.segments + [completed.value];
    }
  }

  lemma {:induction false} ProjectionsAppend(x: seq<Segment>, y: seq<Segment>)
    ensures Commands(x + y) == Commands(x) + Commands(y)
    ensures Forwarded(x + y) == Forwarded(x) + Forwarded(y)
  {
    hide Commands, Forwarded;
    if y == [] {
      EmptySegments();
      assert x + y == x;
    } else {
      var n := |y| - 1;
      ProjectionsAppend(x, y[..n]);
      SnocSegment(y[..n], y[n]);
      SnocSegment(x + y[..n], y[n]);
      assert y == y[..n] + [y[n]];
      assert x + y == (x + y[..n]) + [y[n]];
    }
  }

  lemma EmptySegments()
    ensures Commands([]) == [] && Forwarded([]) == [] && Covered([]) == []
  {
  }
}
