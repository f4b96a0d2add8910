/** What a user's keys do, from the bytes the terminal sends to the events they cause (src/client_input.rs:156-335). */
module KeyChords {
  import opened Wrappers
  import opened FixedWidth
  import opened ClientInput
  import FloatEdit

  function Ascii(c: char): byte
    requires c as int < 128
  {
    c as int as byte
  }

  /** The keys that act at once after the prefix, as the manual lists them. */
  const KEYS: seq<(char, Event)> := [
    ('%', Acted(SplitPane(Vertical))), ('"', Acted(SplitPane(Horizontal))),
    ('c', Acted(NewTab)), ('n', Acted(NextTab)), ('p', Acted(PreviousTab)),
    ('z', Acted(ToggleZoom)), ('f', Acted(NewFloatingPane)), ('F', Acted(ToggleFloatingPanes)), ('P', Acted(TogglePanePinned)),
    ('m', Acted(EnterFloatingMoveMode)), ('r', Acted(EnterFloatingResizeMode)), ('d', Detached),
    ('[', Acted(EnterCopyMode)), (']', Acted(Paste)),
    ('0', Acted(SelectTab(0))), ('1', Acted(SelectTab(1))), ('2', Acted(SelectTab(2))), ('3', Acted(SelectTab(3))),
    ('4', Acted(SelectTab(4))), ('5', Acted(SelectTab(5))), ('6', Acted(SelectTab(6))), ('7', Acted(SelectTab(7))),
    ('8', Acted(SelectTab(8))), ('9', Acted(SelectTab(9)))]

  const ARROWS: seq<(char, Direction)> := [('A', Up), ('B', Down), ('C', Right), ('D', Left)]

  predicate IsListed(b: byte) {
    exists i :: 0 <= i < |KEYS| && b == Ascii(KEYS[i].0)
  }

  /** A key without a meaning of its own: neither configured nor the prefix itself. */
  predicate IsFree(config: Config, b: byte) {
    b !in config.bindings && b != config.prefixByte
  }

  const ARMED := START.(prefix := true)

  /** The prefix byte arms the parser, whatever it is but ESC, and has no effect of its own. */
  lemma Prefixed(config: Config, bytes: seq<byte>)
    requires config.prefixByte != ESC
    ensures
      Steps(config, START, [config.prefixByte] + bytes) == Steps(config, ARMED, bytes)
  {
    hide Step;
    StepsAppend(config, START, [config.prefixByte], bytes);
    OneStep(config, START, config.prefixByte);
    assert Step(config, START, config.prefixByte) == Stepped(ARMED, []) by { ArmingStep(config); }
    var rest := Steps(config, ARMED, bytes);
    assert [] + rest.events == rest.events;
  }

  lemma ArmingStep(config: Config)
    requires config.prefixByte != ESC
    ensures Step(config, START, config.prefixByte) == Stepped(ARMED, [])
  {
  }

  lemma OneStep(config: Config, s: State, b: byte)
    ensures Steps(config, s, [b]) == Step(config, s, b)
  {
    hide Step;
    assert [b][..0] == [];
    assert Steps(config, s, []) == Stepped(s, []);
    assert [] + Step(config, s, b).events == Step(config, s, b).events;
  }

  /** After the prefix: a configured key does what it is configured to, whichever key it is; the prefix key itself is passed
      on once; a listed key acts; any other but `x` and ESC does nothing. The parser is then where it started. */
  lemma KeyActs(config: Config, b: byte)
    requires config.prefixByte != ESC
    ensures
      var r := Steps(config, START, [config.prefixByte] + [b]);
      && (b in config.bindings ==> r == Stepped(START, [Acted(config.bindings[b])]))
      && (b == config.prefixByte && b !in config.bindings ==> r == Stepped(START, [Byte(b)]))
      && (forall i :: 0 <= i < |KEYS| && b == Ascii(KEYS[i].0) && IsFree(config, b) ==> r == Stepped(START, [KEYS[i].1]))
      && (IsFree(config, b) && !IsListed(b) && b != Ascii('x') && b != ESC ==> r == Stepped(START, []))
  {
    hide Steps, Builtin;
    Prefixed(config, [b]);
    OneStep(config, ARMED, b);
    BuiltinsAreListed(b);
  }

  lemma BuiltinsAreListed(b: byte)
    ensures forall i :: 0 <= i < |KEYS| && b == Ascii(KEYS[i].0) ==> Builtin(b) == Some(KEYS[i].1)
    ensures !IsListed(b) ==> Builtin(b).None?
  {
    if Builtin(b).Some? {
      var i := if IsDigit(b) then 14 + (b as nat - 0x30) else if b == 0x25 then 0 else if b == 0x22 then 1
               else if b == 0x63 then 2 else if b == 0x6e then 3 else if b == 0x70 then 4 else if b == 0x7a then 5
               else if b == 0x66 then 6 else if b == 0x46 then 7 else if b == 0x50 then 8 else if b == 0x6d then 9
               else if b == 0x72 then 10 else if b == 0x64 then 11 else if b == 0x5b then 12 else 13;
      assert b == Ascii(KEYS[i].0);
    }
  }

  /** Closing a pane asks back: it happens on `y` or `Y`, any other key is taken as a no and goes nowhere. */
  lemma CloseIsConfirmed(config: Config, answer: byte)
    requires config.prefixByte != ESC && IsFree(config, Ascii('x'))
    ensures
      Steps(config, START, [config.prefixByte] + ([Ascii('x')] + [answer]))
      == Stepped(START, if answer == Ascii('y') || answer == Ascii('Y') then [Acted(ClosePane)] else [])
  {
    hide Steps;
    Prefixed(config, [Ascii('x')] + [answer]);
    StepsAppend(config, ARMED, [Ascii('x')], [answer]);
    OneStep(config, ARMED, Ascii('x'));
    OneStep(config, START.(confirmClose := true), answer);
  }

  // ---- Arrow keys ----

  /** The parser while it collects a key sequence after the prefix. */
  function Collecting(sequence: seq<byte>): State {
    State(true, sequence, [], false)
  }

  lemma EscapeCollects(config: Config)
    requires config.prefixByte != ESC && IsFree(config, ESC)
    ensures Step(config, ARMED, ESC) == Stepped(Collecting([ESC]), [])
  {
    assert [] + [ESC] == [ESC];
  }

  lemma {:induction false} Collects(config: Config, bytes: seq<byte>)
    requires config.prefixByte != ESC && IsFree(config, ESC) && 1 <= |bytes| <= 6 && bytes[0] == ESC
    requires forall n :: 0 < n <= |bytes| ==> PrefixSequence(bytes[..n]).None?
    ensures Steps(config, ARMED, bytes) == Stepped(Collecting(bytes), [])
  {
    hide PrefixSequence, Steps, Step, Collecting;
    var n := |bytes| - 1;
    if n == 0 {
      OneStep(config, ARMED, ESC);
      EscapeCollects(config);
      assert bytes == [ESC];
    } else {
      assert forall k :: 0 < k <= n ==> bytes[..n][..k] == bytes[..k];
      Collects(config, bytes[..n]);
      StepsAppend(config, ARMED, bytes[..n], [bytes[n]]);
      OneStep(config, Collecting(bytes[..n]), bytes[n]);
      assert bytes[..n] + [bytes[n]] == bytes && bytes[..|bytes|] == bytes;
      Collected(config, bytes[..n], bytes[n]);
    }
  }

  lemma Collected(config: Config, bytes: seq<byte>, b: byte)
    requires bytes != []
    ensures
      Step(config, Collecting(bytes), b)
      == if PrefixSequence(bytes + [b]).Some? then Stepped(START, [Acted(PrefixSequence(bytes + [b]).value)])
         else if |bytes| >= 6 then Stepped(START, [])
         else Stepped(Collecting(bytes + [b]), [])
  {
  }

  lemma LastOfSequence(config: Config, bytes: seq<byte>, b: byte)
    requires config.prefixByte != ESC && IsFree(config, ESC) && 1 <= |bytes| <= 6 && bytes[0] == ESC
    requires forall n :: 0 < n <= |bytes| ==> PrefixSequence(bytes[..n]).None?
    requires PrefixSequence(bytes + [b]).Some? || |bytes| == 6
    ensures
      Steps(config, START, [config.prefixByte] + (bytes + [b]))
      == Stepped(START, if PrefixSequence(bytes + [b]).Some? then [Acted(PrefixSequence(bytes + [b]).value)] else [])
  {
    hide PrefixSequence, Steps, Step;
    Collects(config, bytes);
    Prefixed(config, bytes + [b]);
    StepsAppend(config, ARMED, bytes, [b]);
    OneStep(config, Collecting(bytes), b);
    Collected(config, bytes, b);
  }

  /** An arrow key after the prefix moves the focus in its direction, and with the control modifier resizes. */
  lemma ArrowsAct(config: Config, i: nat)
    requires config.prefixByte != ESC && IsFree(config, ESC) && i < |ARROWS|
    ensures
      Steps(config, START, [config.prefixByte] + ([ESC, 0x5b] + [Ascii(ARROWS[i].0)]))
      == Stepped(START, [Acted(Focus(ARROWS[i].1))])
    ensures
      Steps(config, START, [config.prefixByte] + ([ESC, 0x5b, 0x31, 0x3b, 0x35] + [Ascii(ARROWS[i].0)]))
      == Stepped(START, [Acted(Resize(ARROWS[i].1))])
  {
    hide Steps;
    var short, long, last := [ESC, 0x5b], [ESC, 0x5b, 0x31, 0x3b, 0x35], Ascii(ARROWS[i].0);
    assert (short + [last])[..2] == short && (long + [last])[..5] == long;
    assert long[..3][2] == 0x31;
    LastOfSequence(config, short, last);
    LastOfSequence(config, long, last);
  }

  /** Any other sequence is swallowed, at most seven bytes of it. */
  lemma StrangeSequencesDoNothing(config: Config, bytes: seq<byte>)
    requires config.prefixByte != ESC && IsFree(config, ESC) && |bytes| == 7 && bytes[0] == ESC
    requires forall n :: 0 < n <= 7 ==> PrefixSequence(bytes[..n]).None?
    ensures Steps(config, START, [config.prefixByte] + bytes) == Stepped(START, [])
  {
    hide PrefixSequence, Steps;
    assert forall n :: 0 < n <= 6 ==> bytes[..6][..n] == bytes[..n];
    assert bytes[..6] + [bytes[6]] == bytes && bytes[..7] == bytes;
    LastOfSequence(config, bytes[..6], bytes[6]);
  }

  // ---- Outside chords ----

  /** Without a prefix, a stream that contains no mouse report reaches the pane byte for byte, but for what might still become
      a report. */
  lemma {:induction false} NothingIsSwallowed(config: Config, bytes: seq<byte>)
    requires config.prefixByte !in bytes
    requires forall e :: e in Steps(config, START, bytes).events ==> !e.Moused?
    ensures
      var r := Steps(config, START, bytes);
      r.state == START.(mouse := r.state.mouse) && r.events + Bytes(r.state.mouse) == Bytes(bytes)
  {
    hide ParseSgrMouse, Bytes, Step;
    if bytes == [] {
      BytesOfNothing();
    } else {
      var n := |bytes| - 1;
      var init, b := Steps(config, START, bytes[..n]), bytes[n];
      var last := Step(config, init.state, b);
      assert Steps(config, START, bytes) == Stepped(last.state, init.events + last.events);
      assert forall e :: e in init.events || e in last.events ==> e in init.events + last.events;
      NothingIsSwallowed(config, bytes[..n]);
      assert bytes == bytes[..n] + [b];
      BytesAppend(bytes[..n], [b]);
      ByteIsKept(config, init.state, b);
      Regroup(init.events, last.events, Bytes(last.state.mouse), Bytes(init.state.mouse), Bytes([b]));
    }
  }

  lemma Regroup(a: seq<Event>, b: seq<Event>, c: seq<Event>, d: seq<Event>, e: seq<Event>)
    requires b + c == d + e
    ensures a + b + c == a + d + e
  {
    assert a + b + c == a + (b + c) && a + d + e == a + (d + e);
  }

  lemma Alone(x: seq<Event>)
    ensures [] + x == x && x + [] == x
  {
  }

  lemma ByteIsKept(config: Config, s: State, b: byte)
    requires s == START.(mouse := s.mouse) && b != config.prefixByte
    requires forall e :: e in Step(config, s, b).events ==> !e.Moused?
    ensures
      var last := Step(config, s, b);
      last.state == START.(mouse := last.state.mouse) && last.events + Bytes(last.state.mouse) == Bytes(s.mouse) + Bytes([b])
  {
    hide ParseSgrMouse, Bytes;
    BytesAppend(s.mouse, [b]);
    BytesOfNothing();
    OneByte(b);
    Alone(Bytes(s.mouse + [b]));
    Alone([Byte(b)]);
    var last := Step(config, s, b);
    if s.mouse != [] {
      assert last == MouseStep(s, b);
      if last.events != [] && ParseSgrMouse(s.mouse + [b]).Some? && last.state.mouse == [] {
        assert last.events[0] in last.events;
      }
    } else {
      assert s.mouse + [b] == [b];
    }
  }

  // ---- Mouse reports ----

  /** A report in progress: the parser holds all of it. */
  lemma {:induction false} HoldsReport(config: Config, bytes: seq<byte>)
    requires 1 <= |bytes| < 64 && [ESC, 0x5b, 0x3c][..if |bytes| < 3 then |bytes| else 3] <= bytes
    requires forall i :: 3 <= i < |bytes| ==> bytes[i] != 0x4d && bytes[i] != 0x6d
    ensures Steps(config, START, bytes) == Stepped(START.(mouse := bytes), [])
  {
    hide Steps, Step;
    var n := |bytes| - 1;
    if n == 0 {
      OneStep(config, START, bytes[0]);
      assert bytes == [ESC];
      EscapeHolds(config);
    } else {
      HoldsReport(config, bytes[..n]);
      StepsAppend(config, START, bytes[..n], [bytes[n]]);
      OneStep(config, START.(mouse := bytes[..n]), bytes[n]);
      assert bytes[..n] + [bytes[n]] == bytes;
      HoldsMore(config, bytes[..n], bytes[n]);
    }
  }

  lemma EscapeHolds(config: Config)
    ensures Step(config, START, ESC) == Stepped(START.(mouse := [ESC]), [])
  {
  }

  lemma HoldsMore(config: Config, bytes: seq<byte>, b: byte)
    requires 1 <= |bytes| < 63
    requires |bytes| < 3 ==> bytes + [b] == [ESC, 0x5b, 0x3c][..|bytes| + 1]
    requires |bytes| >= 3 ==> b != 0x4d && b != 0x6d
    ensures Step(config, START.(mouse := bytes), b) == Stepped(START.(mouse := bytes + [b]), [])
  {
    hide ParseSgrMouse;
    assert [ESC, 0x5b, 0x3c][..2] == [ESC, 0x5b] && [ESC, 0x5b, 0x3c][..3] == [ESC, 0x5b, 0x3c];
    assert (bytes + [b])[|bytes|] == b;
  }

  lemma {:induction false} DigitsAreFew(n: nat)
    ensures n < 10 ==> |Digits(n)| == 1
    ensures n < 100 ==> |Digits(n)| <= 2
    ensures n < 1000 ==> |Digits(n)| <= 3
    ensures n < 10000 ==> |Digits(n)| <= 4
    ensures n < 100000 ==> |Digits(n)| <= 5
  {
    if n >= 10 {
      DigitsAreFew(n / 10);
    }
  }

  /** A report of a mouse event arrives as that event, wherever the prefix byte is mapped. */
  lemma ReportsArrive(config: Config, raw: nat, column: nat, row: nat, release: bool)
    requires raw <= U16_MAX && 0 < column <= U16_MAX && 0 < row <= U16_MAX
    ensures ParseSgrMouse(MouseReport(raw, column, row, release)).Some?
    ensures
      Steps(config, START, MouseReport(raw, column, row, release))
      == Stepped(START, [Moused(ParseSgrMouse(MouseReport(raw, column, row, release)).value)])
  {
    hide ParseSgrMouse, Digits, Steps;
    var report := MouseReport(raw, column, row, release);
    MouseRoundTrip(raw, column, row, release);
    DigitsAreFew(raw);
    DigitsAreFew(column);
    DigitsAreFew(row);
    var n := |report| - 1;
    var fields := Digits(raw) + [0x3b] + (Digits(column) + [0x3b] + Digits(row));
    assert report[..n] == [ESC, 0x5b, 0x3c] + fields;
    forall i | 3 <= i < n ensures report[..n][i] != 0x4d && report[..n][i] != 0x6d {
      assert report[..n][i] == fields[i - 3];
      assert fields[i - 3] == 0x3b || IsDigit(fields[i - 3]);
    }
    HoldsReport(config, report[..n]);
    StepsAppend(config, START, report[..n], [report[n]]);
    OneStep(config, START.(mouse := report[..n]), report[n]);
    assert report[..n] + [report[n]] == report;
    ReportEnds(config, report[..n], report[n]);
  }

  lemma ReportEnds(config: Config, bytes: seq<byte>, b: byte)
    requires |bytes| > 3 && (b == 0x4d || b == 0x6d) && ParseSgrMouse(bytes + [b]).Some?
    ensures Step(config, START.(mouse := bytes), b) == Stepped(START, [Moused(ParseSgrMouse(bytes + [b]).value)])
  {
    hide ParseSgrMouse;
  }

  /** Bytes that may still become a report: fewer than 64, of the right beginning, and without a final letter. */
  predicate MayBecomeReport(bytes: seq<byte>) {
    && |bytes| < 64
    && (if |bytes| < 3 then bytes <= [ESC, 0x5b, 0x3c] else [ESC, 0x5b, 0x3c] <= bytes)
    && forall i :: 3 <= i < |bytes| ==> bytes[i] != 0x4d && bytes[i] != 0x6d
  }

  /** Nothing else is ever held back for the mouse. */
  lemma {:induction false} OnlyReportsAreHeld(config: Config, bytes: seq<byte>)
    ensures MayBecomeReport(Steps(config, START, bytes).state.mouse)
  {
    hide Step;
    if bytes != [] {
      var n := |bytes| - 1;
      OnlyReportsAreHeld(config, bytes[..n]);
      HeldAfter(config, Steps(config, START, bytes[..n]).state, bytes[n]);
    }
  }

  lemma HeldAfter(config: Config, s: State, b: byte)
    requires MayBecomeReport(s.mouse)
    ensures MayBecomeReport(Step(config, s, b).state.mouse)
  {
    hide ParseSgrMouse, PrefixSequence, Builtin;
    var mouse := s.mouse + [b];
    if |mouse| < 3 { assert mouse == [ESC, 0x5b] ==> mouse <= [ESC, 0x5b, 0x3c]; }
    assert [ESC] <= [ESC, 0x5b, 0x3c];
  }

  // ---- Numbers in reports ----

  function Value(digits: seq<byte>): int {
    if digits == [] then 0 else 10 * Value(digits[..|digits| - 1]) + (digits[|digits| - 1] as int - 0x30)
  }

  predicate AllDigits(digits: seq<byte>) {
    forall i :: 0 <= i < |digits| ==> 0x30 <= digits[i] <= 0x39
  }

  lemma {:induction false} DecimalExactly(digits: seq<byte>)
    ensures AllDigits(digits) ==> Value(digits) >= 0
    ensures Decimal(digits) == if AllDigits(digits) && Value(digits) <= 65535 then Some(Value(digits)) else None
  {
    if digits != [] {
      var n := |digits| - 1;
      DecimalExactly(digits[..n]);
      assert AllDigits(digits) <==> AllDigits(digits[..n]) && IsDigit(digits[n]) by {
        assert digits == digits[..n] + [digits[n]];
      }
    }
  }

  /** A field is a number of 16 bits: digits, perhaps after a plus sign, and any leading zeros. */
  lemma NumbersExactly(field: seq<byte>)
    ensures
      var digits := if [Ascii('+')] <= field then field[1..] else field;
      ParseU16(field) == if digits != [] && AllDigits(digits) && Value(digits) <= 65535 then Some(Value(digits)) else None
  {
    var digits := if [Ascii('+')] <= field then field[1..] else field;
    DecimalExactly(digits);
    assert [Ascii('+')] <= field <==> field != [] && field[0] == 0x2b;
  }

  // ---- Moving and resizing floating panes ----

  /** In the edit mode an arrow key steps by one cell and with shift by five; these sequences and no others are recognized. */
  lemma EditKeysExactly(sequence: seq<byte>)
    ensures forall i :: 0 <= i < |ARROWS| && sequence == [ESC, 0x5b] + [Ascii(ARROWS[i].0)] ==>
                          FloatEdit.FloatEditSequence(sequence) == Some(FloatEdit.EditStep(ARROWS[i].1, 1))
    ensures forall i :: 0 <= i < |ARROWS| && sequence == [ESC, 0x5b, 0x31, 0x3b, 0x32] + [Ascii(ARROWS[i].0)] ==>
                          FloatEdit.FloatEditSequence(sequence) == Some(FloatEdit.EditStep(ARROWS[i].1, 5))
    ensures FloatEdit.FloatEditSequence(sequence).Some? ==>
              exists i :: 0 <= i < |ARROWS|
                          && (sequence == [ESC, 0x5b] + [Ascii(ARROWS[i].0)]
                              || sequence == [ESC, 0x5b, 0x31, 0x3b, 0x32] + [Ascii(ARROWS[i].0)])
  {
    forall i | 0 <= i < |ARROWS| && sequence == [ESC, 0x5b] + [Ascii(ARROWS[i].0)]
      ensures FloatEdit.FloatEditSequence(sequence) == Some(FloatEdit.EditStep(ARROWS[i].1, 1))
    {
      assert sequence[..2] == [ESC, 0x5b];
    }
    forall i | 0 <= i < |ARROWS| && sequence == [ESC, 0x5b, 0x31, 0x3b, 0x32] + [Ascii(ARROWS[i].0)]
      ensures FloatEdit.FloatEditSequence(sequence) == Some(FloatEdit.EditStep(ARROWS[i].1, 5))
    {
      assert sequence[..5] == [ESC, 0x5b, 0x31, 0x3b, 0x32];
    }
    if FloatEdit.FloatEditSequence(sequence).Some? {
      var n := |sequence| - 1;
      var i := sequence[n] as int - 0x41;
      assert sequence == sequence[..n] + [sequence[n]] && Ascii(ARROWS[i].0) == sequence[n];
    }
  }

  /** Outside a sequence a carriage return or a line feed commits; an ESC is held back, and any other byte is passed on. */
  lemma EditBytesExactly(b: byte)
    ensures
      var r, enter := FloatEdit.Scan(FloatEdit.Scanned([], [], false), [b]), b == Ascii('\r') || b == Ascii('\n');
      && FloatEdit.Commands(r.segments) == (if enter then [FloatEdit.Commit] else [])
      && FloatEdit.Forwarded(r.segments) == (if enter || b == ESC then [] else [b])
      && r.pending == (if b == ESC then [b] else []) && r.committed == enter
  {
    hide FloatEdit.FloatEditSequence, FloatEdit.FloatEditSequencePrefix;
    var start := FloatEdit.Scanned([], [], false);
    assert [b][..0] == [] && FloatEdit.Scan(start, []) == start;
    assert [] + [b] == [b];
    var r := FloatEdit.ScanStep(start, b);
    FloatEdit.EmptySegments();
    if r.segments != [] {
      FloatEdit.SnocSegment([], r.segments[0]);
      assert r.segments == [] + [r.segments[0]];
    }
  }
}
