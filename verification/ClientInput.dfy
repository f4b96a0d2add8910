/** Keyboard and mouse input of the client (src/client_input.rs): the prefix-key parser and the scanner
    of the floating-pane edit mode. Neither may depend on how the terminal's bytes are cut into reads. */
module ClientInput {
  import opened Wrappers
  import opened FixedWidth

  type byte = u8

  datatype Axis = Vertical | Horizontal

  datatype Direction = Left | Right | Up | Down

  datatype Action =
    | SplitPane(axis: Axis) | Focus(direction: Direction) | Resize(direction: Direction)
    | NewTab | NextTab | PreviousTab | SelectTab(index: nat) | ClosePane | ToggleZoom | EnterCopyMode | Paste
    | NewFloatingPane | ToggleFloatingPanes | TogglePanePinned | EnterFloatingMoveMode | EnterFloatingResizeMode

  datatype MouseKind = Wheel | Release | Move | Press

  datatype MouseEvent = MouseEvent(button: nat, x: nat, y: nat, kind: MouseKind, shift: bool)

  datatype ParsedInput = Input(bytes: seq<byte>) | Act(action: Action) | Mouse(event: MouseEvent) | Detach

  /** One element of the stream the caller sees once `Input` blocks are flattened to bytes. */
  datatype Event = Byte(value: byte) | Acted(action: Action) | Moused(event: MouseEvent) | Detached

  function Bytes(bytes: seq<byte>): seq<Event> {
    seq(|bytes|, i requires 0 <= i < |bytes| => Byte(bytes[i]))
  }

  function FlattenOne(parsed: ParsedInput): seq<Event> {
    match parsed
    case Input(bytes) => Bytes(bytes)
    case Act(action) => [Acted(action)]
    case Mouse(event) => [Moused(event)]
    case Detach => [Detached]
  }

  function Flatten(output: seq<ParsedInput>): seq<Event> {
    if output == [] then [] else Flatten(output[..|output| - 1]) + FlattenOne(output[|output| - 1])
  }

  lemma FlattenAppend(output: seq<ParsedInput>, parsed: ParsedInput)
    ensures Flatten(output + [parsed]) == Flatten(output) + FlattenOne(parsed)
  {
    assert (output + [parsed])[..|output|] == output;
  }

  lemma FlattenInput(output: seq<ParsedInput>, ordinary: seq<byte>)
    ensures Flatten(output + [Input(ordinary)]) == Flatten(output) + Bytes(ordinary)
  {
    FlattenAppend(output, Input(ordinary));
  }

  lemma FlattenMouse(output: seq<ParsedInput>, event: MouseEvent)
    ensures Flatten(output + [Mouse(event)]) == Flatten(output) + [Moused(event)]
  {
    FlattenAppend(output, Mouse(event));
  }

  lemma FlattenAction(output: seq<ParsedInput>, action: Action)
    ensures Flatten(output + [Act(action)]) == Flatten(output) + [Acted(action)]
  {
    FlattenAppend(output, Act(action));
  }

  lemma OneByte(b: byte)
    ensures Bytes([b]) == [Byte(b)]
  {
  }

  lemma EmptyOutput()
    ensures Flatten([]) == [] && Bytes([]) == []
  {
  }

  lemma BytesAppend(x: seq<byte>, y: seq<byte>)
    ensures Bytes(x + y) == Bytes(x) + Bytes(y)
  {
  }

  lemma BytesOfNothing()
    ensures Bytes([]) == []
  {
  }

  // ---- Escape sequences ----

  const ESC: byte := 0x1b

  predicate IsDigit(b: byte) { 0x30 <= b <= 0x39 }

  /** The value of a run of decimal digits, while it stays below 65536. */
  function Decimal(digits: seq<byte>): Option<nat> {
    if digits == [] then Some(0)
    else if !IsDigit(digits[|digits| - 1]) then None
    else
      var init := Decimal(digits[..|digits| - 1]);
      if init.None? then None
      else
        var value := init.value * 10 + digits[|digits| - 1] as nat - 0x30;
        if value <= U16_MAX then Some(value) else None
  }

  /** Parsing a `u16`: digits with an optional leading plus sign. */
  function ParseU16(field: seq<byte>): Option<nat> {
    var digits := if field != [] && field[0] == 0x2b then field[1..] else field;
    if digits == [] then None else Decimal(digits)
  }

  function SplitFields(bytes: seq<byte>): (fields: seq<seq<byte>>)
    ensures fields != []
  {
    if bytes == [] then [[]]
    else
      var rest := SplitFields(bytes[1..]);
      if bytes[0] == 0x3b then [[]] + rest else [[bytes[0]] + rest[0]] + rest[1..]
  }

  /** An SGR mouse report `ESC [ < button ; column ; row M|m`, with one-based coordinates. */
  function ParseSgrMouse(sequence: seq<byte>): Option<MouseEvent> {
    var n := |sequence|;
    if n < 4 || sequence[..3] != [ESC, 0x5b, 0x3c] || !(sequence[n - 1] == 0x4d || sequence[n - 1] == 0x6d) then None
    else
      var fields := SplitFields(sequence[3..n - 1]);
      if |fields| != 3 then None
      else
        var raw, x, y := ParseU16(fields[0]), ParseU16(fields[1]), ParseU16(fields[2]);
        if raw.None? || x.None? || y.None? || x.value == 0 || y.value == 0 then None
        else
          var kind :=
            if (raw.value / 64) % 2 == 1 then Wheel
            else if sequence[n - 1] == 0x6d then Release
            else if (raw.value / 32) % 2 == 1 then Move
            else Press;
          Some(MouseEvent(raw.value % 4, x.value - 1, y.value - 1, kind, (raw.value / 4) % 2 == 1))
  }

  function ArrowDirection(final: byte): Option<Direction> {
    if final == 0x41 then Some(Up) else if final == 0x42 then Some(Down)
    else if final == 0x43 then Some(Right) else if final == 0x44 then Some(Left) else None
  }

  /** Arrow keys after the prefix move the focus; with the control modifier they resize. */
  function PrefixSequence(sequence: seq<byte>): Option<Action> {
    if |sequence| == 3 && sequence[..2] == [ESC, 0x5b] && ArrowDirection(sequence[2]).Some? then
      Some(Focus(ArrowDirection(sequence[2]).value))
    else if |sequence| == 6 && sequence[..5] == [ESC, 0x5b, 0x31, 0x3b, 0x35] && ArrowDirection(sequence[5]).Some? then
      Some(Resize(ArrowDirection(sequence[5]).value))
    else None
  }

  // ---- The prefix parser, one byte at a time ----

  datatype Config = Config(prefixByte: byte, bindings: map<byte, Action>)

  datatype State = State(prefix: bool, sequence: seq<byte>, mouse: seq<byte>, confirmClose: bool)

  const START := State(false, [], [], false)

  datatype Stepped = Stepped(state: State, events: seq<Event>)

  function MouseStep(s: State, b: byte): Stepped {
    var mouse := s.mouse + [b];
    if (|mouse| == 2 && mouse != [ESC, 0x5b]) || (|mouse| == 3 && mouse != [ESC, 0x5b, 0x3c]) then
      Stepped(s.(mouse := []), Bytes(mouse))
    else if b == 0x4d || b == 0x6d then
      var event := ParseSgrMouse(mouse);
      Stepped(s.(mouse := []), if event.Some? then [Moused(event.value)] else Bytes(mouse))
    else if |mouse| >= 64 then Stepped(s.(mouse := []), Bytes(mouse))
    else Stepped(s.(mouse := mouse), [])
  }

  /** The built-in key bindings, for keys that act at once. */
  function Builtin(b: byte): Option<Event> {
    if b == 0x25 then Some(Acted(SplitPane(Vertical)))
    else if b == 0x22 then Some(Acted(SplitPane(Horizontal)))
    else if b == 0x63 then Some(Acted(NewTab))
    else if b == 0x6e then Some(Acted(NextTab))
    else if b == 0x70 then Some(Acted(PreviousTab))
    else if b == 0x7a then Some(Acted(ToggleZoom))
    else if b == 0x66 then Some(Acted(NewFloatingPane))
    else if b == 0x46 then Some(Acted(ToggleFloatingPanes))
    else if b == 0x50 then Some(Acted(TogglePanePinned))
    else if b == 0x6d then Some(Acted(EnterFloatingMoveMode))
    else if b == 0x72 then Some(Acted(EnterFloatingResizeMode))
    else if b == 0x64 then Some(Detached)
    else if b == 0x5b then Some(Acted(EnterCopyMode))
    else if b == 0x5d then Some(Acted(Paste))
    else if IsDigit(b) then Some(Acted(SelectTab(b as nat - 0x30)))
    else None
  }

  function PrefixStep(config: Config, s: State, b: byte): Stepped {
    if b in config.bindings then Stepped(s.(prefix := false), [Acted(config.bindings[b])])
    else if b == config.prefixByte then Stepped(s.(prefix := false), [Byte(config.prefixByte)])
    else if Builtin(b).Some? then Stepped(s.(prefix := false), [Builtin(b).value])
    else if b == 0x78 then Stepped(s.(prefix := false, confirmClose := true), [])
    else if b == ESC then Stepped(s.(sequence := s.sequence + [b]), [])
    else Stepped(s.(prefix := false), [])
  }

  function Step(config: Config, s: State, b: byte): Stepped {
    if s.confirmClose then
      Stepped(s.(confirmClose := false), if b == 0x79 || b == 0x59 then [Acted(ClosePane)] else [])
    else if s.sequence != [] then
      var sequence := s.sequence + [b];
      if PrefixSequence(sequence).Some? then
        Stepped(s.(sequence := [], prefix := false), [Acted(PrefixSequence(sequence).value)])
      else if |sequence| >= 7 then Stepped(s.(sequence := [], prefix := false), [])
      else Stepped(s.(sequence := sequence), [])
    else if !s.prefix then
      if s.mouse != [] then MouseStep(s, b)
      else if b == ESC then Stepped(s.(mouse := [b]), [])
      else if b == config.prefixByte then Stepped(s.(prefix := true), [])
      else Stepped(s, [Byte(b)])
    else PrefixStep(config, s, b)
  }

  function Steps(config: Config, s: State, bytes: seq<byte>): Stepped {
    if bytes == [] then Stepped(s, [])
    else
      var init := Steps(config, s, bytes[..|bytes| - 1]);
      var last := Step(config, init.state, bytes[|bytes| - 1]);
      Stepped(last.state, init.events + last.events)
  }

  lemma {:induction false} StepsAppend(config: Config, s: State, x: seq<byte>, y: seq<byte>)
    ensures
      var a := Steps(config, s, x);
      var b := Steps(config, a.state, y);
      Steps(config, s, x + y) == Stepped(b.state, a.events + b.events)
  {
    hide Step;
    if y == [] {
      assert x + y == x;
    } else {
      var n := |y| - 1;
      StepsAppend(config, s, x, y[..n]);
      assert (x + y)[..|x| + n] == x + y[..n];
    }
  }

  // ---- What the stream means ----

  /** Bytes outside any key chord reach the pane unchanged. */
  lemma {:induction false} PlainInputPasses(config: Config, bytes: seq<byte>)
    requires forall i :: 0 <= i < |bytes| ==> bytes[i] != ESC && bytes[i] != config.prefixByte
    ensures Steps(config, START, bytes) == Stepped(START, Bytes(bytes))
  {
    if bytes != [] {
      var n := |bytes| - 1;
      PlainInputPasses(config, bytes[..n]);
      BytesAppend(bytes[..n], [bytes[n]]);
      assert bytes == bytes[..n] + [bytes[n]];
    }
  }

  function Digits(n: nat): (digits: seq<byte>)
    ensures digits != [] && forall i :: 0 <= i < |digits| ==> IsDigit(digits[i])
  {
    (if n < 10 then [] else Digits(n / 10)) + [(0x30 + n % 10) as byte]
  }

  /** Reading one more digit. */
  lemma NextDigit(high: seq<byte>, value: nat, digit: nat)
    requires Decimal(high) == Some(value) && digit < 10 && value * 10 + digit <= U16_MAX
    ensures Decimal(high + [(0x30 + digit) as byte]) == Some(value * 10 + digit)
  {
    NextByte(high, value, (0x30 + digit) as byte);
  }

  lemma NextByte(high: seq<byte>, value: nat, last: byte)
    requires Decimal(high) == Some(value) && IsDigit(last) && value * 10 + last as nat - 0x30 <= U16_MAX
    ensures Decimal(high + [last]) == Some(value * 10 + last as nat - 0x30)
  {
    assert (high + [last])[..|high|] == high;
  }

  lemma {:induction false} DecimalDigits(n: nat)
    requires n <= U16_MAX
    ensures Decimal(Digits(n)) == Some(n)
  {
    hide Decimal;
    if n < 10 {
      assert Decimal([]) == Some(0) by { NoDigits(); }
      NextDigit([], 0, n);
    } else {
      DecimalDigits(n / 10);
      NextDigit(Digits(n / 10), n / 10, n % 10);
    }
  }

  lemma NoDigits()
    ensures Decimal([]) == Some(0)
  {
  }

  lemma DecimalRoundTrip(n: nat)
    requires n <= U16_MAX
    ensures ParseU16(Digits(n)) == Some(n)
  {
    hide Decimal;
    DecimalDigits(n);
    assert Digits(n)[0] != 0x2b;
  }

  lemma {:induction false} SplitDigits(digits: seq<byte>, rest: seq<byte>)
    requires forall i :: 0 <= i < |digits| ==> digits[i] != 0x3b
    ensures SplitFields(digits + [0x3b] + rest) == [digits] + SplitFields(rest)
    ensures SplitFields(digits) == [digits]
  {
    if digits == [] {
      assert ([] + [0x3b] + rest)[1..] == rest;
    } else {
      SplitDigits(digits[1..], rest);
      assert (digits + [0x3b] + rest)[1..] == digits[1..] + [0x3b] + rest;
      assert [digits[0]] + digits[1..] == digits;
    }
  }

  /** The report a terminal sends for a mouse event at one-based coordinates. */
  function MouseReport(raw: nat, column: nat, row: nat, release: bool): seq<byte> {
    [ESC, 0x5b, 0x3c] + (Digits(raw) + [0x3b] + (Digits(column) + [0x3b] + Digits(row))) + [if release then 0x6d else 0x4d]
  }

  /** Every well-formed report is read back, with zero-based coordinates; a coordinate of zero is refused. */
  lemma MouseRoundTrip(raw: nat, column: nat, row: nat, release: bool)
    requires raw <= U16_MAX && column <= U16_MAX && row <= U16_MAX
    ensures
      ParseSgrMouse(MouseReport(raw, column, row, release))
      == if column == 0 || row == 0 then None
         else
           var kind := if (raw / 64) % 2 == 1 then Wheel else if release then Release
                       else if (raw / 32) % 2 == 1 then MouseKind.Move else Press;
           Some(MouseEvent(raw % 4, column - 1, row - 1, kind, (raw / 4) % 2 == 1))
  {
    hide Digits, Decimal, ParseU16, SplitFields;
    var fields := Digits(raw) + [0x3b] + (Digits(column) + [0x3b] + Digits(row));
    var report := MouseReport(raw, column, row, release);
    assert report[3..|report| - 1] == fields && report[..3] == [ESC, 0x5b, 0x3c];
    SplitDigits(Digits(raw), Digits(column) + [0x3b] + Digits(row));
    SplitDigits(Digits(column), Digits(row));
    SplitDigits(Digits(row), []);
    assert SplitFields(fields) == [Digits(raw), Digits(column), Digits(row)];
    DecimalRoundTrip(raw);
    DecimalRoundTrip(column);
    DecimalRoundTrip(row);
  }

  function Concat(chunks: seq<seq<byte>>): seq<byte> {
    if chunks == [] then [] else Concat(chunks[..|chunks| - 1]) + chunks[|chunks| - 1]
  }

  class PrefixParser {
    const config: Config
    var prefix: bool
    var sequence: seq<byte>
    var mouseSequence: seq<byte>
    var confirmClose: bool

    ghost function Current(): State
      reads this
    {
      State(prefix, sequence, mouseSequence, confirmClose)
    }

    constructor (config: Config)
      ensures this.config == config && Current() == START
    {
      this.config := config;
      prefix, sequence, mouseSequence, confirmClose := false, [], [], false;
    }

    /** Nothing waits to be flushed while a key chord is in progress. */
    ghost predicate Clean(ordinary: seq<byte>)
      reads this
    {
      confirmClose || sequence != [] || prefix ==> ordinary == []
    }

    method FeedMouse(b: byte, output: seq<ParsedInput>, ordinary: seq<byte>)
      returns (output': seq<ParsedInput>, ordinary': seq<byte>)
      requires !confirmClose && sequence == [] && !prefix && mouseSequence != []
      modifies this`mouseSequence
      ensures Current() == MouseStep(old(Current()), b).state
      ensures Flatten(output') + Bytes(ordinary') == Flatten(output) + Bytes(ordinary) + MouseStep(old(Current()), b).events
    {
      hide ParseSgrMouse, Flatten, FlattenOne, Bytes;
      BytesOfNothing();
      output', ordinary' := output, ordinary;
      mouseSequence := mouseSequence + [b];
      var mouse := mouseSequence;
      var validPrefix :=
        if |mouse| == 2 then mouse == [ESC, 0x5b]
        else if |mouse| == 3 then mouse == [ESC, 0x5b, 0x3c]
        else true;
      if validPrefix && (b == 0x4d || b == 0x6d) {
        if ordinary' != [] {
          FlattenInput(output', ordinary');
          output', ordinary' := output' + [Input(ordinary')], [];
        }
        assert Flatten(output') == Flatten(output) + Bytes(ordinary);
        var event := ParseSgrMouse(mouse);
        if event.Some? {
          FlattenMouse(output', event.value);
          output' := output' + [Mouse(event.value)];
        } else {
          assert ordinary' + mouse == mouse;
          ordinary' := ordinary' + mouse;
        }
        mouseSequence := [];
      } else if !validPrefix || |mouse| >= 64 {
        ordinary' := ordinary' + mouse;
        BytesAppend(ordinary, mouse);
        mouseSequence := [];
      }
    }

    method FeedPrefixed(b: byte, output: seq<ParsedInput>) returns (output': seq<ParsedInput>)
      requires !confirmClose && sequence == [] && prefix
      modifies this
      ensures Current() == PrefixStep(config, old(Current()), b).state
      ensures Flatten(output') == Flatten(output) + PrefixStep(config, old(Current()), b).events
    {
      if b in config.bindings {
        FlattenAppend(output, Act(config.bindings[b]));
        prefix := false;
        return output + [Act(config.bindings[b])];
      }
      output' := output;
      if b == config.prefixByte {
        FlattenAppend(output, Input([config.prefixByte]));
        output' := output + [Input([config.prefixByte])];
      } else if Builtin(b).Some? {
        var parsed := if Builtin(b).value.Acted? then Act(Builtin(b).value.action) else Detach;
        FlattenAppend(output, parsed);
        output' := output + [parsed];
      } else if b == 0x78 {
        confirmClose := true;
      } else if b == ESC {
        sequence := sequence + [b];
        return;
      }
      prefix := false;
    }

    method FeedByte(b: byte, output: seq<ParsedInput>, ordinary: seq<byte>)
      returns (output': seq<ParsedInput>, ordinary': seq<byte>)
      requires Clean(ordinary)
      modifies this
      ensures Clean(ordinary')
      ensures Current() == Step(config, old(Current()), b).state
      ensures Flatten(output') + Bytes(ordinary') == Flatten(output) + Bytes(ordinary) + Step(config, old(Current()), b).events
    {
      hide MouseStep, PrefixStep, PrefixSequence, Flatten, FlattenOne, Bytes;
      BytesOfNothing();
      output', ordinary' := output, ordinary;
      if confirmClose {
        confirmClose := false;
        if b == 0x79 || b == 0x59 {
          FlattenAction(output, ClosePane);
          output' := output + [Act(ClosePane)];
        }
      } else if sequence != [] {
        sequence := sequence + [b];
        var command := PrefixSequence(sequence);
        if command.Some? {
          FlattenAction(output, command.value);
          output' := output + [Act(command.value)];
          sequence, prefix := [], false;
        } else if |sequence| >= 7 {
          sequence, prefix := [], false;
        }
      } else if !prefix {
        if mouseSequence != [] {
          output', ordinary' := FeedMouse(b, output, ordinary);
        } else if b == ESC {
          mouseSequence := mouseSequence + [b];
        } else if b == config.prefixByte {
          if ordinary != [] {
            FlattenInput(output, ordinary);
            output', ordinary' := output + [Input(ordinary)], [];
          }
          prefix := true;
        } else {
          BytesAppend(ordinary, [b]);
          assert Bytes([b]) == [Byte(b)] by { OneByte(b); }
          ordinary' := ordinary + [b];
        }
      } else {
        output' := FeedPrefixed(b, output);
      }
    }

    /** The flattened output and the new state are those of the byte-wise parser. */
    method Feed(bytes: seq<byte>) returns (output: seq<ParsedInput>)
      modifies this
      ensures Stepped(Current(), Flatten(output)) == Steps(config, old(Current()), bytes)
    {
      hide Step, Flatten, FlattenOne, Bytes;
      output := [];
      var ordinary := [];
      EmptyOutput();
      var i := 0;
      while i < |bytes|
        invariant 0 <= i <= |bytes|
        invariant Clean(ordinary)
        invariant Stepped(Current(), Flatten(output) + Bytes(ordinary)) == Steps(config, old(Current()), bytes[..i])
      {
        assert bytes[..i + 1][..i] == bytes[..i];
        output, ordinary := FeedByte(bytes[i], output, ordinary);
        i := i + 1;
      }
      assert bytes[..i] == bytes;
      if ordinary != [] {
        FlattenInput(output, ordinary);
        output := output + [Input(ordinary)];
      }
    }

    /** Any number of reads: the flattened stream is that of all their bytes in one read. */
    method FeedAll(chunks: seq<seq<byte>>) returns (ghost events: seq<Event>)
      modifies this
      ensures Stepped(Current(), events) == Steps(config, old(Current()), Concat(chunks))
    {
      events := [];
      var i := 0;
      while i < |chunks|
        invariant 0 <= i <= |chunks|
        invariant Stepped(Current(), events) == Steps(config, old(Current()), Concat(chunks[..i]))
      {
        assert chunks[..i + 1][..i] == chunks[..i];
        StepsAppend(config, old(Current()), Concat(chunks[..i]), chunks[i]);
        var output := Feed(chunks[i]);
        events := events + Flatten(output);
        i := i + 1;
      }
      assert chunks[..i] == chunks;
    }
  }
}
