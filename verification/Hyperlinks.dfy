/** The spelling of hyperlinks (src/screen.rs:192-202, 243-252) and how a terminal reads it: an operating system command
    (ECMA-48 section 8.3.89) ends at the string terminator, and any other control character breaks it off. */
module Hyperlinks {
  import opened Wrappers
  import opened Cells

  const ESC := '\U{1b}'
  const OPEN := [ESC, ']', '8', ';']
  const TERMINATOR := [ESC, '\\']

  function Params(link: Hyperlink): string {
    if link.id.Some? then "id=" + link.id.value else ""
  }

  /** What is written to open a link, or to close the one in force. */
  function Spelling(link: Option<Hyperlink>): string {
    match link
    case None => OPEN + ";" + TERMINATOR
    case Some(l) => OPEN + Payload(l) + TERMINATOR
  }

  function Payload(link: Hyperlink): string {
    Params(link) + ";" + link.uri
  }

  /** The characters in front of the first one for which `stop` holds. */
  function Before(s: string, stop: char -> bool): (n: nat)
    ensures n <= |s|
    ensures forall i :: 0 <= i < n ==> !stop(s[i])
    ensures n < |s| ==> stop(s[n])
  {
    if s == "" || stop(s[0]) then 0 else 1 + Before(s[1..], stop)
  }

  /** What may stand in an operating system command; control characters may not. */
  predicate IsGraphic(c: char) {
    ' ' <= c <= '~' || '\U{a0}' <= c
  }

  predicate AllGraphic(s: string) {
    forall i :: 0 <= i < |s| ==> IsGraphic(s[i])
  }

  function Parse(text: string): Option<Option<Hyperlink>> {
    var k := Before(text, c => c == ';');
    if k == |text| then None
    else
      var params, uri := text[..k], text[k + 1..];
      if uri == "" then Some(None)
      else if params == "" then Some(Some(Hyperlink(None, uri)))
      else if "id=" <= params then Some(Some(Hyperlink(Some(params[3..]), uri)))
      else None
  }

  /** The link a terminal takes from the front of its input, and the rest of the input. */
  function Read(s: string): Option<(Option<Hyperlink>, string)> {
    if !(OPEN <= s) then None
    else
      var body := s[4..];
      var n := Before(body, c => !IsGraphic(c));
      if !(TERMINATOR <= body[n..]) then None
      else
        match Parse(body[..n])
        case None => None
        case Some(link) => Some((link, body[n + 2..]))
  }

  lemma StopsAt(s: string, stop: char -> bool, n: nat)
    requires n <= |s| && (forall i :: 0 <= i < n ==> !stop(s[i])) && (n < |s| ==> stop(s[n]))
    ensures Before(s, stop) == n
  {
  }

  lemma ParsedIsSpelled(text: string)
    requires Parse(text).Some? && Parse(text).value.Some?
    ensures text == Payload(Parse(text).value.value) && ';' !in Params(Parse(text).value.value)
  {
    var k := Before(text, c => c == ';');
    assert text == text[..k] + ";" + text[k + 1..];
    assert ';' !in text[..k];
    if text[..k] != "" {
      assert text[..k] == "id=" + text[..k][3..];
    }
  }

  lemma PayloadParses(link: Hyperlink)
    requires ';' !in Params(link) && link.uri != ""
    ensures Parse(Payload(link)) == Some(Some(link))
  {
    var text, k := Payload(link), |Params(link)|;
    StopsAt(text, c => c == ';', k);
    assert text[..k] == Params(link) && text[k + 1..] == link.uri;
  }

  /** The link read is one that was spelled, without control characters and with no `;` in its parameters. */
  lemma ReadIsSpelled(s: string)
    requires Read(s).Some? && Read(s).value.0.Some?
    ensures
      var (link, rest) := Read(s).value;
      s == Spelling(link) + rest && AllGraphic(Payload(link.value)) && ';' !in Params(link.value)
  {
    hide Parse;
    var body := s[4..];
    var n := Before(body, c => !IsGraphic(c));
    ParsedIsSpelled(body[..n]);
    assert body == body[..n] + TERMINATOR + body[n + 2..];
    assert s == OPEN + body;
  }

  lemma SpelledIsRead(link: Hyperlink, rest: string)
    requires AllGraphic(Payload(link)) && ';' !in Params(link) && link.uri != ""
    ensures Read(Spelling(Some(link)) + rest) == Some((Some(link), rest))
  {
    hide Parse;
    var s := Spelling(Some(link)) + rest;
    var body, n := s[4..], |Payload(link)|;
    assert body == Payload(link) + TERMINATOR + rest;
    StopsAt(body, c => !IsGraphic(c), n);
    assert body[..n] == Payload(link) && body[n..] == TERMINATOR + rest && body[n + 2..] == rest;
    PayloadParses(link);
  }

  /** A cell's link is passed on exactly when a terminal reads it back from its spelling, whatever follows. */
  lemma LinksArePassedOnIffRead(cell: Cell, rest: string)
    requires cell.hyperlink.Some? && cell.hyperlink.value.uri != ""
    ensures StyleOf(cell).hyperlink == Some(cell.hyperlink.value)
      <==> Read(Spelling(cell.hyperlink) + rest) == Some((cell.hyperlink, rest))
    ensures StyleOf(cell).hyperlink != cell.hyperlink ==> StyleOf(cell).hyperlink == None
  {
    hide Read;
    var link := cell.hyperlink.value;
    PayloadIsSafe(link);
    if SafeLink(link) {
      SpelledIsRead(link, rest);
    }
    if Read(Spelling(cell.hyperlink) + rest) == Some((cell.hyperlink, rest)) {
      ReadIsSpelled(Spelling(cell.hyperlink) + rest);
    }
  }

  lemma PayloadIsSafe(link: Hyperlink)
    ensures AllGraphic(Payload(link)) && ';' !in Params(link) <==> SafeLink(link)
  {
    var text, k := Payload(link), |Params(link)|;
    assert link.uri == text[k + 1..];
    if link.id.Some? {
      assert link.id.value == text[3..k] && link.id.value == Params(link)[3..];
    }
    if SafeLink(link) {
      forall i | 0 <= i < |text| ensures IsGraphic(text[i]) {
      }
    }
    if AllGraphic(text) {
      forall i | 0 <= i < |link.uri| ensures !IsControl(link.uri[i]) {
        assert link.uri[i] == text[k + 1 + i];
      }
      if link.id.Some? {
        forall i | 0 <= i < |link.id.value| ensures !IsControl(link.id.value[i]) {
          assert link.id.value[i] == text[3 + i];
        }
      }
    }
  }

  /** The sequence in front of every style closes the link in force. */
  lemma CloseIsRead(rest: string)
    ensures Read(Spelling(None) + rest) == Some((None, rest))
  {
    var s := Spelling(None) + rest;
    var body := s[4..];
    assert body == ";" + TERMINATOR + rest;
    StopsAt(body, c => !IsGraphic(c), 1);
    assert body[..1] == ";" && body[1..] == TERMINATOR + rest && body[3..] == rest;
    StopsAt(";", c => c == ';', 0);
  }
}
