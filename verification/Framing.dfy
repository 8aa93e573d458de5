/** The Base Protocol of the Debug Adapter Protocol as the framer decodes it: what one look at
    the buffer finds, what a call delivers, and what a stream holds (dap/JsonRPC.cpp). */
module Framing {
  import opened Wrappers
  import opened CStrings
  import opened HeaderText
  import opened JsonValues

  /** A parser of payloads; `None` is a Json that is not OK. */
  type Parser = string -> Option<Json>

  type Headers = map<string, string>

  const CONTENT_LENGTH := "Content-Length"
  const SEPARATOR := "\r\n\r\n"

  // ---------------------------------------------------------------- one look at the buffer

  /** Where the header section ends, or -1. */
  function FindSeparator(s: string): (i: int)
    ensures -1 <= i && (i >= 0 ==> i + 4 <= |s|)
    decreases |s|, 1
  {
    if |s| < 4 then -1 else FindIn(s)
  }

  function FindIn(s: string): (i: int)
    requires |s| >= 4
    ensures -1 <= i && (i >= 0 ==> i + 4 <= |s|)
    decreases |s|, 0
  {
    if s[..4] == SEPARATOR then 0
    else var i := FindSeparator(s[1..]); if i == -1 then -1 else i + 1
  }

  /** `headers.insert`: the first header of a name wins. */
  function Insert(headers: Headers, name: string, value: string): Headers {
    if name in headers then headers else headers[name := value]
  }

  function AddLines(headers: Headers, lines: seq<string>): Headers
    decreases |lines|, 1
  {
    if lines == [] then headers else AddLine(headers, lines[0], lines[1..])
  }

  /** One header, and the lines behind it. */
  function AddLine(headers: Headers, line: string, more: seq<string>): Headers
    decreases |more|, 2
  {
    var header := Trim(line);
    AddLines(Insert(headers, Trim(BeforeFirst(header, ':')), Trim(AfterFirst(header, ':'))), more)
  }

  /** The headers of a section; strtok sees it only up to the first terminator. */
  function HeadersOf(section: string): Headers {
    AddLines(map[], Split(CStr(section), '\n'))
  }

  datatype Look =
    | Wait                                  // no complete frame yet
    | NoLength(header: nat)                 // a header section of this size without Content-Length
    | BadLength                             // a length that is not positive
    | Frame(payload: string, rest: string)

  function LookAt(buffer: string): (l: Look)
    ensures l.Frame? ==> |l.rest| < |buffer|
    ensures l.NoLength? ==> l.header <= |buffer|
  {
    var where := FindSeparator(buffer);
    if where == -1 then Wait else LookBehind(buffer, HeadersOf(buffer[..where]), where + 4)
  }

  /** With the headers read and the content at `size`. */
  function LookBehind(buffer: string, headers: Headers, size: nat): (l: Look)
    requires 4 <= size <= |buffer|
    ensures l.Frame? ==> |l.rest| < |buffer|
    ensures l.NoLength? ==> l.header == size
  {
    if CONTENT_LENGTH !in headers then NoLength(size)
    else
      var len := Atol(headers[CONTENT_LENGTH]);
      if len <= 0 then BadLength
      else if size + len > |buffer| then Wait
      else Frame(buffer[size..size + len], buffer[size + len..])
  }

  // ---------------------------------------------------------------- one call, and a run of calls

  /** One call of ProcessBuffer: the messages delivered and the buffer left. */
  function Drain(buffer: string, parse: Parser): (r: (seq<Json>, string))
    ensures |r.1| <= |buffer|
    decreases |buffer|
  {
    match LookAt(buffer)
    case Wait => ([], buffer)
    case BadLength => ([], buffer)
    case NoLength(header) => ([], buffer[..header])
    case Frame(payload, rest) =>
      match parse(payload)
      case None => ([], rest)
      case Some(json) => var r := Drain(rest, parse); ([json] + r.0, r.1)
  }

  /** AppendBuffer and ProcessBuffer, chunk by chunk. */
  function Feed(buffer: string, chunks: seq<string>, parse: Parser): (seq<Json>, string)
    decreases chunks
  {
    if chunks == [] then ([], buffer)
    else
      var first := Drain(buffer + chunks[0], parse);
      var more := Feed(first.1, chunks[1..], parse);
      (first.0 + more.0, more.1)
  }

  // ---------------------------------------------------------------- the reference decoder

  /** All messages of a stream, decoded in one go; payloads that do not parse are skipped. */
  function Messages(stream: string, parse: Parser): seq<Json>
    decreases |stream|
  {
    match LookAt(stream)
    case Frame(payload, rest) => Parsed(parse(payload)) + Messages(rest, parse)
    case _ => []
  }

  function Parsed(r: Option<Json>): seq<Json> {
    match r
    case None => []
    case Some(json) => [json]
  }

  /** The part of a stream behind its last complete frame; of a section without a length, the
      section. */
  function Undecoded(stream: string): string
    decreases |stream|
  {
    match LookAt(stream)
    case Frame(_, rest) => Undecoded(rest)
    case NoLength(header) => stream[..header]
    case _ => stream
  }

  /** No message stands behind a payload that does not parse. */
  predicate Clean(stream: string, parse: Parser)
    decreases |stream|
  {
    match LookAt(stream)
    case Frame(payload, rest) =>
      if parse(payload).Some? then Clean(rest, parse) else Messages(rest, parse) == []
    case _ => true
  }

  /** Every payload parses. */
  predicate AllParse(stream: string, parse: Parser)
    decreases |stream|
  {
    match LookAt(stream)
    case Frame(payload, rest) => parse(payload).Some? && AllParse(rest, parse)
    case _ => true
  }

  // ---------------------------------------------------------------- the sender

  /** Send */
  function Encode(payload: string): string {
    CONTENT_LENGTH + ": " + Digits(|payload|) + SEPARATOR + payload
  }

  function EncodeAll(payloads: seq<string>): string {
    if payloads == [] then "" else Encode(payloads[0]) + EncodeAll(payloads[1..])
  }
}
