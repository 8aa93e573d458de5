/** The framer as it runs: an accumulating buffer that is appended to and erased from
    (dap/JsonRPC.cpp, dap/JsonRPC.hpp). */
module JsonRpc {
  import opened Wrappers
  import opened CStrings
  import opened HeaderText
  import opened JsonValues
  import opened Framing
  import FramingProofs

  /** strtok and Trim in a loop, over a C string without terminators. */
  method SplitLines(str: string) returns (v: seq<string>)
    ensures v == Split(str, '\n')
  {
    v := [];
    var rest := str;
    while rest != ""
      invariant v + Split(rest, '\n') == Split(str, '\n')
      decreases |rest|
    {
      NextToken(v, rest);
      var token := Trim(BeforeFirst(rest, '\n'));
      if token != "" {
        v := v + [token];
      }
      rest := AfterFirst(rest, '\n');
    }
    assert v + [] == v;
  }

  lemma NextToken(v: seq<string>, s: string)
    requires s != ""
    ensures var token := Trim(BeforeFirst(s, '\n'));
      v + Split(s, '\n') == (if token == "" then v else v + [token]) + Split(AfterFirst(s, '\n'), '\n')
  {
    hide Trim, BeforeFirst, AfterFirst;
  }

  // ---------------------------------------------------------------- a callback that may reset

  /** ProcessBuffer with a callback that resets the client, and so the buffer, after the messages
      `resets` says: it is asked with all messages delivered so far. */
  ghost function DrainUntil(buffer: string, parse: Parser, resets: seq<Json> -> bool,
          past: seq<Json>): (r: (seq<Json>, string))
    decreases |buffer|
  {
    match LookAt(buffer)
    case Frame(payload, rest) =>
      (match parse(payload)
       case None => (past, rest)
       case Some(json) =>
         DrainUntil(if resets(past + [json]) then "" else rest, parse, resets, past + [json]))
    case NoLength(header) => (past, buffer[..header])
    case _ => (past, buffer)
  }

  /** Without resets that is one call as before. */
  lemma {:induction false} NeverReset(buffer: string, parse: Parser, resets: seq<Json> -> bool, past: seq<Json>)
    requires forall all :: !resets(all)
    ensures var (delivered, left) := Drain(buffer, parse);
      DrainUntil(buffer, parse, resets, past) == (past + delivered, left)
    decreases |buffer|
  {
    match LookAt(buffer)
    case Frame(payload, rest) =>
      if parse(payload).Some? {
        var json := parse(payload).value;
        NeverReset(rest, parse, resets, past + [json]);
        FramingProofs.AssocMessages(past, [json], Drain(rest, parse).0);
      } else {
        assert past + [] == past;
      }
    case _ => assert past + [] == past;
  }

  /** A reset ends the call: what was delivered is a prefix of what would have been, and if a
      reset happened the buffer is empty and the last message delivered is the one that did it. */
  lemma {:induction false} ResetEndsCall(buffer: string, parse: Parser, resets: seq<Json> -> bool, past: seq<Json>)
    ensures var (all, left) := DrainUntil(buffer, parse, resets, past);
      && past <= all && all <= past + Drain(buffer, parse).0
      && (all == past + Drain(buffer, parse).0 || (left == "" && resets(all)))
    decreases |buffer|
  {
    match LookAt(buffer)
    case Frame(payload, rest) =>
      if parse(payload).Some? {
        var json := parse(payload).value;
        FramingProofs.AssocMessages(past, [json], Drain(rest, parse).0);
        if resets(past + [json]) {
          NothingInEmpty(parse, resets, past + [json]);
        } else {
          ResetEndsCall(rest, parse, resets, past + [json]);
        }
      }
    case _ => assert past + [] == past;
  }

  lemma NothingInEmpty(parse: Parser, resets: seq<Json> -> bool, past: seq<Json>)
    ensures DrainUntil("", parse, resets, past) == (past, "")
  {
  }

  // ---------------------------------------------------------------- the class

  class Framer {
    var m_buffer: string

    constructor ()
      ensures m_buffer == ""
    {
      m_buffer := "";
    }

    method AppendBuffer(buffer: string)
      modifies this
      ensures m_buffer == old(m_buffer) + buffer
    {
      m_buffer := m_buffer + buffer;
    }

    /** The headers and the size of the section with its separator, or -1. */
    method ReadHeaders() returns (headers: Headers, size: int)
      ensures FindSeparator(m_buffer) == -1 ==> size == -1
      ensures FindSeparator(m_buffer) >= 0 ==>
        var where := FindSeparator(m_buffer); size == where + 4 && headers == HeadersOf(m_buffer[..where])
    {
      headers := map[];
      var where := FindSeparator(m_buffer);
      if where == -1 {
        size := -1;
        return;
      }
      var lines := SplitLines(CStr(m_buffer[..where]));
      var i := 0;
      while i < |lines|
        invariant 0 <= i <= |lines|
        invariant AddLines(headers, lines[i..]) == AddLines(map[], lines)
      {
        assert lines[i..][1..] == lines[i + 1..];
        var header := Trim(lines[i]);
        var name := BeforeFirst(header, ':');
        var value := AfterFirst(header, ':');
        headers := Insert(headers, Trim(name), Trim(value));
        i := i + 1;
      }
      size := where + 4;
    }

    /** One message, or nothing.  A section without Content-Length loses what is behind it; a
        length that is not positive, or a frame that is not complete, changes nothing; the
        payload of a complete frame is taken out whether it parses or not. */
    method DoProcessBuffer(parse: Parser) returns (json: Option<Json>)
      modifies this
      ensures match LookAt(old(m_buffer))
        case Frame(payload, rest) => m_buffer == rest && json == parse(payload)
        case NoLength(header) => m_buffer == old(m_buffer)[..header] && json == None
        case _ => m_buffer == old(m_buffer) && json == None
    {
      if m_buffer == "" {
        return None;
      }
      var headers, headerSize := ReadHeaders();
      if headerSize == -1 {
        return None;
      }
      if CONTENT_LENGTH !in headers {
        m_buffer := m_buffer[..headerSize];
        return None;
      }
      var msglen := Atol(headers[CONTENT_LENGTH]);
      if msglen <= 0 {
        return None;
      }
      if headerSize + msglen > |m_buffer| {
        return None;
      }
      var payload := m_buffer[headerSize..headerSize + msglen];
      m_buffer := m_buffer[headerSize + msglen..];
      json := parse(payload);
    }

    /** Deliver messages as long as the buffer gives one.  The callback is what `resets` says; it
        terminates whatever that is, because every message delivered shrank the buffer. */
    method ProcessBuffer(parse: Parser, resets: seq<Json> -> bool) returns (delivered: seq<Json>)
      modifies this
      ensures (delivered, m_buffer) == DrainUntil(old(m_buffer), parse, resets, [])
    {
      delivered := [];
      ghost var before := m_buffer;
      var json := DoProcessBuffer(parse);
      while json.Some?
        invariant |m_buffer| <= |before|
        invariant json.Some? ==> |m_buffer| < |before|
        invariant DrainUntil(old(m_buffer), parse, resets, []) ==
          if json.Some?
          then
            var past := delivered + [json.value];
            DrainUntil(if resets(past) then "" else m_buffer, parse, resets, past)
          else (delivered, m_buffer)
        decreases json.Some?, |m_buffer|
      {
        delivered := delivered + [json.value];
        if resets(delivered) {
          m_buffer := "";
        }
        before := m_buffer;
        json := DoProcessBuffer(parse);
      }
    }

    /** A run of calls: AppendBuffer and ProcessBuffer for every chunk that arrives. */
    method Receive(chunks: seq<string>, parse: Parser) returns (delivered: seq<Json>)
      modifies this
      ensures (delivered, m_buffer) == Feed(old(m_buffer), chunks, parse)
    {
      delivered := [];
      var i := 0;
      assert chunks[0..] == chunks;
      while i < |chunks|
        invariant 0 <= i <= |chunks|
        invariant var (more, left) := Feed(m_buffer, chunks[i..], parse);
          Feed(old(m_buffer), chunks, parse).1 == left && Feed(old(m_buffer), chunks, parse).0 == delivered + more
      {
        assert chunks[i..][0] == chunks[i] && chunks[i..][1..] == chunks[i + 1..];
        AppendBuffer(chunks[i]);
        NeverReset(m_buffer, parse, all => false, []);
        assert [] + Drain(m_buffer, parse).0 == Drain(m_buffer, parse).0;
        var now := ProcessBuffer(parse, all => false);
        FramingProofs.AssocMessages(delivered, now, Feed(m_buffer, chunks[i + 1..], parse).0);
        delivered := delivered + now;
        i := i + 1;
      }
      assert delivered + [] == delivered;
    }
  }

  /** Send: an exception without a connection, else one frame. */
  method Send(payload: string, connected: bool) returns (network_buffer: Option<string>)
    ensures network_buffer == if connected then Some(Encode(payload)) else None
  {
    if !connected {
      return None;
    }
    var buffer := "Content-Length: ";
    buffer := buffer + Digits(|payload|);
    buffer := buffer + "\r\n\r\n";
    buffer := buffer + payload;
    assert CONTENT_LENGTH + ": " == "Content-Length: ";
    network_buffer := Some(buffer);
  }
}
