/**
 * `HttpServer::buildResponse`: an HTTP/1.1 status line (section 4 of RFC 9112),
 * a `Content-Type` header, a `Content-Length` header holding the body's length
 * in octets (section 8.6 of RFC 9110), `Connection: close`, the empty line, and
 * the body. `ParseResponse` reads such a message back and is the partner the
 * round trip is proved against.
 */
module Response {
  import opened Wrappers
  import opened Text

  const CRLF: string := "\r\n"

  /** The reason phrase the server writes: only 200 is "OK", every other code reads "Not Found". */
  function StatusText(status: int): (text: string)
    ensures text == "OK" <==> status == 200
    ensures text == "Not Found" <==> status != 200
  {
    if status == 200 then "OK" else "Not Found"
  }

  /** One header-section line with its CR LF terminator. */
  function Line(text: string): string
  {
    text + CRLF
  }

  function StatusLine(status: int): string
  {
    "HTTP/1.1 " + (IntToDecimal(status) + (" " + StatusText(status)))
  }

  /** The response text: the pieces the string stream receives, in order. */
  function BuildResponse(status: int, contentType: string, body: string): string
  {
    Line(StatusLine(status))
      + (Line("Content-Type: " + contentType)
      + (Line("Content-Length: " + IntToDecimal(|body|))
      + (Line("Connection: close") + (Line("") + body))))
  }

  /**
   * The response opens with `HTTP/1.1 <code> <reason>` CR LF, where the reason
   * is "OK" exactly for 200, and closes with `Connection: close`, the empty
   * line and exactly the body.
   */
  lemma BuildResponseFrame(status: int, contentType: string, body: string)
    ensures Line(StatusLine(status)) <= BuildResponse(status, contentType, body)
    ensures EndsWith(BuildResponse(status, contentType, body), Line("Connection: close") + (Line("") + body))
    ensures EndsWith(BuildResponse(status, contentType, body), body)
  {
    var first := Line(StatusLine(status));
    var typeLine := Line("Content-Type: " + contentType);
    var lengthLine := Line("Content-Length: " + IntToDecimal(|body|));
    var closing := Line("Connection: close") + (Line("") + body);
    assert first <= first + (typeLine + (lengthLine + closing));
    EndsWithConcat(Line(""), body);
    EndsWithPrepend(Line("Connection: close"), Line("") + body, body);
    EndsWithPrepend(lengthLine, closing, body);
    EndsWithPrepend(typeLine, lengthLine + closing, body);
    EndsWithPrepend(first, typeLine + (lengthLine + closing), body);
    EndsWithConcat(lengthLine, closing);
    EndsWithPrepend(typeLine, lengthLine + closing, closing);
    EndsWithPrepend(first, typeLine + (lengthLine + closing), closing);
  }

  lemma EndsWithConcat(a: string, b: string)
    ensures EndsWith(a + b, b)
  {
  }

  lemma EndsWithPrepend(a: string, x: string, b: string)
    requires EndsWith(x, b)
    ensures EndsWith(a + x, b)
  {
  }

  /** A response as a client sees it. */
  datatype Message = Message(status: int, reason: string, contentType: string, body: string)

  /** Splits at the first CR LF: the line before it and the text after it. */
  function SplitLine(s: string): (r: Option<(string, string)>)
    decreases |s|
  {
    if |s| < 2 then None
    else if s[0] == '\r' && s[1] == '\n' then Some(([], s[2..]))
    else
      match SplitLine(s[1..])
      case None => None
      case Some(p) => Some(([s[0]] + p.0, p.1))
  }

  /** Splits at the first space. */
  function SplitAtSpace(s: string): (r: Option<(string, string)>)
  {
    if s == [] then None
    else if s[0] == ' ' then Some(([], s[1..]))
    else
      match SplitAtSpace(s[1..])
      case None => None
      case Some(p) => Some(([s[0]] + p.0, p.1))
  }

  function StripPrefix(s: string, prefix: string): Option<string>
  {
    if prefix <= s then Some(s[|prefix|..]) else None
  }

  /** `HTTP/1.1 <code> <reason>`. */
  function ParseStatusLine(line: string): Option<(int, string)>
  {
    var afterVersion :- StripPrefix(line, "HTTP/1.1 ");
    var codeAndReason :- SplitAtSpace(afterVersion);
    var status :- ParseInt(codeAndReason.0);
    Some((status, codeAndReason.1))
  }

  /** `Connection: close`, the empty line, then a body of the announced length. */
  function ParseTail(s: string, length: int): Option<string>
  {
    var connectionLine :- SplitLine(s);
    if connectionLine.0 != "Connection: close" then None
    else
      var blankLine :- SplitLine(connectionLine.1);
      if blankLine.0 != "" || length != |blankLine.1| then None
      else Some(blankLine.1)
  }

  /** The two headers and the rest: the content type and the body. */
  function ParseFields(s: string): Option<(string, string)>
  {
    var typeLine :- SplitLine(s);
    var contentType :- StripPrefix(typeLine.0, "Content-Type: ");
    var lengthLine :- SplitLine(typeLine.1);
    var lengthText :- StripPrefix(lengthLine.0, "Content-Length: ");
    var length :- ParseInt(lengthText);
    var body :- ParseTail(lengthLine.1, length);
    Some((contentType, body))
  }

  /** Reads a response of exactly the shape the server writes; `None` for anything else. */
  function ParseResponse(r: string): Option<Message>
  {
    var statusLine :- SplitLine(r);
    var codeAndReason :- ParseStatusLine(statusLine.0);
    var fields :- ParseFields(statusLine.1);
    Some(Message(codeAndReason.0, codeAndReason.1, fields.0, fields.1))
  }

  lemma {:induction false} SplitLineOfConcat(line: string, rest: string)
    requires NoCR(line)
    ensures SplitLine(Line(line) + rest) == Some((line, rest))
  {
    var s := Line(line) + rest;
    if line == [] {
      assert s == CRLF + rest;
      assert s[2..] == rest;
    } else {
      assert s[0] == line[0] && s[0] != '\r';
      assert s[1..] == Line(line[1..]) + rest;
      SplitLineOfConcat(line[1..], rest);
      assert [line[0]] + line[1..] == line;
    }
  }

  lemma {:induction false} SplitAtSpaceOfConcat(word: string, rest: string)
    requires NoSpace(word)
    ensures SplitAtSpace(word + (" " + rest)) == Some((word, rest))
  {
    var s := word + (" " + rest);
    if word == [] {
      assert s == " " + rest;
      assert s[1..] == rest;
    } else {
      assert s[0] == word[0] && !IsSpace(s[0]);
      assert s[1..] == word[1..] + (" " + rest);
      SplitAtSpaceOfConcat(word[1..], rest);
      assert [word[0]] + word[1..] == word;
    }
  }

  lemma StripPrefixOfConcat(prefix: string, rest: string)
    ensures StripPrefix(prefix + rest, prefix) == Some(rest)
  {
  }

  lemma NoCRConcat(a: string, b: string)
    requires NoCR(a) && NoCR(b)
    ensures NoCR(a + b)
  {
  }

  lemma StatusLineIsPlain(status: int)
    ensures NoCR(StatusLine(status))
  {
    var code, reason := IntToDecimal(status), StatusText(status);
    DecimalIsPlain(status);
    assert NoCR(" " + reason);
    NoCRConcat(code, " " + reason);
    NoCRConcat("HTTP/1.1 ", code + (" " + reason));
  }

  lemma StatusLineRoundTrip(status: int)
    ensures ParseStatusLine(StatusLine(status)) == Some((status, StatusText(status)))
  {
    var code, reason := IntToDecimal(status), StatusText(status);
    DecimalIsPlain(status);
    DecimalRoundTrip(status);
    var afterVersion := code + (" " + reason);
    StripPrefixOfConcat("HTTP/1.1 ", afterVersion);
    SplitAtSpaceOfConcat(code, reason);
  }

  lemma TailRoundTrip(body: string)
    ensures ParseTail(Line("Connection: close") + (Line("") + body), |body|) == Some(body)
  {
    SplitLineOfConcat("Connection: close", Line("") + body);
    SplitLineOfConcat("", body);
  }

  lemma FieldsRoundTrip(contentType: string, body: string)
    requires NoCR(contentType)
    ensures ParseFields(Line("Content-Type: " + contentType)
                        + (Line("Content-Length: " + IntToDecimal(|body|))
                        + (Line("Connection: close") + (Line("") + body))))
         == Some((contentType, body))
  {
    var len := IntToDecimal(|body|);
    DecimalIsPlain(|body|);
    DecimalRoundTrip(|body|);
    var r4 := Line("Connection: close") + (Line("") + body);
    var r3 := Line("Content-Length: " + len) + r4;
    NoCRConcat("Content-Type: ", contentType);
    SplitLineOfConcat("Content-Type: " + contentType, r3);
    StripPrefixOfConcat("Content-Type: ", contentType);
    NoCRConcat("Content-Length: ", len);
    SplitLineOfConcat("Content-Length: " + len, r4);
    StripPrefixOfConcat("Content-Length: ", len);
    TailRoundTrip(body);
  }

  /**
   * Round trip: a client reading the serialised response gets back the status,
   * the reason phrase, the content type and exactly the body, and the
   * `Content-Length` it reads equals the body's length. The content type must
   * not contain a carriage return (the server only ever passes "text/html").
   */
  lemma ParseBuildResponse(status: int, contentType: string, body: string)
    requires NoCR(contentType)
    ensures ParseResponse(BuildResponse(status, contentType, body))
         == Some(Message(status, StatusText(status), contentType, body))
  {
    var r2 := Line("Content-Type: " + contentType)
              + (Line("Content-Length: " + IntToDecimal(|body|))
              + (Line("Connection: close") + (Line("") + body)));
    assert BuildResponse(status, contentType, body) == Line(StatusLine(status)) + r2;
    StatusLineIsPlain(status);
    StatusLineRoundTrip(status);
    SplitLineOfConcat(StatusLine(status), r2);
    FieldsRoundTrip(contentType, body);
  }
}
