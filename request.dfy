/**
 * `HttpServer::parseRequest`: the request text goes into a string stream and
 * three words are read from it with `>>` (method, target, version); the target
 * is returned. A `>>` into a string skips leading white space, then takes the
 * longest run of non-space characters; when it takes nothing the stream fails
 * and every later `>>` takes nothing as well.
 */
module Request {
  import opened Text

  /** Drops leading white space, as the stream's sentry does before each word. */
  function SkipSpace(s: string): (r: string)
    ensures |r| <= |s|
    ensures r == [] || !IsSpace(r[0])
    ensures forall i :: 0 <= i < |s| - |r| ==> IsSpace(s[i])
  {
    if s != [] && IsSpace(s[0]) then SkipSpace(s[1..]) else s
  }

  /** What the sentry skips is a prefix; the rest of the stream is untouched. */
  lemma {:induction false} SkipSpaceIsSuffix(s: string)
    ensures SkipSpace(s) == s[|s| - |SkipSpace(s)|..]
  {
    if s != [] && IsSpace(s[0]) {
      SkipSpaceIsSuffix(s[1..]);
    }
  }

  /** The longest prefix of `s` free of white space. */
  function Word(s: string): (w: string)
    ensures w <= s
    ensures NoSpace(w)
    ensures |w| == |s| || IsSpace(s[|w|])
  {
    if s == [] || IsSpace(s[0]) then [] else [s[0]] + Word(s[1..])
  }

  /** One `stream >> word`: the word read and what is left in the stream. */
  function Extract(s: string): (string, string)
  {
    var t := SkipSpace(s);
    var w := Word(t);
    (w, t[|w|..])
  }

  /** The request target: the second word, or empty when the stream failed before it. */
  function ParseRequest(request: string): (path: string)
    ensures NoSpace(path)
  {
    var (verb, afterVerb) := Extract(request);
    if verb == [] then []
    else
      // the version word is read after this one but does not affect the result
      var (target, _) := Extract(afterVerb);
      target
  }

  /** Reference definition: all white-space-separated words of `s`, in order. */
  function Tokens(s: string): (ts: seq<string>)
    decreases |s|
  {
    var t := SkipSpace(s);
    if t == [] then []
    else
      var w := Word(t);
      assert |w| > 0 by { assert !IsSpace(t[0]); }
      [w] + Tokens(t[|w|..])
  }

  /** A non-empty run of non-space characters, as one `>>` reads it. */
  predicate IsWord(w: string) { |w| > 0 && NoSpace(w) }

  predicate AllWords(ws: seq<string>) { forall k :: 0 <= k < |ws| ==> IsWord(ws[k]) }

  /** Words joined by single spaces, as a request line writes them. */
  function JoinWords(ws: seq<string>): string
  {
    if ws == [] then ""
    else if |ws| == 1 then ws[0]
    else ws[0] + (" " + JoinWords(ws[1..]))
  }

  /** Every token is a non-empty run of non-space characters. */
  lemma {:induction false} TokensAreWords(s: string)
    ensures AllWords(Tokens(s))
    decreases |s|
  {
    var t := SkipSpace(s);
    if t != [] {
      var w := Word(t);
      assert !IsSpace(t[0]);
      TokensAreWords(t[|w|..]);
      assert Tokens(s) == [w] + Tokens(t[|w|..]);
    }
  }

  /** `parseRequest` is the second token, or empty when there are fewer than two. */
  lemma ParseRequestIsSecondToken(request: string)
    ensures ParseRequest(request) == if |Tokens(request)| >= 2 then Tokens(request)[1] else ""
    ensures ParseRequest(request) == "" <==> |Tokens(request)| < 2
  {
  }

  lemma {:induction false} WordOfConcat(w: string, more: string)
    requires NoSpace(w)
    requires more == [] || IsSpace(more[0])
    ensures Word(w + more) == w
  {
    if w != [] {
      assert (w + more)[1..] == w[1..] + more;
      WordOfConcat(w[1..], more);
    }
  }

  lemma SkipSpaceLeadingSpace(s: string)
    requires s == [] || !IsSpace(s[0])
    ensures SkipSpace(" " + s) == s
  {
  }

  /** A word followed by a space or by nothing is what one `>>` reads. */
  lemma ExtractWord(w: string, more: string)
    requires |w| > 0 && NoSpace(w)
    requires more == [] || IsSpace(more[0])
    ensures Extract(w + more) == (w, more)
  {
    WordOfConcat(w, more);
    assert (w + more)[|w|..] == more;
  }

  /** Round trip with a request line: `M SP T ...` yields `T`. */
  lemma {:induction false} ParseRequestLine(verb: string, target: string, more: string)
    requires |verb| > 0 && NoSpace(verb)
    requires |target| > 0 && NoSpace(target)
    requires more == [] || IsSpace(more[0])
    ensures ParseRequest(verb + " " + target + more) == target
  {
    var rest := " " + (target + more);
    assert verb + " " + target + more == verb + rest;
    ExtractWord(verb, rest);
    SkipSpaceLeadingSpace(target + more);
    ExtractWord(target, more);
    assert SkipSpace(target + more) == target + more by { assert (target + more)[0] == target[0]; }
    assert Extract(rest) == Extract(target + more);
  }

  lemma ParseRequestExample()
    ensures ParseRequest("GET /about HTTP/1.1") == "/about"
  {
    assert "GET" + " " + "/about" + " HTTP/1.1" == "GET /about HTTP/1.1";
    ParseRequestLine("GET", "/about", " HTTP/1.1");
  }

  lemma ParseRequestTooShort()
    ensures ParseRequest("") == "" && ParseRequest(" \r\n") == "" && ParseRequest("GET") == ""
  {
  }

  /** A word followed by a space (or nothing) is the first token. */
  lemma TokensOfWordThen(w: string, rest: string)
    requires |w| > 0 && NoSpace(w)
    requires rest == [] || IsSpace(rest[0])
    ensures Tokens(w + rest) == [w] + Tokens(rest)
  {
    assert SkipSpace(w + rest) == w + rest by { assert (w + rest)[0] == w[0]; }
    ExtractWord(w, rest);
  }

  lemma TokensSkipLeadingSpace(s: string)
    requires s == [] || !IsSpace(s[0])
    ensures Tokens(" " + s) == Tokens(s)
  {
  }

  /** Splitting the words back out of a space-joined line gives the words. */
  lemma {:induction false} TokensOfJoin(ws: seq<string>)
    requires AllWords(ws)
    ensures Tokens(JoinWords(ws)) == ws
    decreases |ws|
  {
    if |ws| == 1 {
      TokensOfSingleWord(ws);
    } else if |ws| > 1 {
      assert AllWords(ws[1..]) by {
        forall k | 0 <= k < |ws[1..]| ensures IsWord(ws[1..][k]) { assert ws[1..][k] == ws[k + 1]; }
      }
      TokensOfJoin(ws[1..]);
      TokensOfJoinStep(ws);
    }
  }

  lemma TokensOfSingleWord(ws: seq<string>)
    requires |ws| == 1 && AllWords(ws)
    ensures Tokens(JoinWords(ws)) == ws
  {
    var w := ws[0];
    assert IsWord(w);
    assert JoinWords(ws) == w;
    TokensOfWordThen(w, "");
    assert w + "" == w;
    assert Tokens("") == [];
    assert [w] == ws;
  }

  lemma TokensOfJoinStep(ws: seq<string>)
    requires |ws| > 1 && AllWords(ws)
    requires Tokens(JoinWords(ws[1..])) == ws[1..]
    ensures Tokens(JoinWords(ws)) == ws
  {
    var w, tail := ws[0], JoinWords(ws[1..]);
    assert IsWord(w) && IsWord(ws[1]);
    JoinStartsWithWord(ws[1..]);
    var spaced := " " + tail;
    assert JoinWords(ws) == w + spaced;
    TokensOfWordThen(w, spaced);
    TokensSkipLeadingSpace(tail);
    assert ws == [w] + ws[1..];
    calc {
      Tokens(JoinWords(ws));
      Tokens(w + spaced);
      [w] + Tokens(spaced);
      [w] + Tokens(tail);
    }
  }

  lemma JoinStartsWithWord(ws: seq<string>)
    requires |ws| > 0 && |ws[0]| > 0
    ensures |JoinWords(ws)| > 0 && JoinWords(ws)[0] == ws[0][0]
  {
  }
}
