/** The opening-handshake handler of the WebSocket server (backend/WEBSOCKET/
    src/HttpHandler.cpp): it parses the client's request line and header
    lines, checks the fields section 4.2.1 of RFC 6455 asks for, and writes
    the 101 response. The accept key (SHA-1 and base64 of the client key)
    is an input here: `Some(text)`, or `None` when the digest fails. */
module HttpHandler {
  import opened Wrappers
  import opened Text

  const SEC_WEBSOCKET_KEY := "Sec-WebSocket-Key"
  const ORIGIN := "Origin"

  /** The parsed request; `headers` is a `std::map`, so one value per key. */
  datatype HttpRequest = HttpRequest(
    requestMethod: string, path: string, version: string,
    headers: map<string, string>, websocketKey: string, origin: string)

  // ---------------------------------------------------------------------
  // Characters and trimming
  // ---------------------------------------------------------------------

  /** `rtrim`: drop the trailing white space. */
  function TrimRight(s: string): (r: string)
    ensures |r| <= |s| && r == s[..|r|]
    ensures AllSpace(s[|r|..])
    ensures |r| > 0 ==> !IsSpace(r[|r| - 1])
    decreases |s|
  {
    if |s| > 0 && IsSpace(s[|s| - 1]) then TrimRight(s[..|s| - 1]) else s
  }

  /** `trim`: right first, then left. */
  function Trim(s: string): (r: string)
    ensures |r| > 0 ==> !IsSpace(r[0]) && !IsSpace(r[|r| - 1])
  {
    TrimLeft(TrimRight(s))
  }

  predicate Trimmed(s: string) {
    |s| > 0 ==> !IsSpace(s[0]) && !IsSpace(s[|s| - 1])
  }

  lemma {:induction false} TrimRightOf(a: string, b: string)
    requires AllSpace(b) && (|a| > 0 ==> !IsSpace(a[|a| - 1]))
    ensures TrimRight(a + b) == a
    decreases |b|
  {
    if |b| > 0 {
      assert (a + b)[..|a + b| - 1] == a + b[..|b| - 1];
      TrimRightOf(a, b[..|b| - 1]);
    } else {
      assert a + b == a;
    }
  }

  /** `trim` strips exactly the white space around a trimmed middle. */
  lemma {:induction false} TrimOf(a: string, m: string, b: string)
    requires AllSpace(a) && AllSpace(b) && Trimmed(m)
    ensures Trim(a + m + b) == m
  {
    if |m| > 0 {
      TrimRightOf(a + m, b);
      TrimLeftOf(a, m);
    } else {
      assert a + m + b == a + b;
      assert AllSpace(a + b);
      TrimRightOf([], a + b);
      assert [] + (a + b) == a + b;
    }
  }

  /** Trimming twice is trimming once. */
  lemma {:induction false} TrimIdempotent(s: string)
    ensures Trim(Trim(s)) == Trim(s)
  {
    TrimOf([], Trim(s), []);
    assert [] + Trim(s) + [] == Trim(s);
  }

  // ---------------------------------------------------------------------
  // Lines and tokens
  // ---------------------------------------------------------------------

  /** What repeated `std::getline` reads: the pieces between newlines,
      without them; a final newline does not start another line, and an
      empty stream has no line at all. */
  function Lines(s: string): (r: seq<string>)
    ensures |r| == 0 <==> |s| == 0
    ensures forall i :: 0 <= i < |r| ==> '\n' !in r[i]
    decreases |s|
  {
    if |s| == 0 then []
    else
      var i := IndexOf(s, '\n');
      if i == |s| then [s] else [s[..i]] + Lines(s[i + 1..])
  }

  /** Lines written out, each followed by a newline. */
  function Unlines(ls: seq<string>): string {
    if |ls| == 0 then "" else ls[0] + "\n" + Unlines(ls[1..])
  }

  /** `getline` reads back the lines written with newline terminators. */
  lemma {:induction false} LinesRoundTrip(ls: seq<string>)
    requires forall i :: 0 <= i < |ls| ==> '\n' !in ls[i]
    ensures Lines(Unlines(ls)) == ls
    decreases |ls|
  {
    if |ls| > 0 {
      var s := Unlines(ls);
      var l := ls[0];
      assert s == l + ("\n" + Unlines(ls[1..]));
      IndexAfter(l, '\n', Unlines(ls[1..]));
      assert s[..|l|] == l && s[|l| + 1..] == Unlines(ls[1..]);
      LinesRoundTrip(ls[1..]);
    }
  }

  /** The length of the run of non-space characters `s` starts with. */
  function WordLength(s: string): (n: nat)
    ensures n <= |s| && forall i :: 0 <= i < n ==> !IsSpace(s[i])
    ensures n < |s| ==> IsSpace(s[n])
    decreases |s|
  {
    if |s| > 0 && !IsSpace(s[0]) then 1 + WordLength(s[1..]) else 0
  }

  /** What repeated `>>` into a string reads: the white-space separated
      words. */
  function Tokens(s: string): seq<string>
    decreases |s|
  {
    var t := TrimLeft(s);
    if |t| == 0 then []
    else
      var n := WordLength(t);
      [t[..n]] + Tokens(t[n..])
  }

  /** A word followed by nothing or by white space is read as one token. */
  lemma {:induction false} TokensOfWord(w: string, rest: string)
    requires IsWord(w) && (|rest| > 0 ==> IsSpace(rest[0]))
    ensures Tokens(w + rest) == [w] + Tokens(rest)
  {
    var s := w + rest;
    assert TrimLeft(s) == s;
    WordRun(w, rest);
    assert s[..|w|] == w && s[|w|..] == rest;
  }

  /** White space before a token is skipped. */
  lemma {:induction false} TokensSkipSpace(c: char, rest: string)
    requires IsSpace(c)
    ensures Tokens([c] + rest) == Tokens(rest)
  {
    assert ([c] + rest)[1..] == rest;
    assert TrimLeft([c] + rest) == TrimLeft(rest);
  }

  lemma {:induction false} WordRun(w: string, rest: string)
    requires IsWord(w) && (|rest| > 0 ==> IsSpace(rest[0]))
    ensures WordLength(w + rest) == |w|
    decreases |w|
  {
    var s := w + rest;
    if |w| > 1 {
      assert s[1..] == w[1..] + rest;
      WordRun(w[1..], rest);
    } else {
      assert s[1..] == rest;
    }
  }

  /** The request line `m p v` followed by `\r`: exactly three tokens. */
  lemma {:induction false} RequestLineTokens(m: string, p: string, v: string)
    requires IsWord(m) && IsWord(p) && IsWord(v)
    ensures Tokens(m + " " + p + " " + v + "\r") == [m, p, v]
  {
    var t3: string := ['\r'];
    var t2 := v + t3;
    var t1 := p + ([' '] + t2);
    var s := m + ([' '] + t1);
    assert m + " " + p + " " + v + "\r" == s;
    ThreeWords(m, p, v, t1, t2, t3);
  }

  lemma {:induction false} ThreeWords(a: string, b: string, c: string, t1: string, t2: string, t3: string)
    requires IsWord(a) && IsWord(b) && IsWord(c)
    requires t3 == ['\r'] && t2 == c + t3 && t1 == b + ([' '] + t2)
    ensures Tokens(a + ([' '] + t1)) == [a, b, c]
  {
    calc {
      Tokens(a + ([' '] + t1));
      { WordThenSpace(a, t1); }
      [a] + Tokens(t1);
      { WordThenSpace(b, t2); }
      [a] + ([b] + Tokens(t2));
      { TokensOfWord(c, t3); }
      [a] + ([b] + ([c] + Tokens(t3)));
      { assert t3 == ['\r'] + []; TokensSkipSpace('\r', []); }
      [a] + ([b] + ([c] + Tokens([])));
      [a, b, c];
    }
  }

  /** A word and a space: the word is one token, the space is skipped. */
  lemma {:induction false} WordThenSpace(w: string, rest: string)
    requires IsWord(w)
    ensures Tokens(w + ([' '] + rest)) == [w] + Tokens(rest)
  {
    TokensOfWord(w, [' '] + rest);
    TokensSkipSpace(' ', rest);
  }

  // ---------------------------------------------------------------------
  // Parsing
  // ---------------------------------------------------------------------

  /** The request before any header line: the three request-line words. */
  function Initial(requestMethod: string, path: string, version: string): HttpRequest {
    HttpRequest(requestMethod, path, version, map[], "", "")
  }

  /** One header: the first key "Sec-WebSocket-Key" or "Origin" whose
      dedicated field is still empty fills it; everything else is stored in
      the map, replacing an earlier value. */
  function Store(req: HttpRequest, key: string, value: string): (r: HttpRequest)
    ensures r.requestMethod == req.requestMethod && r.path == req.path && r.version == req.version
  {
    if |req.websocketKey| == 0 && key == SEC_WEBSOCKET_KEY then req.(websocketKey := value)
    else if |req.origin| == 0 && key == ORIGIN then req.(origin := value)
    else req.(headers := req.headers[key := value])
  }

  /** One header line: split at the first ':', both sides trimmed; a line
      without ':' changes nothing. */
  function HeaderStep(req: HttpRequest, line: string): HttpRequest {
    var colon := IndexOf(line, ':');
    if colon == |line| then req
    else Store(req, Trim(line[..colon]), Trim(line[colon + 1..]))
  }

  /** The header loop: it stops at the end, at a line "\r" or at an empty
      line. */
  function ParseHeaders(req: HttpRequest, lines: seq<string>): (r: HttpRequest)
    ensures r.requestMethod == req.requestMethod && r.path == req.path && r.version == req.version
    decreases |lines|
  {
    if |lines| == 0 || lines[0] == "\r" || lines[0] == "" then req
    else ParseHeaders(HeaderStep(req, lines[0]), lines[1..])
  }

  /** `parseRequest`: nothing when there is no first line or it has fewer
      than three words. */
  function ParseRequest(raw: string): (r: Option<HttpRequest>)
    ensures r.None? <==> |raw| == 0 || |Tokens(Lines(raw)[0])| < 3
    ensures r.Some? ==> var t := Tokens(Lines(raw)[0]);
      r.value.requestMethod == t[0] && r.value.path == t[1] && r.value.version == t[2]
  {
    var lines := Lines(raw);
    if |lines| == 0 then None
    else
      var words := Tokens(lines[0]);
      if |words| < 3 then None
      else Some(ParseHeaders(Initial(words[0], words[1], words[2]), lines[1..]))
  }

  // ---------------------------------------------------------------------
  // What the header loop stores
  // ---------------------------------------------------------------------

  /** The (key, value) pairs the header loop reads, in order. */
  function HeaderPairs(lines: seq<string>): seq<(string, string)>
    decreases |lines|
  {
    if |lines| == 0 || lines[0] == "\r" || lines[0] == "" then []
    else
      var line := lines[0];
      var colon := IndexOf(line, ':');
      if colon == |line| then HeaderPairs(lines[1..])
      else [(Trim(line[..colon]), Trim(line[colon + 1..]))] + HeaderPairs(lines[1..])
  }

  /** Storing the pairs one after the other. */
  function Apply(req: HttpRequest, pairs: seq<(string, string)>): (r: HttpRequest)
    ensures r.requestMethod == req.requestMethod && r.path == req.path && r.version == req.version
    decreases |pairs|
  {
    if |pairs| == 0 then req else Apply(Store(req, pairs[0].0, pairs[0].1), pairs[1..])
  }

  /** The header loop stores exactly the pairs its lines hold. */
  lemma {:induction false} ParseHeadersStores(req: HttpRequest, lines: seq<string>)
    ensures ParseHeaders(req, lines) == Apply(req, HeaderPairs(lines))
    decreases |lines|
  {
    if |lines| > 0 && lines[0] != "\r" && lines[0] != "" {
      ParseHeadersStores(HeaderStep(req, lines[0]), lines[1..]);
    }
  }

  /** The value of the last pair with key `k`. */
  function Lookup(pairs: seq<(string, string)>, k: string): (r: Option<string>)
    decreases |pairs|
  {
    if |pairs| == 0 then None
    else match Lookup(pairs[1..], k)
      case Some(v) => Some(v)
      case None => if pairs[0].0 == k then Some(pairs[0].1) else None
  }

  function Entry(m: map<string, string>, k: string): Option<string> {
    if k in m then Some(m[k]) else None
  }

  function Override(a: Option<string>, b: Option<string>): Option<string> {
    if a.Some? then a else b
  }

  /** Any key other than the two with dedicated fields ends up with its
      last value. */
  lemma {:induction false} LastValueWins(req: HttpRequest, pairs: seq<(string, string)>, k: string)
    requires k != SEC_WEBSOCKET_KEY && k != ORIGIN
    ensures Entry(Apply(req, pairs).headers, k) == Override(Lookup(pairs, k), Entry(req.headers, k))
    decreases |pairs|
  {
    if |pairs| > 0 {
      LastValueWins(Store(req, pairs[0].0, pairs[0].1), pairs[1..], k);
    }
  }

  /** The two headers with a field of their own. */
  datatype Slot = KeySlot | OriginSlot {
    function Name(): string {
      match this
      case KeySlot => SEC_WEBSOCKET_KEY
      case OriginSlot => ORIGIN
    }

    function Of(req: HttpRequest): string {
      match this
      case KeySlot => req.websocketKey
      case OriginSlot => req.origin
    }
  }

  /** The index of the first pair with key `k` and a non-empty value. */
  function FirstFilled(pairs: seq<(string, string)>, k: string): (r: Option<nat>)
    ensures r.Some? ==> r.value < |pairs| && pairs[r.value].0 == k && |pairs[r.value].1| > 0
    ensures r.Some? ==> forall i :: 0 <= i < r.value ==> pairs[i].0 != k || |pairs[i].1| == 0
    ensures r.None? ==> forall i :: 0 <= i < |pairs| ==> pairs[i].0 != k || |pairs[i].1| == 0
    decreases |pairs|
  {
    if |pairs| == 0 then None
    else if pairs[0].0 == k && |pairs[0].1| > 0 then Some(0)
    else match FirstFilled(pairs[1..], k)
      case None => None
      case Some(i) => Some(i + 1)
  }

  /** The dedicated field takes the first non-empty value for its key;
      occurrences before that one (with empty values) only pass through the
      field, and later ones go to the map where the last one wins. */
  predicate SlotOutcome(req: HttpRequest, pairs: seq<(string, string)>, s: Slot, r: HttpRequest) {
    var k := s.Name();
    if |s.Of(req)| > 0 then
      && s.Of(r) == s.Of(req)
      && Entry(r.headers, k) == Override(Lookup(pairs, k), Entry(req.headers, k))
    else match FirstFilled(pairs, k)
      case None => |s.Of(r)| == 0 && Entry(r.headers, k) == Entry(req.headers, k)
      case Some(i) =>
        && s.Of(r) == pairs[i].1
        && Entry(r.headers, k) == Override(Lookup(pairs[i + 1..], k), Entry(req.headers, k))
  }

  lemma {:induction false} DedicatedFields(req: HttpRequest, pairs: seq<(string, string)>, s: Slot)
    ensures SlotOutcome(req, pairs, s, Apply(req, pairs))
    decreases |pairs|
  {
    if |pairs| > 0 {
      var next := Store(req, pairs[0].0, pairs[0].1);
      DedicatedFields(next, pairs[1..], s);
      SlotStep(req, pairs, s, Apply(next, pairs[1..]));
    }
  }

  /** One stored pair carries the outcome of the rest back to the start. */
  lemma {:induction false} SlotStep(req: HttpRequest, pairs: seq<(string, string)>, s: Slot, r: HttpRequest)
    requires |pairs| > 0
    requires SlotOutcome(Store(req, pairs[0].0, pairs[0].1), pairs[1..], s, r)
    ensures SlotOutcome(req, pairs, s, r)
  {
    var k := s.Name();
    if |s.Of(req)| == 0 && FirstFilled(pairs, k).Some? && FirstFilled(pairs, k).value > 0 {
      var i := FirstFilled(pairs, k).value;
      assert FirstFilled(pairs[1..], k) == Some(i - 1);
      assert pairs[1..][i - 1 + 1..] == pairs[i + 1..];
    }
  }

  // ---------------------------------------------------------------------
  // Validation and response
  // ---------------------------------------------------------------------

  /** `validateHeader`: present, with exactly the expected value. */
  predicate HeaderIs(req: HttpRequest, key: string, expected: string) {
    key in req.headers && req.headers[key] == expected
  }

  /** `validateRequest`. */
  predicate ValidateRequest(raw: string) {
    match ParseRequest(raw)
    case None => false
    case Some(req) =>
      && req.requestMethod == "GET"
      && req.version == "HTTP/1.1"
      && HeaderIs(req, "Upgrade", "websocket")
      && HeaderIs(req, "Connection", "Upgrade")
      && HeaderIs(req, "Sec-WebSocket-Version", "13")
      && |req.websocketKey| == 24
  }

  /** The lines `generateResponse` writes, each `<< "\r\n"` ending one
      line with CR before the LF: the status line, the two response
      headers in the map's key order ("Connection" sorts before
      "Upgrade"), the accept header and a blank line. */
  function ResponseLines(req: HttpRequest, accept: string): seq<string> {
    [ req.version + " 101 Switching Protocols\r",
      HeaderLine("Connection", "Upgrade"),
      HeaderLine("Upgrade", "websocket"),
      HeaderLine("Sec-WebSocket-Accept", accept),
      "\r" ]
  }

  /** `generateResponse` given the accept key's outcome; the empty text
      when the key could not be computed. */
  function GenerateResponse(req: HttpRequest, accept: Option<string>): (r: string)
    ensures accept.None? <==> r == ""
  {
    if accept.None? then "" else Unlines(ResponseLines(req, accept.value))
  }

  /** A header line as a client or this server writes it. */
  function HeaderLine(key: string, value: string): string {
    key + ": " + value + "\r"
  }

  // ---------------------------------------------------------------------
  // Messages built from lines
  // ---------------------------------------------------------------------

  function HeaderLines(pairs: seq<(string, string)>): (r: seq<string>)
    ensures |r| == |pairs|
    ensures forall i :: 0 <= i < |r| ==> r[i] == HeaderLine(pairs[i].0, pairs[i].1)
  {
    seq(|pairs|, i requires 0 <= i < |pairs| => HeaderLine(pairs[i].0, pairs[i].1))
  }

  /** A start line, header lines and the blank line, CRLF-terminated. */
  function Message(start: string, pairs: seq<(string, string)>): string {
    Unlines([start + "\r"] + HeaderLines(pairs) + ["\r"])
  }

  /** Keys and values a header line carries unchanged: trimmed, one line,
      and no ':' in the key. */
  predicate PlainPair(key: string, value: string) {
    && |key| > 0 && Trimmed(key) && Trimmed(value)
    && ':' !in key && '\n' !in key && '\n' !in value
  }

  predicate Plain(pairs: seq<(string, string)>) {
    forall i :: 0 <= i < |pairs| ==> PlainPair(pairs[i].0, pairs[i].1)
  }

  lemma {:induction false} HeaderLineReads(key: string, value: string)
    requires |key| > 0 && Trimmed(key) && Trimmed(value) && ':' !in key
    ensures var line := HeaderLine(key, value); var colon := IndexOf(line, ':');
      && line != "\r" && line != "" && colon < |line|
      && Trim(line[..colon]) == key && Trim(line[colon + 1..]) == value
  {
    var line := HeaderLine(key, value);
    assert line == key + [':'] + (" " + value + "\r");
    IndexAfter(key, ':', " " + value + "\r");
    assert line[..|key|] == [] + key + [];
    TrimOf([], key, []);
    assert line[|key| + 1..] == " " + value + "\r";
    TrimOf(" ", value, "\r");
  }

  /** A plain header line is read as its own pair. */
  lemma HeaderPairsCons(key: string, value: string, more: seq<string>)
    requires PlainPair(key, value)
    ensures HeaderPairs([HeaderLine(key, value)] + more) == [(key, value)] + HeaderPairs(more)
  {
    var line := HeaderLine(key, value);
    var lines := [line] + more;
    HeaderLineReads(key, value);
    var colon := IndexOf(line, ':');
    assert lines[0] == line && lines[1..] == more;
    assert (Trim(line[..colon]), Trim(line[colon + 1..])) == (key, value);
  }

  lemma {:induction false} HeaderLinesRead(pairs: seq<(string, string)>, rest: seq<string>)
    requires Plain(pairs)
    ensures HeaderPairs(HeaderLines(pairs) + ["\r"] + rest) == pairs
    decreases |pairs|
  {
    var lines := HeaderLines(pairs) + ["\r"] + rest;
    if |pairs| == 0 {
      assert lines[0] == "\r";
    } else {
      var tail := HeaderLines(pairs[1..]) + ["\r"] + rest;
      assert lines == [HeaderLine(pairs[0].0, pairs[0].1)] + tail;
      assert PlainPair(pairs[0].0, pairs[0].1);
      calc {
        HeaderPairs(lines);
        { HeaderPairsCons(pairs[0].0, pairs[0].1, tail); }
        [pairs[0]] + HeaderPairs(tail);
        { HeaderLinesRead(pairs[1..], rest); }
        [pairs[0]] + pairs[1..];
        pairs;
      }
    }
  }

  /** A request written as a request line and plain header lines parses to
      its three words and the pairs stored in order. */
  lemma RequestRoundTrip(m: string, p: string, v: string, pairs: seq<(string, string)>)
    requires IsWord(m) && IsWord(p) && IsWord(v) && Plain(pairs)
    ensures ParseRequest(Message(m + " " + p + " " + v, pairs)) == Some(Apply(Initial(m, p, v), pairs))
  {
    var start := m + " " + p + " " + v;
    var ls := [start + "\r"] + HeaderLines(pairs) + ["\r"];
    forall i | 0 <= i < |ls|
      ensures '\n' !in ls[i]
    {
      if 0 < i < |ls| - 1 {
        assert ls[i] == pairs[i - 1].0 + (": " + pairs[i - 1].1 + "\r");
      }
    }
    LinesRoundTrip(ls);
    RequestLineTokens(m, p, v);
    assert ls[1..] == HeaderLines(pairs) + ["\r"] + [];
    HeaderLinesRead(pairs, []);
    ParseHeadersStores(Initial(m, p, v), ls[1..]);
  }

  /** The response is a message of the same shape as a request: read with
      the same line and header loop, it gives back its status words and
      its three headers in order. */
  lemma {:induction false} ResponseReadsBack(req: HttpRequest, accept: string)
    requires IsWord(req.version) && Trimmed(accept) && '\n' !in accept
    ensures var ls := Lines(GenerateResponse(req, Some(accept)));
      && |ls| == 5
      && Tokens(ls[0]) == [req.version, "101", "Switching", "Protocols"]
      && HeaderPairs(ls[1..]) == [("Connection", "Upgrade"), ("Upgrade", "websocket"), ("Sec-WebSocket-Accept", accept)]
  {
    var pairs := [("Connection", "Upgrade"), ("Upgrade", "websocket"), ("Sec-WebSocket-Accept", accept)];
    var ls := ResponseLines(req, accept);
    assert ls == [req.version + " 101 Switching Protocols\r"] + HeaderLines(pairs) + ["\r"];
    ResponsePairsPlain(accept);
    ResponseLinesOneLine(req, accept);
    LinesRoundTrip(ls);
    assert ls[1..] == HeaderLines(pairs) + ["\r"] + [];
    HeaderLinesRead(pairs, []);
    StatusLineTokens(req.version);
  }

  lemma {:induction false} ResponsePairsPlain(accept: string)
    requires Trimmed(accept) && '\n' !in accept
    ensures Plain([("Connection", "Upgrade"), ("Upgrade", "websocket"), ("Sec-WebSocket-Accept", accept)])
  {
    PlainLiteral("Connection", "Upgrade");
    PlainLiteral("Upgrade", "websocket");
    PlainLiteral("Sec-WebSocket-Accept", "");
  }

  lemma {:induction false} ResponseLinesOneLine(req: HttpRequest, accept: string)
    requires IsWord(req.version) && '\n' !in accept
    ensures var ls := ResponseLines(req, accept);
      forall i :: 0 <= i < |ls| ==> '\n' !in ls[i]
  {
    var ls := ResponseLines(req, accept);
    assert IsSpace('\n');
    NoNewlineIn(req.version, " 101 Switching Protocols\r");
    NoNewlineIn("Sec-WebSocket-Accept: ", accept + "\r");
    assert ls[3] == "Sec-WebSocket-Accept: " + (accept + "\r");
  }

  lemma {:induction false} NoNewlineIn(a: string, b: string)
    requires '\n' !in a && '\n' !in b
    ensures '\n' !in a + b
  {
  }

  /** The literal keys and values the handshake uses are plain. */
  lemma {:induction false} PlainLiteral(key: string, value: string)
    requires |key| > 0 && key[0] != ' ' && key[|key| - 1] != ' '
    requires forall i :: 0 <= i < |key| ==> 'A' <= key[i] <= 'z' || key[i] == '-'
    requires forall i :: 0 <= i < |value| ==> 'A' <= value[i] <= 'z' || '0' <= value[i] <= '9'
    ensures PlainPair(key, value)
  {
  }

  lemma {:induction false} StatusLineTokens(version: string)
    requires IsWord(version)
    ensures Tokens(version + " 101 Switching Protocols\r") == [version, "101", "Switching", "Protocols"]
  {
    var t3: string := "Protocols" + "\r";
    var t2 := "Switching" + ([' '] + t3);
    var t1 := "101" + ([' '] + t2);
    assert version + " 101 Switching Protocols\r" == version + ([' '] + t1);
    calc {
      Tokens(version + ([' '] + t1));
      { WordThenSpace(version, t1); }
      [version] + Tokens(t1);
      { WordThenSpace("101", t2); }
      [version] + (["101"] + Tokens(t2));
      { WordThenSpace("Switching", t3); }
      [version] + (["101"] + (["Switching"] + Tokens(t3)));
      { TokensOfWord("Protocols", "\r"); assert "\r" == ['\r'] + []; TokensSkipSpace('\r', []); }
      [version] + (["101"] + (["Switching"] + (["Protocols"] + Tokens([]))));
      [version, "101", "Switching", "Protocols"];
    }
  }

  /** The pairs a browser sends, with the given Connection value. */
  function Handshake(connection: string, key: string): seq<(string, string)> {
    [("Upgrade", "websocket"), ("Connection", connection), ("Sec-WebSocket-Key", key), ("Sec-WebSocket-Version", "13")]
  }

  /** What the header loop makes of them. */
  lemma {:induction false} HandshakeStored(path: string, connection: string, key: string)
    requires |key| > 0
    ensures var r := Apply(Initial("GET", path, "HTTP/1.1"), Handshake(connection, key));
      && r.requestMethod == "GET" && r.version == "HTTP/1.1"
      && r.websocketKey == key
      && HeaderIs(r, "Upgrade", "websocket")
      && HeaderIs(r, "Sec-WebSocket-Version", "13")
      && "Connection" in r.headers && r.headers["Connection"] == connection
  {
    var pairs := Handshake(connection, key);
    var r0 := Initial("GET", path, "HTTP/1.1");
    var r1 := Store(r0, "Upgrade", "websocket");
    var r2 := Store(r1, "Connection", connection);
    var r3 := Store(r2, "Sec-WebSocket-Key", key);
    var r4 := Store(r3, "Sec-WebSocket-Version", "13");
    calc {
      Apply(r0, pairs);
      Apply(r1, pairs[1..]);
      { assert pairs[1..][0] == ("Connection", connection); }
      Apply(r2, pairs[2..]);
      { assert pairs[2..][0] == ("Sec-WebSocket-Key", key) && pairs[2..][1..] == pairs[3..]; }
      Apply(r3, pairs[3..]);
      { assert pairs[3..][0] == ("Sec-WebSocket-Version", "13") && pairs[3..][1..] == []; }
      Apply(r4, []);
      r4;
    }
  }

  lemma {:induction false} PlainHandshake(connection: string, key: string)
    requires PlainPair("Connection", connection) && Trimmed(key) && '\n' !in key
    ensures Plain(Handshake(connection, key))
  {
    PlainLiteral("Upgrade", "websocket");
    PlainLiteral("Sec-WebSocket-Key", "");
    assert PlainPair("Sec-WebSocket-Key", key);
    PlainLiteral("Sec-WebSocket-Version", "13");
  }

  /** A browser-style handshake validates. */
  lemma {:induction false} SampleRequestValidates(path: string, key: string)
    requires IsWord(path) && |key| == 24 && Trimmed(key) && '\n' !in key
    ensures ValidateRequest(Message("GET" + " " + path + " " + "HTTP/1.1", Handshake("Upgrade", key)))
  {
    PlainLiteral("Connection", "Upgrade");
    PlainHandshake("Upgrade", key);
    RequestRoundTrip("GET", path, "HTTP/1.1", Handshake("Upgrade", key));
    HandshakeStored(path, "Upgrade", key);
  }

  /** A `Connection` header listing more than one token, as section 4.1 of
      RFC 6455 allows ("keep-alive, Upgrade"), fails the exact match. */
  lemma {:induction false} ConnectionListRejected(path: string, key: string)
    requires IsWord(path) && |key| == 24 && Trimmed(key) && '\n' !in key
    ensures !ValidateRequest(Message("GET" + " " + path + " " + "HTTP/1.1", Handshake("keep-alive, Upgrade", key)))
  {
    assert PlainPair("Connection", "keep-alive, Upgrade");
    PlainHandshake("keep-alive, Upgrade", key);
    RequestRoundTrip("GET", path, "HTTP/1.1", Handshake("keep-alive, Upgrade", key));
    HandshakeStored(path, "keep-alive, Upgrade", key);
  }
}
