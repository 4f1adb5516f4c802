/** The text that HttpBase::send puts on the wire, and what the parser makes of it. */
module HttpWire {
  import opened HttpParsing

  const BUFFER_SIZE: nat := 32 * 1024
  const CRLF := "\r\n"
  const LAST_CHUNK := "0\r\n\r\n"
  const CHUNK_DIGITS: nat := 8

  // ----- Text of a message

  function HexDigitChar(d: nat): (c: char)
    requires d < 16
    ensures IsHexDigit(c) && HexDigitValue(c) == d
  {
    if d < 10 then ('0' as int + d) as char else ('a' as int + d - 10) as char
  }

  /** sprintf("%.*x", k, n) for a number of at most k digits. */
  function HexDigits(n: nat, k: nat): (s: string)
    ensures |s| == k && forall i :: 0 <= i < k ==> IsHexDigit(s[i])
  {
    if k == 0 then "" else HexDigits(n / 16, k - 1) + [HexDigitChar(n % 16)]
  }

  function Chunk(data: string): string {
    HexDigits(|data|, CHUNK_DIGITS) + CRLF + data + CRLF
  }

  function Chunks(chunks: seq<string>): string {
    if chunks == [] then "" else Chunks(chunks[..|chunks| - 1]) + Chunk(chunks[|chunks| - 1])
  }

  function Joined(chunks: seq<string>): string {
    if chunks == [] then "" else Joined(chunks[..|chunks| - 1]) + chunks[|chunks| - 1]
  }

  function HeaderText(h: (string, string)): string {
    h.0 + ": " + h.1 + CRLF
  }

  /** Whether a header is sent at all; a longer one is discarded. */
  predicate Kept(h: (string, string)) {
    |HeaderText(h)| < BUFFER_SIZE - 3
  }

  function HeadersText(hs: seq<(string, string)>): string {
    if hs == [] then ""
    else
      var h := hs[|hs| - 1];
      HeadersText(hs[..|hs| - 1]) + (if Kept(h) then HeaderText(h) else "")
  }

  // ----- Reading back a chunk size

  function Pow16(k: nat): nat {
    if k == 0 then 1 else 16 * Pow16(k - 1)
  }

  lemma {:induction false} HexValueOfDigits(n: nat, k: nat)
    requires n < Pow16(k)
    ensures HexValue(HexDigits(n, k)) == n
  {
    if k > 0 {
      HexValueOfDigits(n / 16, k - 1);
      assert HexDigits(n, k)[..k - 1] == HexDigits(n / 16, k - 1);
    }
  }

  lemma HexPrefixAll(s: string)
    requires forall i :: 0 <= i < |s| ==> IsHexDigit(s[i])
    ensures HexPrefix(s) == |s| && (s != "" ==> SpacePrefix(s) == 0)
  {
  }

  /** strtoul reads the eight digits back, and stops at their end. */
  lemma ChunkSizeReadsBack(n: nat)
    requires n < 0x1_0000_0000
    ensures StrToUL16(HexDigits(n, CHUNK_DIGITS)) == (n, CHUNK_DIGITS)
  {
    var s := HexDigits(n, CHUNK_DIGITS);
    assert Pow16(8) == 0x1_0000_0000;
    HexValueOfDigits(n, CHUNK_DIGITS);
    HexPrefixAll(s);
    assert IsHexDigit(s[0]) && IsHexDigit(s[1]);
    assert s[0..] == s && s[..|s|] == s;
  }

  // ----- Lines

  /** A line and its terminator are processed as the line without its trailing space. */
  lemma LineReads(hooks: Hooks, p: ParserState, line: string, s: string)
    requires p.ReadsLines() && '\n' !in line
    ensures Run(hooks, p, line + CRLF + s) == LineOutcome(hooks, LineStep(hooks, p, TrimRight(line)), s)
  {
    hide Run, LineStep, LineOutcome;
    var whole := line + CRLF + s;
    IndexOfUnique(whole, '\n', |line| + 1);
    RunLine(hooks, p, whole);
    assert whole[..|line| + 1] == line + "\r" && whole[|line| + 2..] == s;
    assert (line + "\r")[..|line|] == line;
    assert TrimRight(line + "\r") == TrimRight(line);
  }

  // ----- The chunked body

  lemma TrimHex(s: string)
    requires s != "" && IsHexDigit(s[|s| - 1])
    ensures TrimRight(s) == s
  {
  }

  lemma ChunkSizeLine(hooks: Hooks, p: ParserState, n: nat, s: string)
    requires p.state == ST_CHUNKSIZE && 0 < n < 0x1_0000_0000
    ensures Run(hooks, p, HexDigits(n, CHUNK_DIGITS) + CRLF + s) ==
            Run(hooks, p.(state := ST_DATA, dataSize := n), s)
  {
    hide Run, StrToUL16, HexDigits;
    var digits := HexDigits(n, CHUNK_DIGITS);
    ChunkSizeReadsBack(n);
    TrimHex(digits);
    LineReads(hooks, p, digits, s);
    PrependTwice([], [], Run(hooks, p.(state := ST_DATA, dataSize := n), s));
  }

  /** One chunk is read back as its data, and the parser is ready for the next one. */
  lemma ChunkReads(hooks: Hooks, p: ParserState, data: string, s: string)
    requires p.state == ST_CHUNKSIZE && p.chunked && 0 < |data| < 0x1_0000_0000
    ensures Run(hooks, p, Chunk(data) + s) == Prepend(BodyOf(data), Run(hooks, p.(dataSize := 0), s))
  {
    hide Run, StrToUL16, HexDigits;
    var n := |data|;
    var q := p.(state := ST_DATA, dataSize := n);
    var after := CRLF + s;
    assert Chunk(data) + s == HexDigits(n, CHUNK_DIGITS) + CRLF + (data + after);
    ChunkSizeLine(hooks, p, n, data + after);
    var rest := data + after;
    assert q.Portion(|rest|) == n && rest[..n] == data && rest[n..] == after;
    RunData(hooks, q, rest);
    RunData(hooks, q.Consume(n), after);
    assert after == "" + CRLF + s;
    LineReads(hooks, q.(state := ST_CHUNKTERM, dataSize := 0), "", s);
    PrependTwice([], [], Run(hooks, p.(dataSize := 0), s));
  }

  /** All chunks together. */
  lemma {:induction false} ChunksRead(hooks: Hooks, p: ParserState, chunks: seq<string>, s: string)
    requires p.state == ST_CHUNKSIZE && p.chunked
    requires forall c :: c in chunks ==> 0 < |c| < 0x1_0000_0000
    ensures Run(hooks, p, Chunks(chunks) + s) ==
            Prepend(BodyOf(Joined(chunks)), Run(hooks, if chunks == [] then p else p.(dataSize := 0), s))
    decreases |chunks|
  {
    hide Run, Chunk;
    if chunks == [] {
      assert "" + s == s;
      PrependTwice([], [], Run(hooks, p, s));
      assert BodyOf("") == [];
    } else {
      var before, last := chunks[..|chunks| - 1], chunks[|chunks| - 1];
      assert Chunks(chunks) + s == Chunks(before) + (Chunk(last) + s);
      ChunksRead(hooks, p, before, Chunk(last) + s);
      var q := if before == [] then p else p.(dataSize := 0);
      ChunkReads(hooks, q, last, s);
      assert Joined(chunks)[..|Joined(before)|] == Joined(before) && Joined(chunks)[|Joined(before)|..] == last;
      BodyOfSplit(Joined(chunks), |Joined(before)|);
      PrependTwice(BodyOf(Joined(before)), BodyOf(last), Run(hooks, p.(dataSize := 0), s));
    }
  }

  lemma ZeroReadsBack()
    ensures StrToUL16("0") == (0, 1) && TrimRight("0") == "0" && TrimRight("") == ""
  {
    var s := "0";
    assert s[0..] == s && s[..1] == s && HexPrefix(s) == 1;
    assert s[..0] == "";
    TrimHex(s);
  }

  /** The empty chunk and the empty trailers end the message, whatever follows. */
  lemma LastChunkReads(hooks: Hooks, p: ParserState, tail: string)
    requires p.state == ST_CHUNKSIZE && p.chunked
    ensures Run(hooks, p, LAST_CHUNK + tail) == Outcome(ParserState(ST_TRAILERS, true, 0), tail, [], Done(HE_NONE))
  {
    hide Run, StrToUL16, TrimRight;
    ZeroReadsBack();
    var rest := CRLF + tail;
    assert LAST_CHUNK + tail == "0" + CRLF + rest;
    LineReads(hooks, p, "0", rest);
    var t := ParserState(ST_TRAILERS, true, 0);
    PrependTwice([], [], Run(hooks, t, rest));
    assert rest == "" + CRLF + tail;
    LineReads(hooks, t, "", tail);
  }

  /** A chunked body is read back exactly, and the parser stops right behind it. */
  lemma ChunkedBodyReads(hooks: Hooks, p: ParserState, chunks: seq<string>, tail: string)
    requires p.state == ST_CHUNKSIZE && p.chunked
    requires forall c :: c in chunks ==> 0 < |c| < 0x1_0000_0000
    ensures Run(hooks, p, Chunks(chunks) + LAST_CHUNK + tail) ==
            Outcome(ParserState(ST_TRAILERS, true, 0), tail, BodyOf(Joined(chunks)), Done(HE_NONE))
  {
    hide Run, BodyOf, Chunks, Joined;
    assert Chunks(chunks) + LAST_CHUNK + tail == Chunks(chunks) + (LAST_CHUNK + tail);
    ChunksRead(hooks, p, chunks, LAST_CHUNK + tail);
    LastChunkReads(hooks, if chunks == [] then p else p.(dataSize := 0), tail);
    assert BodyOf(Joined(chunks)) + [] == BodyOf(Joined(chunks));
  }

  /** A body of announced length is read back exactly. */
  lemma PlainBodyReads(hooks: Hooks, p: ParserState, document: string, tail: string)
    requires p.state == ST_DATA && !p.chunked && p.dataSize == |document| < SIZE_UNKNOWN
    ensures Run(hooks, p, document + tail) == Outcome(p.(dataSize := 0), tail, BodyOf(document), Done(HE_NONE))
  {
    hide Run;
    var whole, n := document + tail, |document|;
    assert whole[..n] == document && whole[n..] == tail && BodyOf("") == [];
    RunData(hooks, p, whole);
    if n > 0 {
      RunData(hooks, p.Consume(n), tail);
      assert BodyOf(document) + [] == BodyOf(document);
    }
  }

  // ----- The headers

  function Trim(s: string): string {
    TrimRight(s)[SpacePrefix(TrimRight(s))..]
  }

  /** A header that can be told from its text: no line break, and no colon in the name. */
  predicate Sendable(h: (string, string)) {
    ':' !in h.0 && '\n' !in h.0 && '\n' !in h.1
  }

  datatype HeadersRead = Accepted(next: ParserState, events: seq<Event>) | Refused

  /** What reading the kept headers one by one does to the parser. */
  function ReadHeaders(hooks: Hooks, p: ParserState, hs: seq<(string, string)>): HeadersRead {
    if hs == [] then Accepted(p, [])
    else
      match ReadHeaders(hooks, p, hs[..|hs| - 1])
      case Refused => Refused
      case Accepted(q, events) =>
        var h := hs[|hs| - 1];
        if !Kept(h) then Accepted(q, events)
        else
          var effect := HeaderFields(hooks, q, h.0, Trim(h.1));
          if effect.flow.Continue? then Accepted(effect.next, events + effect.events) else Refused
  }

  lemma TrimRightKeeps(a: string, b: string)
    requires TrimRight(b) != ""
    ensures TrimRight(a + b) == a + TrimRight(b)
  {
    var n := |TrimRight(b)|;
    TrimRightUnique(a + b, |a| + n);
    assert (a + b)[..|a| + n] == a + b[..n];
  }

  lemma TrimRightDrops(a: string, b: string)
    requires TrimRight(b) == ""
    ensures TrimRight(a + b) == TrimRight(a)
  {
    TrimRightUnique(a + b, |TrimRight(a)|);
    assert (a + b)[..|TrimRight(a)|] == TrimRight(a);
  }

  lemma TrimmedHeaderLine(h: (string, string))
    ensures var line := TrimRight(h.0 + ": " + h.1);
            && |h.0| < |line| && line[..|h.0|] == h.0 && line[|h.0|] == ':'
            && line[|h.0| + 1..][SpacePrefix(line[|h.0| + 1..])..] == Trim(h.1)
  {
    hide TrimRight, SpacePrefix;
    var start, v := h.0 + ": ", TrimRight(h.1);
    if v == "" {
      TrimRightDrops(start, h.1);
      TrimStart(h.0);
      SpacePrefixUnique("", 0);
    } else {
      TrimRightKeeps(start, h.1);
      var line := start + v;
      var i := SpacePrefix(v);
      SpaceThen(v);
      assert line[|h.0| + 1..] == " " + v;
      assert (" " + v)[1 + i..] == v[i..];
    }
  }

  lemma TrimStart(name: string)
    ensures TrimRight(name + ": ") == name + ":"
  {
    var start := name + ": ";
    TrimRightUnique(start, |name| + 1);
    assert start[..|name| + 1] == name + ":";
  }

  lemma SpaceThen(v: string)
    ensures SpacePrefix(" " + v) == 1 + SpacePrefix(v)
  {
    assert (" " + v)[1..] == v;
  }

  /** The line of a header splits into its name and its trimmed value. */
  lemma HeaderLineReads(hooks: Hooks, p: ParserState, h: (string, string))
    requires Sendable(h)
    ensures var line := TrimRight(h.0 + ": " + h.1);
            line != "" && HeaderLine(hooks, p, line) == HeaderFields(hooks, p, h.0, Trim(h.1))
  {
    hide HeaderFields;
    TrimmedHeaderLine(h);
    var line := TrimRight(h.0 + ": " + h.1);
    IndexOfUnique(line, ':', |h.0|);
  }

  lemma {:induction false} HeadersReadBack(hooks: Hooks, p: ParserState, hs: seq<(string, string)>, s: string)
    requires p.state == ST_HEADERS && forall h :: h in hs ==> Sendable(h)
    requires ReadHeaders(hooks, p, hs).Accepted?
    ensures var r := ReadHeaders(hooks, p, hs);
            && r.next.state == ST_HEADERS
            && Run(hooks, p, HeadersText(hs) + s) == Prepend(r.events, Run(hooks, r.next, s))
    decreases |hs|
  {
    hide Run, HeaderFields, Trim, HeaderLine, BlankHeaderLine;
    if hs == [] {
      assert "" + s == s;
      PrependTwice([], [], Run(hooks, p, s));
    } else {
      var before, h := hs[..|hs| - 1], hs[|hs| - 1];
      var q := ReadHeaders(hooks, p, before);
      if !Kept(h) {
        assert HeadersText(hs) == HeadersText(before);
        HeadersReadBack(hooks, p, before, s);
      } else {
        var text := h.0 + ": " + h.1;
        assert HeadersText(hs) + s == HeadersText(before) + (text + CRLF + s);
        HeadersReadBack(hooks, p, before, text + CRLF + s);
        HeaderLineReads(hooks, q.next, h);
        LineReads(hooks, q.next, text, s);
        var effect := HeaderFields(hooks, q.next, h.0, Trim(h.1));
        PrependTwice(q.events, effect.events, Run(hooks, effect.next, s));
      }
    }
  }

  // ----- The whole message

  /** Whether a receiver accepts the leader and the headers, and which body it then expects. */
  function ReadPreamble(hooks: Hooks, leader: string, hs: seq<(string, string)>): HeadersRead {
    if hooks.parseLeader(TrimRight(leader)) != HE_NONE then Refused
    else
      match ReadHeaders(hooks, RESET_STATE.(state := ST_HEADERS), hs)
      case Refused => Refused
      case Accepted(q, events) =>
        var effect := BlankHeaderLine(hooks, q);
        if effect.flow.Finish? then Refused
        else Accepted(effect.next, [Leader(TrimRight(leader))] + events + effect.events)
  }

  function PreambleText(leader: string, hs: seq<(string, string)>): string {
    leader + CRLF + HeadersText(hs) + CRLF
  }

  /** A preamble is read back as its leader and its kept headers, with their values trimmed. */
  lemma PreambleReads(hooks: Hooks, leader: string, hs: seq<(string, string)>, s: string)
    requires '\n' !in leader && forall h :: h in hs ==> Sendable(h)
    requires ReadPreamble(hooks, leader, hs).Accepted?
    ensures var r := ReadPreamble(hooks, leader, hs);
            Run(hooks, RESET_STATE, PreambleText(leader, hs) + s) == Prepend(r.events, Run(hooks, r.next, s))
  {
    hide Run, HeadersText, ReadHeaders, BlankHeaderLine;
    var p := RESET_STATE.(state := ST_HEADERS);
    var r := ReadHeaders(hooks, p, hs);
    var t1 := HeadersText(hs) + (CRLF + s);
    assert PreambleText(leader, hs) + s == leader + CRLF + t1;
    LineReads(hooks, RESET_STATE, leader, t1);
    HeadersReadBack(hooks, p, hs, CRLF + s);
    assert CRLF + s == "" + CRLF + s;
    LineReads(hooks, r.next, "", s);
    var effect := BlankHeaderLine(hooks, r.next);
    PrependTwice(r.events, effect.events, Run(hooks, effect.next, s));
    PrependTwice([Leader(TrimRight(leader))], r.events + effect.events, Run(hooks, effect.next, s));
    assert [Leader(TrimRight(leader))] + (r.events + effect.events) ==
           [Leader(TrimRight(leader))] + r.events + effect.events;
  }
}
