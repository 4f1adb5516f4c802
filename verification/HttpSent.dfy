/** What HttpBase::send puts on the wire, as one of the shapes of a message that `HttpGrammar` tells
    apart: its lines, the sizes of its chunks, and its end. */
module HttpSent {

  import opened HttpParsing
  import opened HttpWire
  import opened HttpPump
  import G = HttpGrammar

  /** The headers that are sent, each on a line of its own.  A header whose line would fill the buffer
      of 32768 characters is discarded. */
  function HeaderLines(headers: seq<(string, string)>): seq<string> {
    if headers == [] then []
    else
      var h := headers[|headers| - 1];
      HeaderLines(headers[..|headers| - 1]) +
      (if |h.0| + |h.1| + 4 < 32765 then [h.0 + ": " + h.1 + "\r"] else [])
  }

  lemma {:induction false} HeaderLinesAre(headers: seq<(string, string)>)
    ensures HeadersText(headers) == G.Lines(HeaderLines(headers))
    decreases |headers|
  {
    hide HeaderText, G.Lines;
    if headers == [] {
      NoLines();
    } else {
      var before, h := headers[..|headers| - 1], headers[|headers| - 1];
      HeaderLinesAre(before);
      HeaderLineIs(h);
      LinesMore(HeaderLines(before), h.0 + ": " + h.1 + "\r");
      assert HeaderLines(before) + [] == HeaderLines(before) && HeadersText(before) + "" == HeadersText(before);
    }
  }

  lemma HeaderLineIs(h: (string, string))
    ensures HeaderText(h) == G.Line(h.0 + ": " + h.1 + "\r") && |HeaderText(h)| == |h.0| + |h.1| + 4
  {
  }

  lemma NoLines()
    ensures G.Lines([]) == ""
  {
  }

  lemma LinesMore(ls: seq<string>, l: string)
    ensures G.Lines(ls + [l]) == G.Lines(ls) + G.Line(l)
  {
    assert (ls + [l])[..|ls|] == ls;
  }

  /** The body comes in chunks if the first Transfer-Encoding says exactly "chunked". */
  ghost predicate SaysChunked(headers: seq<(string, string)>) {
    exists i :: 0 <= i < |headers| && headers[i].1 == "chunked" && FirstCoding(headers, i)
  }

  predicate FirstCoding(headers: seq<(string, string)>, i: nat)
    requires i < |headers|
  {
    && EqualIgnoringCase(headers[i].0, "Transfer-Encoding")
    && forall j :: 0 <= j < i ==> !EqualIgnoringCase(headers[j].0, "Transfer-Encoding")
  }

  lemma {:induction false} ChunkingIs(headers: seq<(string, string)>)
    ensures WantsChunks(headers) <==> SaysChunked(headers)
  {
    hide EqualIgnoringCase;
    if headers != [] {
      ChunkingIs(headers[1..]);
      if EqualIgnoringCase(headers[0].0, "Transfer-Encoding") {
        if WantsChunks(headers) {
          assert FirstCoding(headers, 0);
        }
      } else {
        if SaysChunked(headers[1..]) {
          var i :| 0 <= i < |headers[1..]| && headers[1..][i].1 == "chunked" && FirstCoding(headers[1..], i);
          forall j | 0 <= j < i + 1 ensures !EqualIgnoringCase(headers[j].0, "Transfer-Encoding") {
            assert j > 0 ==> headers[j] == headers[1..][j - 1];
          }
          assert headers[i + 1] == headers[1..][i] && FirstCoding(headers, i + 1);
        }
        if SaysChunked(headers) {
          var i :| 0 <= i < |headers| && headers[i].1 == "chunked" && FirstCoding(headers, i);
          assert i > 0 && headers[1..][i - 1] == headers[i];
          assert forall j :: 0 <= j < i - 1 ==> headers[1..][j] == headers[j + 1];
          assert FirstCoding(headers[1..], i - 1);
        }
      }
    }
  }

  // ----- Chunks

  /** A chunk as it is sent: eight lower-case digits, which are the length of the data. */
  ghost predicate IsChunk(x: G.Piece, data: string) {
    && |x.size| == 9 && x.size[8] == '\r' && x.term == "\r" && x.data == data
    && (forall i :: 0 <= i < 8 ==> x.size[i] in "0123456789abcdef")
    && G.AllHex(x.size[..8]) && G.HexNumber(x.size[..8]) == |data|
  }

  lemma DigitChar(d: nat)
    requires d < 16
    ensures HexDigitChar(d) in "0123456789abcdef"
  {
    var s := "0123456789abcdef";
    assert s[d] as int == if d < 10 then '0' as int + d else 'a' as int + d - 10;
    assert HexDigitChar(d) == s[d];
  }

  lemma {:induction false} DigitsLower(n: nat, k: nat)
    ensures forall i :: 0 <= i < k ==> HexDigits(n, k)[i] in "0123456789abcdef"
    decreases k
  {
    if k > 0 {
      DigitsLower(n / 16, k - 1);
      DigitChar(n % 16);
    }
  }

  lemma ChunkIs(data: string) returns (x: G.Piece)
    requires |data| < 0x1_0000_0000
    ensures IsChunk(x, data) && Chunk(data) == x.Text()
  {
    hide HexDigits, HexValue, G.HexNumber;
    var digits := HexDigits(|data|, CHUNK_DIGITS);
    x := G.Piece(digits + "\r", data, "\r");
    assert x.size[..8] == digits;
    assert Pow16(8) == 0x1_0000_0000;
    DigitsLower(|data|, 8);
    HexValueOfDigits(|data|, 8);
    G.HexNumberIs(digits);
  }

  ghost predicate AreChunks(xs: seq<G.Piece>, portions: seq<string>) {
    |xs| == |portions| && forall i :: 0 <= i < |xs| ==> IsChunk(xs[i], portions[i])
  }

  lemma {:induction false} ChunksAre(portions: seq<string>) returns (xs: seq<G.Piece>)
    requires forall i :: 0 <= i < |portions| ==> |portions[i]| < 0x1_0000_0000
    ensures AreChunks(xs, portions) && Chunks(portions) == G.PiecesText(xs)
    decreases |portions|
  {
    hide IsChunk, Chunk;
    xs := [];
    if portions != [] {
      var n := |portions| - 1;
      var before := ChunksAre(portions[..n]);
      var x := ChunkIs(portions[n]);
      xs := before + [x];
      assert xs[..n] == before && xs[n] == x;
    }
  }

  // ----- The message

  /** The whole text of a message: leader, headers, a blank line, and the document; in chunks it ends
      with a chunk of size 0 and no trailers. */
  ghost predicate IsText(data: HttpData, portions: seq<string>, text: string, xs: seq<G.Piece>) {
    var start := G.Preamble(data.leader + "\r", HeaderLines(data.headers), "\r");
    if data.document.None? then text == start.Text()
    else if SaysChunked(data.headers) then
      AreChunks(xs, portions) && text == start.Text() + G.PiecesText(xs) + "0\r\n\r\n"
    else text == start.Text() + Joined(portions)
  }

  lemma StartIs(data: HttpData)
    requires |data.leader| + (if data.headers == [] then 4 else 2) < 32768
    ensures Opening(data) + HeadersText(data.headers) + Separator(data) ==
            G.Preamble(data.leader + "\r", HeaderLines(data.headers), "\r").Text()
  {
    hide HeadersText, HeaderLines, G.Lines;
    HeaderLinesAre(data.headers);
    var line := data.leader + CRLF;
    assert CRLF[..2] == CRLF && line[..|line|] == line && G.Line(data.leader + "\r") == line && G.Line("\r") == CRLF;
  }

  /** For a leader that fits into the buffer, what is queued for the whole message is its text. */
  lemma SentText(data: HttpData, portions: seq<string>) returns (xs: seq<G.Piece>)
    requires |data.leader| + (if data.headers == [] then 4 else 2) < 32768
    requires forall i :: 0 <= i < |portions| ==> |portions[i]| < 0x1_0000_0000
    ensures IsText(data, portions, QueuedText(data, |data.headers|, true, portions, true), xs)
  {
    hide Opening, HeadersText, Separator, HeaderLines, WantsChunks, SaysChunked, Chunks, Joined, AreChunks, G.PiecesText;
    xs := ChunksAre(portions);
    ChunkingIs(data.headers);
    StartIs(data);
    assert data.headers[..|data.headers|] == data.headers;
    var start := G.Preamble(data.leader + "\r", HeaderLines(data.headers), "\r").Text();
    assert start + (G.PiecesText(xs) + LAST_CHUNK) == start + G.PiecesText(xs) + LAST_CHUNK;
    assert start + "" == start;
  }

  /** Such a message is one of the endings of the grammar, for every receiver that accepts its leader,
      its headers and its framing. */
  lemma SentIsMessage(hooks: Hooks, data: HttpData, portions: seq<string>, xs: seq<G.Piece>)
    requires data.document.Some? && SaysChunked(data.headers) && AreChunks(xs, portions)
    requires forall i :: 0 <= i < |portions| ==> 0 < |portions[i]| < 0x1_0000_0000
    requires var start := G.Preamble(data.leader + "\r", HeaderLines(data.headers), "\r");
             G.GoodPreamble(hooks, start) && G.IsChunked(hooks, start.headers)
    ensures var start := G.Preamble(data.leader + "\r", HeaderLines(data.headers), "\r");
            var x := G.Chunked(start, xs, "0\r", [], "\r");
            G.IsEnding(hooks, x) && x.Text() == start.Text() + G.PiecesText(xs) + "0\r\n\r\n"
  {
    hide HeaderLines, SaysChunked, G.GoodPreamble, G.IsChunked, G.PiecesText;
    forall i | 0 <= i < |xs| ensures G.GoodPiece(xs[i]) {
      assert IsChunk(xs[i], portions[i]);
      PieceIsGood(xs[i], portions[i]);
    }
    ZeroLine();
    var start := G.Preamble(data.leader + "\r", HeaderLines(data.headers), "\r");
    var before := start.Text() + G.PiecesText(xs);
    assert before + "0\r\n" + "" + "\r\n" == before + "0\r\n\r\n";
  }

  lemma PieceIsGood(x: G.Piece, data: string)
    requires IsChunk(x, data) && 0 < |data| < 0x1_0000_0000
    ensures G.GoodPiece(x)
  {
    hide G.HexNumber, G.AllHex;
    var digits := x.size[..8];
    assert x.size == digits + "\r";
    HexEndsLine(digits);
    var n := G.Numeral("", "", "", digits);
    assert n.Text() == digits && n.Proper() && n.Value() == |data|;
  }

  lemma HexEndsLine(digits: string)
    requires G.AllHex(digits) && digits != ""
    ensures '\n' !in digits && TrimRight(digits + "\r") == digits
  {
    TrimHex(digits);
    assert (digits + "\r")[..|digits|] == digits;
  }

  lemma ZeroLine()
    ensures G.SizeLine("0\r", 0) && G.Blank("\r") && G.Lines([]) == "" && G.Trailers([])
  {
    hide G.HexNumber, TrimRight;
    HexEndsLine("0");
    assert "0" + "\r" == "0\r";
    ZeroNumeral();
  }

  lemma ZeroNumeral()
    ensures G.IsNumber("0", 0)
  {
    var n := G.Numeral("", "", "", "0");
    assert "0"[1..] == "";
    assert G.HexNumber("0") == 0;
    assert n.Proper() && n.Text() == "0" && n.Value() == 0;
  }
}
