/** HttpBase of webrtc/base/httpbase.cc: one buffer, shared by a sender that packs headers and body
    portions into it and a receiver that parses what arrives in it.

    Streams, documents and the owner are the environment.  Their answers are the parameters of the
    methods: a call is proved for every script of answers.  A script of network writes that is used
    up means that the run is observed up to that write and no further. */
module HttpPump {
  import opened HttpParsing
  import opened HttpWire

  datatype HttpMode = HM_NONE | HM_CONNECT | HM_RECV | HM_SEND

  /** Leader, headers, and the document to send; a receiver only asks whether there is a document. */
  datatype HttpData = HttpData(leader: string, headers: seq<(string, string)>, document: Option<string>)

  /** What the document answers to a read: up to `k` characters, nothing yet, or an error.  At its
      end it answers a read with the end of the stream. */
  datatype DocStep = DocReady(k: nat) | DocBlocked | DocFailed

  /** What the network answers to a write: it takes up to `k` characters, blocks, or fails. */
  datatype NetStep = NetTakes(k: nat) | NetBlocked | NetFailed(code: int)

  /** What the network answers to a read. */
  datatype ReadStep = Arrive(data: string) | ReadBlocked | ReadEos | ReadFailed(code: int)

  datatype Script = Script(docs: seq<DocStep>, writes: seq<NetStep>, arrivals: seq<ReadStep>, takes: seq<seq<TakeStep>>)

  /** The document takes nothing. */
  predicate NothingTaken(takes: seq<seq<TakeStep>>) {
    forall t :: t in takes ==> !Takes(t)
  }

  predicate DocumentFails(takes: seq<seq<TakeStep>>) {
    exists t :: t in takes && TakeFailed in t
  }

  /** The document takes something each time, as long as there is anything in the buffer. */
  predicate AlwaysTakes(takes: seq<TakeStep>) {
    |takes| >= 32768 && forall t :: t in takes ==> t.Take?
  }

  /** The same for all turns of the receive loop. */
  predicate DocumentTakes(takes: seq<seq<TakeStep>>) {
    |takes| >= 21 && forall t :: t in takes ==> AlwaysTakes(t)
  }

  /** Only data arrives, no more than one call reads, and no more than there is room for. */
  predicate ReadsAll(arrivals: seq<ReadStep>, room: nat) {
    && (forall a :: a in arrivals ==> a.Arrive?)
    && |arrivals| <= 21 && |AllArrived(arrivals)| <= room
  }

  function AllArrived(arrivals: seq<ReadStep>): string {
    if arrivals == [] then ""
    else
      var last := arrivals[|arrivals| - 1];
      AllArrived(arrivals[..|arrivals| - 1]) + (if last.Arrive? then last.data else "")
  }

  lemma {:induction false} PartArrived(arrivals: seq<ReadStep>, n: nat)
    requires n <= |arrivals|
    ensures AllArrived(arrivals[..n]) <= AllArrived(arrivals)
    decreases |arrivals|
  {
    var m := |arrivals| - 1;
    if n == |arrivals| {
      assert arrivals[..n] == arrivals;
    } else {
      PartArrived(arrivals[..m], n);
      assert arrivals[..m][..n] == arrivals[..n];
    }
  }

  /** What one more turn of the receive loop reads. */
  lemma NextArrived(arrivals: seq<ReadStep>, room: nat, n: nat)
    requires ReadsAll(arrivals, room) && n < |arrivals|
    ensures arrivals[n].Arrive? && AllArrived(arrivals[..n + 1]) == AllArrived(arrivals[..n]) + arrivals[n].data
    ensures |AllArrived(arrivals[..n])| + |arrivals[n].data| <= room
  {
    assert arrivals[n] in arrivals && arrivals[..n + 1][..n] == arrivals[..n];
    PartArrived(arrivals, n + 1);
  }

  /** What has been read when there was `room` in the buffer: the first of the data as far as it goes,
      and nothing without arrivals. */
  predicate HasRead(arrivals: seq<ReadStep>, before: string, room: nat, now: string) {
    && before <= now && (arrivals == [] ==> now == before)
    && (arrivals != [] && arrivals[0].Arrive? && room > 0 ==>
          var first := before + Received(arrivals[0].data, room);
          first <= now && (|arrivals| == 1 ==> now == first))
  }

  /** The same in the course of the receive loop, after `n` turns. */
  predicate ReadSoFar(n: nat, arrivals: seq<ReadStep>, before: string, room: nat, now: string) {
    && (if n == 0 then now == before else HasRead(arrivals, before, room, now))
    && (ReadsAll(arrivals, room) ==> now == before + AllArrived(arrivals[..if n < |arrivals| then n else |arrivals|]))
  }

  lemma ReadsOn(n: nat, arrivals: seq<ReadStep>, before: string, room: nat, now: string, free: nat, next: string)
    requires ReadSoFar(n, arrivals, before, room, now)
    requires |before| + room <= free + |now| && (n == 0 ==> free == room)
    requires next == if free > 0 && n < |arrivals| && arrivals[n].Arrive? then now + Received(arrivals[n].data, free) else now
    ensures ReadSoFar(n + 1, arrivals, before, room, next)
  {
    hide AllArrived;
    if ReadsAll(arrivals, room) && n < |arrivals| {
      hide ReadsAll;
      NextArrived(arrivals, room, n);
      var data := arrivals[n].data;
      assert |data| <= free ==> Received(data, free) == data;
      assert before + (AllArrived(arrivals[..n]) + data) == (before + AllArrived(arrivals[..n])) + data;
      assert now + "" == now;
    }
  }

  lemma ReadAll(n: nat, arrivals: seq<ReadStep>, before: string, room: nat, now: string)
    requires ReadSoFar(n, arrivals, before, room, now)
    ensures ReadsAll(arrivals, room) && (n >= |arrivals| || n > MAX_READ_COUNT) ==> now == before + AllArrived(arrivals)
  {
    hide AllArrived;
    assert arrivals[..|arrivals|] == arrivals;
  }

  lemma NothingRead(arrivals: seq<ReadStep>, before: string, room: nat)
    ensures ReadSoFar(0, arrivals, before, room, before)
  {
    assert arrivals[..0] == [] && before + "" == before;
  }

  predicate StreamEnds(arrivals: seq<ReadStep>) {
    exists a :: a in arrivals && (a.ReadEos? || a.ReadFailed?)
  }

  /** What a read gives that has room for `room` characters. */
  function Received(data: string, room: nat): string {
    data[..Least(|data|, room)]
  }

  datatype StreamEvents = StreamEvents(open: bool, read: bool, write: bool, close: bool)

  /** Why the receive loop asks for completion. */
  datatype Ending = Parsed | DocumentFailed | Overflow | Closed(code: int)

  /** What it means for a reception to end with `error`: `log` are the callbacks made for `arrived`, and
      the parser has stopped with the fields `at` in front of `rest`. */
  ghost predicate Ended(hooks: Hooks, arrived: string, log: seq<Event>, at: ParserState, rest: string, why: Ending, error: HttpError) {
    if why.Parsed? then Run(hooks, RESET_STATE, arrived) == Outcome(at, rest, log, Done(error))
    else
      && |rest| <= |arrived| && Run(hooks, RESET_STATE, arrived) == Prepend(log, Run(hooks, at, rest))
      && match why
         case Overflow => error == HE_OVERFLOW && |rest| == BUFFER_SIZE && at.ReadsLines() && Waits(at, rest)
         case Closed(code) => error == StreamError(HM_RECV, at, code) && (NeverSwitches(hooks) ==> Settled(at, rest))
         case _ => error == HE_STREAM
  }

  /** Everything that has arrived is processed, or there are body characters left. */
  predicate Settled(at: ParserState, rest: string) {
    Waits(at, rest) || BodyLeft(at, rest)
  }

  /** The result of HandleStreamClose. */
  function StreamError(mode: HttpMode, at: ParserState, code: int): HttpError {
    if code == 0 then
      if mode == HM_RECV && at.state == ST_DATA && at.dataSize == SIZE_UNKNOWN then HE_NONE else HE_DISCONNECTED
    else if code == SOCKET_EACCES then HE_AUTH
    else if code == SEC_E_CERT_EXPIRED then HE_CERTIFICATE_EXPIRED
    else if mode == HM_CONNECT then HE_CONNECT_FAILED else HE_SOCKET_ERROR
  }

  /** How a turn of the receive loop ends. */
  datatype Turn = GoOn | GiveUp | Finished

  /** The errors of a close, code by code: 13 is SOCKET_EACCES, and 0x80090328 says that a certificate
      has expired.  Only the end of a body without a length is no error. */
  lemma ErrorsOfClose(mode: HttpMode, at: ParserState, code: int)
    ensures code == 0 ==>
              StreamError(mode, at, code) ==
              if mode == HM_RECV && at.state == ST_DATA && at.dataSize == 0xFFFF_FFFF_FFFF_FFFF then HE_NONE else HE_DISCONNECTED
    ensures code == 13 ==> StreamError(mode, at, code) == HE_AUTH
    ensures code == 0x8009_0328 - 0x1_0000_0000 ==> StreamError(mode, at, code) == HE_CERTIFICATE_EXPIRED
    ensures code != 0 && code != 13 && code != 0x8009_0328 - 0x1_0000_0000 ==>
              StreamError(mode, at, code) == if mode == HM_CONNECT then HE_CONNECT_FAILED else HE_SOCKET_ERROR
  {
  }

  /** How an attempt to queue document data ends. */
  datatype BodyOutcome = Queued | SendNow | Drained | ReadError

  const SOCKET_EACCES := 13
  const SEC_E_CERT_EXPIRED := -2146893016
  const MAX_READ_COUNT: nat := 20

  function Least(a: nat, b: nat): nat {
    if a < b then a else b
  }

  // ----- The text a message stands for

  /** hasHeader(HH_TRANSFER_ENCODING, &e) && e == "chunked" */
  predicate WantsChunks(headers: seq<(string, string)>) {
    headers != [] &&
    if EqualIgnoringCase(headers[0].0, "Transfer-Encoding") then headers[0].1 == "chunked"
    else WantsChunks(headers[1..])
  }

  /** The leader line as it fits: formatLeader and strcpyn leave room for a final zero. */
  function Opening(data: HttpData): string {
    var line := data.leader + CRLF;
    line[..Least(|line|, BUFFER_SIZE - 1)]
  }

  lemma OpeningFits(data: HttpData)
    ensures |Opening(data)| < BUFFER_SIZE
  {
  }

  /** The line break that ends the headers; without headers it follows the leader directly, and
      may not fit. */
  function Separator(data: HttpData): string {
    if data.headers == [] then CRLF[..Least(2, BUFFER_SIZE - 1 - |Opening(data)|)] else CRLF
  }

  function BodyText(data: HttpData, portions: seq<string>, terminated: bool): string {
    if data.document.None? then ""
    else if !WantsChunks(data.headers) then Joined(portions)
    else Chunks(portions) + (if terminated then LAST_CHUNK else "")
  }

  /** Everything queued once `header` headers and these portions of the document are. */
  function QueuedText(data: HttpData, header: nat, ended: bool, portions: seq<string>, terminated: bool): string
    requires header <= |data.headers|
  {
    Opening(data) + HeadersText(data.headers[..header]) + (if ended then Separator(data) else "") +
    BodyText(data, portions, terminated)
  }

  /** Whether the body is still to come: nothing of it is queued, not even its terminator. */
  predicate BodyUntouched(data: HttpData, portions: seq<string>, terminated: bool) {
    portions == [] && (data.document.Some? && WantsChunks(data.headers) ==> !terminated)
  }

  lemma QueuedHeader(data: HttpData, header: nat, portions: seq<string>, terminated: bool)
    requires header < |data.headers| && BodyUntouched(data, portions, terminated)
    ensures QueuedText(data, header + 1, false, portions, terminated) ==
            QueuedText(data, header, false, portions, terminated) +
            (if Kept(data.headers[header]) then HeaderText(data.headers[header]) else "")
  {
    assert data.headers[..header + 1][..header] == data.headers[..header];
    assert BodyText(data, portions, terminated) == "";
  }

  lemma QueuedEnd(data: HttpData, portions: seq<string>, terminated: bool)
    requires BodyUntouched(data, portions, terminated)
    ensures QueuedText(data, |data.headers|, true, portions, terminated) ==
            QueuedText(data, |data.headers|, false, portions, terminated) + Separator(data)
  {
    assert BodyText(data, portions, terminated) == "";
  }

  lemma BodyMore(data: HttpData, portions: seq<string>, portion: string, terminated: bool)
    requires data.document.Some? && (WantsChunks(data.headers) ==> !terminated)
    ensures BodyText(data, portions + [portion], terminated) ==
            BodyText(data, portions, terminated) + (if WantsChunks(data.headers) then Chunk(portion) else portion)
  {
    hide Chunk, WantsChunks;
    var more := portions + [portion];
    assert more[..|portions|] == portions && more[|portions|] == portion;
  }

  /** One more portion of the document. */
  lemma QueuedPortion(data: HttpData, portions: seq<string>, portion: string, terminated: bool)
    requires data.document.Some? && (WantsChunks(data.headers) ==> !terminated)
    ensures QueuedText(data, |data.headers|, true, portions + [portion], terminated) ==
            QueuedText(data, |data.headers|, true, portions, terminated) +
            (if WantsChunks(data.headers) then Chunk(portion) else portion)
  {
    hide Chunk, Opening, HeadersText, Separator, WantsChunks, BodyText;
    BodyMore(data, portions, portion, terminated);
  }

  lemma QueuedLast(data: HttpData, portions: seq<string>)
    requires data.document.Some? && WantsChunks(data.headers)
    ensures QueuedText(data, |data.headers|, true, portions, true) ==
            QueuedText(data, |data.headers|, true, portions, false) + LAST_CHUNK
  {
    hide Chunks, Opening, HeadersText, Separator;
  }

  lemma JoinedMore(portions: seq<string>, portion: string)
    ensures Joined(portions + [portion]) == Joined(portions) + portion
  {
    assert (portions + [portion])[..|portions|] == portions;
  }

  /** The text was copied to position `at`. */
  ghost predicate Placed(before: string, after: string, at: nat, text: string) {
    && |after| == |before| && at + |text| <= |before|
    && forall i :: 0 <= i < |before| ==> after[i] == if at <= i < at + |text| then text[i - at] else before[i]
  }

  lemma PlacedThere(before: string, after: string, at: nat, text: string)
    requires Placed(before, after, at, text)
    ensures |after| == |before| && after[at..at + |text|] == text
  {
  }

  lemma PlacedElsewhere(before: string, after: string, at: nat, text: string, i: nat, j: nat)
    requires Placed(before, after, at, text) && i <= j <= |before| && (j <= at || at + |text| <= i)
    ensures |after| == |before| && after[i..j] == before[i..j]
  {
  }

  /** Length, data and line breaks, copied in the order of flush_data, make a chunk. */
  lemma ChunkPlaced(b0: string, b1: string, b2: string, b3: string, b4: string, at: nat, size: string, data: string)
    requires |size| == CHUNK_DIGITS && at + CHUNK_DIGITS + 4 + |data| <= |b0|
    requires Placed(b0, b1, at + 10, data) && Placed(b1, b2, at, size)
    requires Placed(b2, b3, at + 8, CRLF) && Placed(b3, b4, at + 10 + |data|, CRLF)
    ensures |b4| == |b0| && b4[..at + 12 + |data|] == b0[..at] + (size + CRLF + data + CRLF)
  {
    hide Placed;
    var n := |data|;
    PlacedThere(b0, b1, at + 10, data);
    PlacedThere(b1, b2, at, size);
    PlacedThere(b2, b3, at + 8, CRLF);
    PlacedThere(b3, b4, at + 10 + n, CRLF);
    PlacedElsewhere(b1, b2, at, size, at + 10, at + 10 + n);
    PlacedElsewhere(b2, b3, at + 8, CRLF, at + 10, at + 10 + n);
    PlacedElsewhere(b3, b4, at + 10 + n, CRLF, at + 10, at + 10 + n);
    PlacedElsewhere(b2, b3, at + 8, CRLF, at, at + 8);
    PlacedElsewhere(b3, b4, at + 10 + n, CRLF, at, at + 8);
    PlacedElsewhere(b3, b4, at + 10 + n, CRLF, at + 8, at + 10);
    PlacedElsewhere(b0, b1, at + 10, data, 0, at);
    PlacedElsewhere(b1, b2, at, size, 0, at);
    PlacedElsewhere(b2, b3, at + 8, CRLF, 0, at);
    PlacedElsewhere(b3, b4, at + 10 + n, CRLF, 0, at);
    ChunkLaidOut(b4, at, size, data);
  }

  lemma ChunkLaidOut(s: string, at: nat, size: string, data: string)
    requires |size| == CHUNK_DIGITS && at + CHUNK_DIGITS + 4 + |data| <= |s|
    requires s[at..at + 8] == size && s[at + 8..at + 10] == CRLF
    requires s[at + 10..at + 10 + |data|] == data && s[at + 10 + |data|..at + 12 + |data|] == CRLF
    ensures s[..at + 12 + |data|] == s[..at] + (size + CRLF + data + CRLF)
  {
    var n := |data|;
    assert s[..at + 12 + n] == s[..at] + s[at..at + 8] + s[at + 8..at + 10] + s[at + 10..at + 10 + n] +
                               s[at + 10 + n..at + 12 + n];
  }

  lemma QueuedNothing(data: HttpData, portions: seq<string>, terminated: bool)
    requires BodyUntouched(data, portions, terminated)
    ensures QueuedText(data, 0, false, portions, terminated) == Opening(data)
  {
    assert data.headers[..0] == [] && BodyText(data, portions, terminated) == "";
  }

  /** What is on the wire when a message has been sent. */
  ghost predicate IsMessage(wire: string, data: HttpData, portions: seq<string>) {
    && wire == QueuedText(data, |data.headers|, true, portions, true)
    && (data.document.Some? ==> Joined(portions) == data.document.value)
    && forall c :: c in portions ==> 0 < |c| <= BUFFER_SIZE
  }

  predicate AllBlocked(writes: seq<NetStep>) {
    forall w :: w in writes ==> w.NetBlocked?
  }

  /** The document fails to be read, and the network fails. */
  predicate ReadingFails(docs: seq<DocStep>) {
    exists d :: d in docs && d.DocFailed?
  }

  predicate NetworkFails(writes: seq<NetStep>) {
    exists w :: w in writes && w.NetFailed?
  }

  /** How many of the answers take something. */
  function Takings(writes: seq<NetStep>): nat {
    if writes == [] then 0
    else Takings(writes[..|writes| - 1]) + (if writes[|writes| - 1].NetTakes? then 1 else 0)
  }

  lemma TakingsOfNext(writes: seq<NetStep>, n: nat)
    requires n < |writes|
    ensures Takings(writes[..n + 1]) == Takings(writes[..n]) + (if writes[n].NetTakes? then 1 else 0)
  {
    assert writes[..n + 1][..n] == writes[..n];
  }

  lemma NoTakings()
    ensures Takings([]) == 0
  {
  }

  /** All these headers go behind `len` buffered characters without a network write in between; at
      the start of the buffer a header that can never fit is discarded. */
  predicate HeadersFit(hs: seq<(string, string)>, len: nat) {
    hs == [] ||
    if len + |HeaderText(hs[0])| < BUFFER_SIZE - 3 then HeadersFit(hs[1..], len + |HeaderText(hs[0])|)
    else len == 0 && HeadersFit(hs[1..], 0)
  }

  /** Without a document, everything that is left to send fits into the buffer, and the buffer does
      not get full: flush_data then never decides that a write is required. */
  predicate Spins(data: HttpData, header: nat, len: nat)
    requires header <= |data.headers|
  {
    && data.document.None? && len < BUFFER_SIZE
    && if header == |data.headers| then len > 0 else HeadersFit(data.headers[header..], len)
  }

  /** The same for a whole message, when it is given to send(). */
  predicate SpinsWhenSent(data: HttpData) {
    && data.document.None?
    && (data.headers != [] ==>
          (forall h :: h in data.headers ==> Kept(h)) && |Opening(data)| + |HeadersText(data.headers)| < BUFFER_SIZE - 3)
  }

  lemma FitsNext(hs: seq<(string, string)>, k: nat, len: nat)
    requires k < |hs|
    ensures var next := len + |HeaderText(hs[k])|;
            HeadersFit(hs[k..], len) ==
            if next < BUFFER_SIZE - 3 then HeadersFit(hs[k + 1..], next) else len == 0 && HeadersFit(hs[k + 1..], 0)
  {
    hide HeaderText;
    assert hs[k..][0] == hs[k] && hs[k..][1..] == hs[k + 1..];
  }

  lemma HeadersTextFirst(hs: seq<(string, string)>)
    requires hs != []
    ensures |HeadersText(hs)| == |HeadersText(hs[1..])| + (if Kept(hs[0]) then |HeaderText(hs[0])| else 0)
    decreases |hs|
  {
    hide Kept, HeaderText;
    var n := |hs| - 1;
    if n == 0 {
      assert hs[..n] == [] && hs[1..] == [];
    } else {
      assert hs[..n][0] == hs[0] && hs[..n][1..] == hs[1..][..n - 1];
      HeadersTextFirst(hs[..n]);
    }
  }

  /** Behind something in the buffer, headers fit exactly if their text does. */
  lemma {:induction false} HeadersFitMeans(hs: seq<(string, string)>, len: nat)
    requires len > 0 && hs != []
    ensures HeadersFit(hs, len) <==> (forall h :: h in hs ==> Kept(h)) && len + |HeadersText(hs)| < BUFFER_SIZE - 3
    decreases |hs|
  {
    hide HeaderText, HeadersText;
    HeadersTextFirst(hs);
    assert forall h :: h in hs <==> h == hs[0] || h in hs[1..];
    var next := len + |HeaderText(hs[0])|;
    if hs[1..] == [] {
      NoHeaders();
    } else if next < BUFFER_SIZE - 3 {
      HeadersFitMeans(hs[1..], next);
    }
  }

  lemma NoHeaders()
    ensures HeadersText([]) == ""
  {
  }

  /** What is buffered when send() comes to flush_data. */
  function BufferedAtStart(data: HttpData): nat {
    |Opening(data)| + (if data.headers == [] then |Separator(data)| else 0)
  }

  /** When send() comes to flush_data, the leader is buffered, and the line break if there are no headers. */
  lemma SpinsAtStart(data: HttpData)
    ensures Spins(data, 0, BufferedAtStart(data)) <==> SpinsWhenSent(data)
  {
    hide HeadersText, HeadersFit;
    if data.headers != [] {
      assert data.headers[0..] == data.headers;
      HeadersFitMeans(data.headers, |Opening(data)|);
    }
  }

  class HttpBase {
    const hooks: Hooks
    const buffer_: array<char>
    const parser: HttpParser
    var len_: nat
    var mode_: HttpMode
    var data_: Option<HttpData>
    var attached_: bool
    var ignore_data_: bool
    var chunk_data_: bool
    var header_: nat
    // The read position of the document being sent, which belongs to the environment.
    var position: nat
    // The calls of onHttpComplete and onHttpClosed so far.
    var completions: seq<(HttpMode, HttpError)>
    var closings: seq<HttpError>
    // Operations begun by attach, send and recv.
    ghost var begun: nat
    // Everything the network took since the last send, and gave since the last recv.
    ghost var wire: string
    ghost var arrived: string
    // Progress of the message being sent.
    ghost var ended: bool
    ghost var portions: seq<string>

    constructor (hooks: Hooks)
      ensures Valid() && mode_ == HM_NONE && completions == [] && !attached_ && this.hooks == hooks
      ensures fresh(buffer_) && fresh(parser)
    {
      this.hooks := hooks;
      buffer_ := new char[BUFFER_SIZE];
      parser := new HttpParser();
      len_, mode_, data_, attached_ := 0, HM_NONE, None, false;
      ignore_data_, chunk_data_, header_, position := false, false, 0, 0;
      completions, closings, begun := [], [], 0;
      wire, arrived, ended, portions := "", "", false, [];
    }

    function Pending(): string
      requires len_ <= buffer_.Length
      reads this, buffer_
    {
      buffer_[..len_]
    }

    /** The bookkeeping of operations: each one begun is completed or is the current one. */
    ghost predicate Operations()
      reads this`begun, this`completions, this`mode_, this`data_, this`attached_
    {
      && begun == |completions| + (if mode_ == HM_NONE then 0 else 1)
      && (data_.Some? <==> mode_ == HM_SEND || mode_ == HM_RECV)
      && (mode_ != HM_NONE ==> attached_)
      && forall c :: c in completions ==> c.0 != HM_NONE
    }

    ghost predicate Bounded()
      reads this
    {
      buffer_.Length == BUFFER_SIZE && len_ <= BUFFER_SIZE
    }

    /** What is on the wire and what is buffered is the message so far. */
    ghost predicate SendInv()
      requires Bounded()
      reads this, buffer_
    {
      && data_.Some? && header_ <= |data_.value.headers|
      && (ended ==> header_ == |data_.value.headers|)
      && wire + Pending() == QueuedText(data_.value, header_, ended, portions, !chunk_data_)
      && (!ended ==> portions == [] && position == 0)
      && BodyInv(data_.value)
    }

    ghost predicate BodyInv(data: HttpData)
      reads this`chunk_data_, this`portions, this`position, this`ended
    {
      && (chunk_data_ ==> WantsChunks(data.headers))
      && (forall c :: c in portions ==> 0 < |c| <= BUFFER_SIZE)
      && match data.document
         case None => portions == [] && chunk_data_ == WantsChunks(data.headers)
         case Some(text) =>
           && position <= |text| && Joined(portions) == text[..position]
           && (WantsChunks(data.headers) && !chunk_data_ ==> ended && position == |text|)
    }

    /** The callbacks made, continued on what is buffered, are those of one pass over everything
        that has arrived. */
    ghost predicate RecvInv()
      requires Bounded()
      reads this, buffer_, parser
    {
      len_ <= |arrived| && Run(hooks, RESET_STATE, arrived) == Prepend(parser.log, Run(hooks, parser.Fields(), Pending()))
    }

    ghost predicate Valid()
      reads this, buffer_, parser
    {
      && Bounded() && Operations()
      && (mode_ == HM_SEND ==> SendInv() && (ended <==> header_ == |data_.value.headers|))
      && (mode_ == HM_RECV ==> Receiving())
    }

    /** Between the calls, a receiver waits, or the document has not taken the body yet. */
    ghost predicate Receiving()
      requires Bounded()
      reads this, buffer_, parser
    {
      parser.state_ != ST_COMPLETE && RecvInv() && (NeverSwitches(hooks) ==> Settled(parser.Fields(), Pending()))
    }

    // ----- The buffer

    /** memcpy(buffer_ + len_ + skip, text, |text|), leaving len_ alone. */
    method Place(skip: nat, text: string)
      requires Bounded() && len_ + skip + |text| <= BUFFER_SIZE
      modifies buffer_
      ensures Placed(old(buffer_[..]), buffer_[..], len_ + skip, text)
    {
      var at := len_ + skip;
      forall i | 0 <= i < |text| {
        buffer_[at + i] := text[i];
      }
    }

    method Append(text: string)
      requires Bounded() && len_ + |text| <= BUFFER_SIZE
      modifies this`len_, buffer_
      ensures Bounded() && len_ == old(len_) + |text| && Pending() == old(Pending()) + text
    {
      ghost var before, at := buffer_[..], len_;
      Place(0, text);
      len_ := len_ + |text|;
      hide Placed;
      PlacedThere(before, buffer_[..], at, text);
      PlacedElsewhere(before, buffer_[..], at, text, 0, at);
      assert buffer_[..len_] == buffer_[..][0..at] + buffer_[..][at..len_];
    }

    /** Drop the first `n` buffered characters: memmove(buffer_, buffer_ + n, len_ - n). */
    method DropFront(n: nat)
      requires Bounded() && n <= len_
      modifies this`len_, buffer_
      ensures Bounded() && len_ == old(len_) - n && Pending() == old(Pending())[n..]
    {
      len_ := len_ - n;
      forall i | 0 <= i < len_ {
        buffer_[i] := buffer_[i + n];
      }
    }

    // ----- Completion

    /** HttpBase::do_complete; the owner's callback is an entry of `completions`. */
    method DoComplete(err: HttpError)
      requires Bounded() && Operations() && mode_ != HM_NONE
      modifies this`mode_, this`data_, this`completions
      ensures Valid() && mode_ == HM_NONE && completions == old(completions) + [(old(mode_), err)]
    {
      var mode := mode_;
      mode_ := HM_NONE;
      data_ := None;
      completions := completions + [(mode, err)];
    }

    function CloseError(code: int): HttpError
      reads this`mode_, parser
    {
      StreamError(mode_, parser.Fields(), code)
    }

    /** The part of OnHttpStreamEvent that deals with SE_CLOSE. */
    method StreamClosed(code: int)
      requires Valid()
      modifies this`mode_, this`data_, this`completions, this`closings, parser
      ensures Valid() && mode_ == HM_NONE
      ensures if old(mode_) == HM_NONE then completions == old(completions) && closings == old(closings) + [old(CloseError(code))]
              else completions == old(completions) + [(old(mode_), old(CloseError(code)))] && closings == old(closings)
      ensures old(mode_) == HM_RECV ==> ReceivedOnce(old(completions), Closed(code), old(parser.Fields()))
    {
      hide Run, NeverSwitches, Waits;
      var err := CloseError(code);
      if mode_ == HM_RECV {
        Complete(err);
      } else if mode_ != HM_NONE {
        DoComplete(err);
      } else {
        closings := closings + [err];
      }
    }

    /** HttpParser::complete, whose OnComplete is do_complete. */
    method Complete(err: HttpError)
      requires Bounded() && Operations() && mode_ == HM_RECV && parser.state_ != ST_COMPLETE
      modifies this`mode_, this`data_, this`completions, parser`state_
      ensures Valid() && mode_ == HM_NONE && completions == old(completions) + [(HM_RECV, err)]
    {
      var notify := parser.Complete();
      assert notify;
      DoComplete(err);
    }

    // ----- Sending

    /** HttpBase::queue_headers.  `full` asks for a network write before the next header. */
    method QueueHeaders() returns (full: bool)
      requires Bounded() && SendInv() && !ended && len_ < BUFFER_SIZE && header_ < |data_.value.headers|
      modifies this`len_, this`header_, this`ended, buffer_
      ensures Bounded() && SendInv() && old(len_) <= len_ < BUFFER_SIZE && ended == !full && len_ != 0
      ensures full ==> header_ < |data_.value.headers|
      ensures full == !HeadersFit(data_.value.headers[old(header_)..], old(len_))
    {
      hide QueuedText, BodyInv;
      full := false;
      ghost var first := header_;
      while header_ < |data_.value.headers| && !full
        invariant Bounded() && SendInv() && !ended && old(len_) <= len_ < BUFFER_SIZE
        invariant first <= header_ && (first < header_ && !full ==> len_ < BUFFER_SIZE - 3)
        invariant full ==> len_ != 0 && header_ < |data_.value.headers|
        invariant HeadersFit(data_.value.headers[first..], old(len_)) ==
                  (!full && HeadersFit(data_.value.headers[header_..], len_))
        decreases |data_.value.headers| - header_, !full
      {
        full := QueueHeader();
      }
      if !full {
        QueueSeparator();
      }
    }

    /** One turn of the loop of queue_headers: take the header, discard it, or ask for room. */
    method QueueHeader() returns (full: bool)
      requires Bounded() && SendInv() && !ended && len_ < BUFFER_SIZE && header_ < |data_.value.headers|
      modifies this`len_, this`header_, buffer_
      ensures Bounded() && SendInv() && len_ >= old(len_)
      ensures full ==> len_ == old(len_) != 0 && header_ == old(header_) && Pending() == old(Pending())
      ensures !full ==> header_ == old(header_) + 1 && len_ < BUFFER_SIZE - 3
      ensures HeadersFit(data_.value.headers[old(header_)..], old(len_)) ==
              (!full && HeadersFit(data_.value.headers[header_..], len_))
    {
      hide QueuedText, HeaderText, BodyText, WantsChunks, Joined, HeadersFit;
      full := false;
      FitsNext(data_.value.headers, header_, len_);
      var text := HeaderText(data_.value.headers[header_]);
      var len := Least(|text|, BUFFER_SIZE - len_ - 1);
      QueuedHeader(data_.value, header_, portions, !chunk_data_);
      if len_ + len < BUFFER_SIZE - 3 {
        assert wire + (Pending() + text) == (wire + Pending()) + text;
        Append(text);
        header_ := header_ + 1;
      } else if len_ == 0 {
        header_ := header_ + 1;
      } else {
        full := true;
      }
    }

    method QueueSeparator()
      requires Bounded() && SendInv() && !ended && len_ < BUFFER_SIZE
      requires header_ == |data_.value.headers| && (data_.value.headers == [] ==> wire == "")
      requires data_.value.headers != [] ==> len_ < BUFFER_SIZE - 3
      modifies this`len_, this`ended, buffer_
      ensures Bounded() && SendInv() && ended
      ensures len_ == old(len_) + |Separator(data_.value)| < BUFFER_SIZE
    {
      hide QueuedText, Opening;
      QueuedEnd(data_.value, portions, !chunk_data_);
      if data_.value.headers == [] {
        QueuedNothing(data_.value, portions, !chunk_data_);
        assert wire + Pending() == Pending();
      }
      var separator := CRLF[..Least(2, BUFFER_SIZE - len_ - 1)];
      assert separator == Separator(data_.value);
      assert wire + (Pending() + separator) == (wire + Pending()) + separator;
      Append(separator);
      ended := true;
    }

    /** The part of flush_data that reads the document into the buffer, as a chunk if `chunk_data_`. */
    method QueueDocument(step: DocStep) returns (outcome: BodyOutcome)
      requires Bounded() && SendInv() && ended && data_.value.document.Some?
      modifies this`len_, this`chunk_data_, this`position, this`portions, buffer_
      ensures Bounded() && SendInv()
      ensures outcome.Drained? ==> len_ == 0 && !chunk_data_ && position == |data_.value.document.value|
      ensures len_ == 0 && step.DocReady? ==> outcome.Drained?
      ensures len_ >= old(len_) && (outcome.Queued? ==> len_ > old(len_))
      ensures outcome.ReadError? ==> step.DocFailed?
    {
      hide QueuedText, Chunk, HexDigits, WantsChunks;
      var text := data_.value.document.value;
      var offset := if chunk_data_ then len_ + CHUNK_DIGITS + 2 else len_;
      var reserve := if chunk_data_ then offset + 2 else offset;
      if reserve >= BUFFER_SIZE {
        return SendNow;
      }
      match step
      case DocFailed => outcome := ReadError;
      case DocBlocked => outcome := SendNow;
      case DocReady(k) =>
        if position < |text| {
          var read := Clamp(k, Least(|text| - position, BUFFER_SIZE - reserve));
          QueuePortion(text[position..position + read]);
          outcome := Queued;
        } else if chunk_data_ {
          QueuedLast(data_.value, portions);
          assert wire + (Pending() + LAST_CHUNK) == (wire + Pending()) + LAST_CHUNK;
          Append(LAST_CHUNK);
          chunk_data_ := false;
          outcome := SendNow;
        } else {
          outcome := if len_ == 0 then Drained else SendNow;
        }
    }

    method QueuePortion(data: string)
      requires Bounded() && SendInv() && ended && data_.value.document.Some?
      requires var text := data_.value.document.value;
               && 0 < |data| <= |text| - position && data == text[position..position + |data|]
      requires len_ + |data| + (if chunk_data_ then CHUNK_DIGITS + 4 else 0) <= BUFFER_SIZE
      requires |data| <= BUFFER_SIZE
      modifies this`len_, this`position, this`portions, buffer_
      ensures Bounded() && SendInv() && len_ > old(len_)
    {
      hide QueuedText, Chunk, Joined, WantsChunks;
      ghost var more := portions + [data];
      assert more[..|portions|] == portions;
      QueuedPortion(data_.value, portions, data, !chunk_data_);
      assert Joined(more) == data_.value.document.value[..position + |data|] by {
        JoinedMore(portions, data);
      }
      if chunk_data_ {
        QueueChunk(data);
      } else {
        Append(data);
      }
      position := position + |data|;
      portions := more;
    }

    method QueueChunk(data: string)
      requires Bounded() && len_ + |data| + CHUNK_DIGITS + 4 <= BUFFER_SIZE
      modifies this`len_, buffer_
      ensures Bounded() && Pending() == old(Pending()) + Chunk(data) && len_ >= old(len_) + |data|
    {
      hide HexDigits, Placed;
      var size := HexDigits(|data|, CHUNK_DIGITS);
      ghost var at, b0 := len_, buffer_[..];
      Place(CHUNK_DIGITS + 2, data);
      ghost var b1 := buffer_[..];
      Place(0, size);
      ghost var b2 := buffer_[..];
      Place(CHUNK_DIGITS, CRLF);
      ghost var b3 := buffer_[..];
      Place(CHUNK_DIGITS + 2 + |data|, CRLF);
      ChunkPlaced(b0, b1, b2, b3, buffer_[..], at, size, data);
      len_ := len_ + CHUNK_DIGITS + 4 + |data|;
      assert b0[..at] == old(Pending()) && buffer_[..len_] == buffer_[..][..len_];
    }

    /** One successful network write of up to `k` characters. */
    method Transmit(k: nat)
      requires Bounded() && SendInv() && len_ > 0
      modifies this`len_, this`wire, buffer_
      ensures Bounded() && SendInv() && len_ < old(len_) && old(wire) < wire
    {
      hide QueuedText, BodyInv;
      var written := Clamp(k, len_);
      assert wire + Pending() == (wire + Pending()[..written]) + Pending()[written..];
      wire := wire + Pending()[..written];
      DropFront(written);
    }

    /** Fill the buffer as far as possible without the network; the first part of a turn of flush_data. */
    method Fill(sendRequired: bool, step: DocStep) returns (required: bool, outcome: BodyOutcome)
      requires Bounded() && SendInv() && CanFill(sendRequired)
      modifies this`len_, this`header_, this`ended, this`chunk_data_, this`position, this`portions, buffer_
      ensures Bounded() && SendInv() && (ended <==> header_ == |data_.value.headers|)
      ensures outcome.Drained? || (len_ == 0 && data_.value.document.None?) ==> IsMessage(wire, data_.value, portions)
      ensures !required ==> ended
      ensures sendRequired || data_.value.document.None? ==> outcome.Queued?
      ensures outcome.SendNow? ==> required
      ensures outcome.ReadError? ==> step.DocFailed?
      ensures len_ == 0 && data_.value.document.Some? && step.DocReady? ==> outcome.Drained?
      // With a document it fills the buffer or asks for a write; without one it may do neither.
      ensures data_.value.document.Some? && !required && outcome.Queued? ==> len_ > old(len_)
      ensures data_.value.document.None? && !sendRequired ==>
                if Spins(data_.value, old(header_), old(len_)) then !required && Spins(data_.value, header_, len_)
                else required || len_ == 0
      ensures sendRequired ==> required
    {
      hide QueuedText, WantsChunks, Joined, HeadersFit, Kept, IsMessage, BodyInv;
      required, outcome := sendRequired, Queued;
      if !required && header_ != |data_.value.headers| {
        required := QueueHeaders();
      }
      if !required && data_.value.document.Some? {
        outcome := QueueDocument(step);
        required := outcome.SendNow?;
      }
      if outcome.Drained? || (len_ == 0 && data_.value.document.None?) {
        DoneIsMessage();
      }
    }

    /** Where a turn of flush_data starts. */
    ghost predicate CanFill(sendRequired: bool)
      reads this`data_, this`header_, this`len_, this`ended
    {
      && data_.Some? && (ended <==> header_ == |data_.value.headers|)
      && if sendRequired then len_ > 0 else len_ < BUFFER_SIZE || (ended && data_.value.document.Some?)
    }

    lemma DoneIsMessage()
      requires Bounded() && SendInv() && ended && len_ == 0
      requires data_.value.document.Some? ==> !chunk_data_ && position == |data_.value.document.value|
      ensures IsMessage(wire, data_.value, portions)
    {
      hide WantsChunks, Joined, Chunks, HeadersText;
      assert wire + "" == wire;
      if data_.value.document.Some? {
        var text := data_.value.document.value;
        assert text[..|text|] == text;
      }
    }

    /** One turn of flush_data; without an answer the run is observed no further than to the write.
        `tried` tells whether it came to the write. */
    method FlushTurn(sendRequired: bool, step: DocStep, answer: Option<NetStep>)
      returns (again: bool, tried: bool, required: bool)
      requires Valid() && mode_ == HM_SEND && CanFill(sendRequired)
      modifies this, buffer_, parser
      ensures Valid() && old(wire) <= wire && begun == old(begun) && attached_ == old(attached_)
      ensures mode_ == HM_SEND ==> data_ == old(data_) && completions == old(completions)
      ensures mode_ != HM_SEND ==> !again && SentOnce(old(completions), old(data_).value)
      // Only the document and the network can make it fail.
      ensures mode_ != HM_SEND && completions[|old(completions)|].1 != HE_NONE ==>
                step.DocFailed? || (answer.Some? && answer.value.NetFailed?)
      ensures again ==> tried && mode_ == HM_SEND && CanFill(required)
      ensures tried ==> answer.Some? && (answer.value.NetTakes? ==> |old(wire)| < |wire|)
      // It stops where the network blocks, or where there is nothing to send and the document is not ready.
      ensures mode_ == HM_SEND && !again && answer.Some? ==>
                if tried then answer.value.NetBlocked? && len_ > 0
                else len_ == 0 && data_.value.document.Some? && !step.DocReady?
      ensures answer.None? || answer.value.NetBlocked? ==>
                wire == old(wire) && WhileBlocked(again, required, sendRequired, old(data_).value, old(header_), old(len_), answer.Some?)
    {
      hide QueuedText, WantsChunks, Joined, IsMessage, BodyInv, SendInv, RecvInv, Run, HeadersFit, NeverSwitches;
      tried := false;
      var outcome;
      required, outcome := Fill(sendRequired, step);
      if outcome.Drained? || (len_ == 0 && data_.value.document.None?) {
        DoComplete(HE_NONE);
        return false, tried, required;
      }
      if outcome.ReadError? {
        DoComplete(HE_STREAM);
        return false, tried, required;
      }
      if len_ == 0 || answer.None? {
        return false, tried, required;
      }
      tried := true;
      again, required := WriteOut(answer.value, required);
    }

    /** The operation that was current is completed, without an error only if the message is on the wire. */
    ghost predicate SentOnce(before: seq<(HttpMode, HttpError)>, data: HttpData)
      reads this`mode_, this`completions, this`wire, this`portions
    {
      && mode_ == HM_NONE && |completions| == |before| + 1 && before <= completions
      && completions[|before|].0 == HM_SEND
      && (completions[|before|].1 == HE_NONE ==> IsMessage(wire, data, portions))
    }

    /** A turn while the network blocks: with a document it stops or fills the buffer; without one it
        stops, or comes back to where it was. */
    ghost predicate WhileBlocked(again: bool, required: bool, sendRequired: bool, data: HttpData, header: nat, len: nat, answered: bool)
      requires header <= |data.headers|
      reads this`mode_, this`header_, this`len_
    {
      if data.document.Some? then again ==> !required && len_ > len
      else if !sendRequired && Spins(data, header, len) then
        again == answered && !required && mode_ == HM_SEND && header_ <= |data.headers| && Spins(data, header_, len_)
      else !again
    }

    /** HttpBase::flush_data.  The answers of the document and of the network are taken in turn; the
        document blocks when its answers are used up. */
    method FlushData(docs: seq<DocStep>, writes: seq<NetStep>) returns (attempts: nat)
      requires Valid() && mode_ == HM_SEND
      modifies this, buffer_, parser
      ensures Valid() && old(wire) <= wire && begun == old(begun) && attached_ == old(attached_) && attempts <= |writes|
      ensures mode_ == HM_SEND ==> data_ == old(data_) && completions == old(completions)
      ensures Flushed(attempts, docs, writes, old(wire), old(completions), old(data_).value, old(header_), old(len_))
    {
      hide QueuedText, WantsChunks, Joined, IsMessage, BodyInv, SendInv, RecvInv, Run, Takings, HeadersFit, NeverSwitches, Valid;
      NoTakings();
      assert writes[..0] == [];
      var sendRequired := len_ >= BUFFER_SIZE;
      SendingMeans();
      attempts := 0;
      while true
        invariant Valid() && mode_ == HM_SEND && CanFill(sendRequired) && len_ <= BUFFER_SIZE
        invariant begun == old(begun) && attached_ == old(attached_) && data_ == old(data_) && completions == old(completions)
        invariant old(wire) <= wire && attempts <= |writes| && |wire| >= |old(wire)| + Takings(writes[..attempts])
        invariant AllBlocked(writes) ==>
                    wire == old(wire) && AskedInVain(attempts, sendRequired, old(data_).value, old(header_), old(len_))
        decreases |writes| - attempts
      {
        var step := if attempts < |docs| then docs[attempts] else DocBlocked;
        var answer := if attempts < |writes| then Some(writes[attempts]) else None;
        var again, tried;
        again, tried, sendRequired := FlushTurn(sendRequired, step, answer);
        assert attempts < |docs| ==> step in docs;
        assert attempts < |writes| ==> answer.value in writes;
        if tried {
          attempts := attempts + 1;
          TakingsOfNext(writes, attempts - 1);
        }
        if !again {
          return;
        }
        SendingMeans();
      }
    }

    /** What a call of flush_data has achieved. */
    ghost predicate Flushed(attempts: nat, docs: seq<DocStep>, writes: seq<NetStep>, before: string,
                            completed: seq<(HttpMode, HttpError)>, data: HttpData, header: nat, len: nat)
      requires header <= |data.headers|
      reads this
    {
      && attempts <= |writes| && before <= wire
      && (mode_ == HM_SEND ==> data_ == Some(data) && completions == completed)
      // It completes the operation with an error only if the document or the network fails.
      && (mode_ != HM_SEND ==>
            && SentOnce(completed, data)
            && (completions[|completed|].1 != HE_NONE ==> ReadingFails(docs) || NetworkFails(writes)))
      // It stops only where the network blocks, or where there is nothing to send and the document
      // is not ready; and every answer that takes something puts something on the wire.
      && (mode_ == HM_SEND && attempts < |writes| ==> Stops(attempts, docs, writes))
      && |wire| >= |before| + Takings(writes[..attempts])
      // On a network that keeps blocking, the call returns after at most one write more than the
      // buffer has characters; except in one case, in which it asks as long as there are answers.
      && (AllBlocked(writes) ==>
            && wire == before
            && if Spins(data, header, len) then attempts == |writes| && mode_ == HM_SEND else attempts <= BUFFER_SIZE + 1)
    }

    /** Where flush_data stops before it has used all answers. */
    ghost predicate Stops(attempts: nat, docs: seq<DocStep>, writes: seq<NetStep>)
      requires attempts <= |writes|
      reads this`len_, this`data_
    {
      || (attempts > 0 && writes[attempts - 1].NetBlocked?)
      || (len_ == 0 && data_.Some? && data_.value.document.Some? && (attempts < |docs| ==> !docs[attempts].DocReady?))
    }

    /** What flush_data has achieved by asking a blocked network. */
    ghost predicate AskedInVain(attempts: nat, sendRequired: bool, data: HttpData, header: nat, len: nat)
      requires header <= |data.headers|
      reads this`header_, this`len_
    {
      if data.document.Some? then attempts <= len_ && (attempts > 0 ==> !sendRequired)
      else if Spins(data, header, len) then !sendRequired && header_ <= |data.headers| && Spins(data, header_, len_)
      else attempts == 0 && header_ == header && len_ == len
    }

    lemma SendingMeans()
      requires Valid() && mode_ == HM_SEND
      ensures Bounded() && data_.Some? && header_ <= |data_.value.headers| && (ended <==> header_ == |data_.value.headers|)
    {
    }

    /** The network write of a turn of flush_data. */
    method WriteOut(answer: NetStep, sendRequired: bool) returns (again: bool, required: bool)
      requires Valid() && mode_ == HM_SEND && len_ > 0
      modifies this`len_, this`wire, this`mode_, this`data_, this`completions, this`closings, buffer_, parser
      ensures Valid() && old(wire) <= wire
      ensures answer.NetTakes? ==> again && !required && |old(wire)| < |wire| && len_ < BUFFER_SIZE
      ensures answer.NetBlocked? ==> again == !sendRequired && required == sendRequired && wire == old(wire) && len_ == old(len_)
      ensures !answer.NetFailed? ==> mode_ == HM_SEND && data_ == old(data_) && completions == old(completions)
      ensures answer.NetFailed? ==> !again && mode_ == HM_NONE && wire == old(wire) &&
                                    completions == old(completions) + [(HM_SEND, old(CloseError(answer.code)))]
      ensures begun == old(begun) && attached_ == old(attached_)
    {
      hide QueuedText, WantsChunks, Joined, IsMessage, BodyInv, RecvInv, Run;
      again, required := true, sendRequired;
      match answer
      case NetTakes(k) =>
        Transmit(k);
        required := false;
      case NetBlocked =>
        again := !sendRequired;
      case NetFailed(code) =>
        StreamClosed(code);
        again := false;
    }

    // ----- Receiving

    /** The read that starts a turn of the receive loop; `data` is what the network has. */
    method ReadMore(data: string)
      requires Bounded() && RecvInv()
      modifies this`len_, this`arrived, buffer_
      ensures Bounded() && RecvInv() && arrived == old(arrived) + Received(data, BUFFER_SIZE - old(len_))
      ensures len_ + |old(arrived)| == old(len_) + |arrived|
    {
      hide Run;
      var read := Received(data, BUFFER_SIZE - len_);
      PathExtends(hooks, RESET_STATE, arrived, parser.log, parser.Fields(), Pending(), read);
      Append(read);
      arrived := arrived + read;
    }

    ghost predicate Waiting()
      requires Bounded()
      reads this, buffer_, parser
    {
      Waits(parser.Fields(), Pending())
    }

    /** The parser has come to its verdict about everything that has arrived. */
    ghost predicate ParsedWith(error: HttpError)
      requires Bounded()
      reads this, buffer_, parser
    {
      Run(hooks, RESET_STATE, arrived) == Outcome(parser.Fields(), Pending(), parser.log, Done(error))
    }

    /** The body is ignored, or there is no document for it. */
    predicate Sinks()
      reads this`ignore_data_, this`data_
    {
      ignore_data_ || data_ == None || data_.value.document.None?
    }

    /** Body characters are buffered that the document does not take yet. */
    ghost predicate DocumentBlocks()
      requires Bounded()
      reads this, buffer_, parser
    {
      !Sinks() && BodyLeft(parser.Fields(), Pending())
    }

    /** One call of Process, and the memmove after it. */
    method ProcessOnce(takes: seq<TakeStep>) returns (result: ProcessResult, error: HttpError)
      requires Bounded() && parser.state_ != ST_COMPLETE
      modifies this`len_, buffer_, parser
      ensures Bounded() && parser.state_ != ST_COMPLETE && len_ <= old(len_) && old(parser.log) <= parser.log
      ensures OnPath(hooks, old(parser.Fields()), old(Pending()), result, error, parser.Fields(), Pending(),
                     parser.log[|old(parser.log)|..], MayFail(Sinks(), takes))
      ensures Delivery(result, error, parser.Fields(), Pending(), parser.log[|old(parser.log)|..]) ==
              Deliver(hooks, old(parser.Fields()), old(Pending()), Sinks(), takes)
      ensures result.PR_BLOCK? && NeverSwitches(hooks) ==> DocumentBlocks() && !AlwaysTakes(takes)
      ensures !Sinks() && !Takes(takes) ==> NoBody(parser.log[|old(parser.log)|..])
    {
      hide OnPath, NeverSwitches, Takes, NoBody, Deliver, MayFail;
      ghost var input := Pending();
      var processed;
      result, processed, error := parser.Process(hooks, buffer_[..len_], Sinks(), takes);
      DropFront(processed);
      assert Pending() == input[processed..];
    }

    /** The same as a step of the reception. */
    method ProcessBuffered(takes: seq<TakeStep>) returns (result: ProcessResult, error: HttpError)
      requires Bounded() && RecvInv() && data_.Some? && parser.state_ != ST_COMPLETE
      modifies this`len_, buffer_, parser
      ensures Bounded() && parser.state_ != ST_COMPLETE && len_ <= old(len_)
      ensures result.PR_COMPLETE? ==> ParsedWith(error) || (error == HE_STREAM && RecvInv() && TakeFailed in takes)
      ensures !result.PR_COMPLETE? ==> RecvInv()
      ensures result.PR_CONTINUE? ==> Waiting()
      ensures result.PR_BLOCK? && NeverSwitches(hooks) ==> DocumentBlocks() && !AlwaysTakes(takes)
      ensures !Sinks() && !Takes(takes) && NoBody(old(parser.log)) ==> NoBody(parser.log)
    {
      hide Run, OnPath, Waits, NeverSwitches, Takes, NoBody, BodyLeft, Deliver, AlwaysTakes;
      ghost var before, log, input := parser.Fields(), parser.log, Pending();
      result, error := ProcessOnce(takes);
      ghost var made := parser.log[|log|..];
      assert parser.log == log + made;
      PathContinues(hooks, RESET_STATE, arrived, log, before, input, result, error, parser.Fields(), Pending(), made,
                    MayFail(Sinks(), takes));
      if NoBody(log) && NoBody(made) {
        NoBodyJoins(log, made);
      }
      if result.PR_CONTINUE? {
        WaitsOnlyForInput(hooks, parser.Fields(), Pending());
      }
    }

    static lemma AnswersOf(takes: seq<seq<TakeStep>>, k: nat)
      ensures var answers := if k < |takes| then takes[k] else [];
              && (NothingTaken(takes) ==> !Takes(answers))
              && (TakeFailed in answers ==> DocumentFails(takes))
              && (k <= MAX_READ_COUNT && DocumentTakes(takes) ==> AlwaysTakes(answers))
    {
      if k < |takes| {
        assert takes[k] in takes;
      }
    }

    /** The processing of a turn of the receive loop. */
    method ProcessTurn(takes: seq<TakeStep>) returns (verdict: Turn, error: HttpError, ghost why: Ending)
      requires Bounded() && RecvInv() && data_.Some? && parser.state_ != ST_COMPLETE
      modifies this`len_, buffer_, parser
      ensures Bounded() && parser.state_ != ST_COMPLETE
      ensures verdict.Finished? ==>
                Ended(hooks, arrived, parser.log, parser.Fields(), Pending(), why, error) &&
                (why == Parsed || (why == DocumentFailed && TakeFailed in takes))
      ensures !verdict.Finished? ==> Receiving()
      ensures verdict.GoOn? ==> Waiting()
      ensures verdict.GiveUp? && NeverSwitches(hooks) ==> DocumentBlocks() && !AlwaysTakes(takes)
      ensures !Sinks() && !Takes(takes) && NoBody(old(parser.log)) ==> NoBody(parser.log)
      ensures len_ <= old(len_)
    {
      hide Run, Waits, NeverSwitches, NoBody, Takes, AlwaysTakes;
      var result;
      why := Parsed;
      result, error := ProcessBuffered(takes);
      match result {
        case PR_CONTINUE => verdict := GoOn;
        case PR_BLOCK => verdict := GiveUp;
        case PR_COMPLETE =>
          verdict := Finished;
          if !ParsedWith(error) {
            why := DocumentFailed;
          }
      }
    }

    /** One turn of the receive loop. */
    method ReceiveTurn(needsMore: bool, step: ReadStep, takes: seq<TakeStep>) returns (verdict: Turn, error: HttpError, ghost why: Ending)
      requires Bounded() && Receiving() && mode_ == HM_RECV && data_.Some? && (needsMore ==> Waiting())
      modifies this`len_, this`arrived, buffer_, parser
      ensures Bounded() && parser.state_ != ST_COMPLETE
      ensures verdict.Finished? ==> Ended(hooks, arrived, parser.log, parser.Fields(), Pending(), why, error)
      ensures !verdict.Finished? ==> Receiving()
      ensures verdict.GoOn? ==> Waiting()
      ensures verdict.GiveUp? && NeverSwitches(hooks) ==>
                (step.ReadBlocked? && Waiting()) || (DocumentBlocks() && !AlwaysTakes(takes))
      ensures len_ + |old(arrived)| <= old(len_) + |arrived|
      ensures verdict.Finished? && why.DocumentFailed? ==> TakeFailed in takes
      ensures verdict.Finished? && why.Closed? ==> step.ReadEos? || step.ReadFailed?
      ensures !Sinks() && !Takes(takes) && NoBody(old(parser.log)) ==> NoBody(parser.log)
      ensures arrived == if old(len_) < BUFFER_SIZE && step.Arrive? then old(arrived) + Received(step.data, BUFFER_SIZE - old(len_))
                         else old(arrived)
      // An end of stream is acted upon before what is already buffered.
      ensures step.ReadEos? && old(len_) < BUFFER_SIZE ==>
                verdict.Finished? && why == Closed(0) && parser.Fields() == old(parser.Fields()) &&
                Pending() == old(Pending()) && parser.log == old(parser.log)
    {
      hide Run, Waits, NeverSwitches, NoBody, Takes, AlwaysTakes;
      why := Parsed;
      if len_ < BUFFER_SIZE {
        match step
        case Arrive(data) => ReadMore(data);
        case ReadBlocked =>
          if needsMore {
            return GiveUp, HE_NONE, why;
          }
        case ReadEos => return Finished, CloseError(0), Closed(0);
        case ReadFailed(code) => return Finished, CloseError(code), Closed(code);
      } else if needsMore {
        FullBufferWaits(parser.Fields(), Pending());
        return Finished, HE_OVERFLOW, Overflow;
      }
      verdict, error, why := ProcessTurn(takes);
    }

    static lemma FullBufferWaits(at: ParserState, rest: string)
      requires Waits(at, rest) && |rest| == BUFFER_SIZE
      ensures at.ReadsLines()
    {
    }

    /** HttpBase::DoReceiveLoop; `why` tells what made it finish. */
    method DoReceiveLoop(arrivals: seq<ReadStep>, takes: seq<seq<TakeStep>>)
      returns (finished: bool, error: HttpError, ghost why: Ending)
      requires Valid() && mode_ == HM_RECV
      modifies this`len_, this`arrived, buffer_, parser
      ensures Bounded() && Operations() && parser.state_ != ST_COMPLETE && old(arrived) <= arrived
      ensures if finished then Ended(hooks, arrived, parser.log, parser.Fields(), Pending(), why, error) else Receiving()
      // It gives up control only when everything that has arrived is processed, or the document blocks.
      ensures Progress(!finished, arrivals, takes, old(arrived), BUFFER_SIZE - old(len_))
      ensures finished && why.DocumentFailed? ==> DocumentFails(takes)
      ensures finished && why.Closed? ==> StreamEnds(arrivals)
      ensures !Sinks() && NothingTaken(takes) && NoBody(old(parser.log)) ==> NoBody(parser.log)
      // An end of stream that comes first is acted upon before what is already buffered.
      ensures arrivals != [] && arrivals[0].ReadEos? && old(len_) < BUFFER_SIZE ==>
                finished && why == Closed(0) && parser.Fields() == old(parser.Fields()) &&
                Pending() == old(Pending()) && parser.log == old(parser.log) && arrived == old(arrived)
    {
      hide Run, Waits, NeverSwitches, NoBody, Takes, Ended, Receiving, NothingTaken, DocumentFails, Received, DocumentTakes,
           AlwaysTakes, ReadsAll, AllArrived, ReadSoFar, HasRead, StreamEnds;
      ghost var room := BUFFER_SIZE - len_;
      NothingRead(arrivals, arrived, room);
      var loopCount := 0;
      var needsMore := false;
      error, why := HE_NONE, Parsed;
      while loopCount <= MAX_READ_COUNT
        invariant Bounded() && Receiving() && (needsMore ==> parser.state_ != ST_COMPLETE)
        invariant needsMore == (loopCount > 0) && (needsMore ==> Waiting())
        invariant !Sinks() && NothingTaken(takes) && NoBody(old(parser.log)) ==> NoBody(parser.log)
        invariant ReadSoFar(loopCount, arrivals, old(arrived), room, arrived)
        invariant len_ + |old(arrived)| <= old(len_) + |arrived|
        invariant loopCount > 0 && arrivals != [] && arrivals[0].ReadEos? ==> old(len_) == BUFFER_SIZE
        invariant loopCount == 0 ==> len_ == old(len_) && Pending() == old(Pending()) &&
                                     parser.log == old(parser.log) && parser.Fields() == old(parser.Fields()) && arrived == old(arrived)
        decreases MAX_READ_COUNT + 1 - loopCount
      {
        var step := if loopCount < |arrivals| then arrivals[loopCount] else ReadBlocked;
        AnswersOf(takes, loopCount);
        ArrivalOf(arrivals, loopCount, room);
        ghost var free, now := BUFFER_SIZE - len_, arrived;
        var verdict;
        verdict, error, why := ReceiveTurn(needsMore, step, if loopCount < |takes| then takes[loopCount] else []);
        ReadsOn(loopCount, arrivals, old(arrived), room, now, free, arrived);
        loopCount := loopCount + 1;
        ReadAll(loopCount, arrivals, old(arrived), room, arrived);
        ReadMeans(loopCount, arrivals, old(arrived), room, arrived);
        if verdict.GiveUp? {
          return false, error, why;
        }
        if verdict.Finished? {
          return true, error, why;
        }
        needsMore := true;
      }
      ReadAll(loopCount, arrivals, old(arrived), room, arrived);
      ReadMeans(loopCount, arrivals, old(arrived), room, arrived);
      finished := false;
    }

    static lemma ReadMeans(n: nat, arrivals: seq<ReadStep>, before: string, room: nat, now: string)
      requires n > 0 && ReadSoFar(n, arrivals, before, room, now)
      ensures HasRead(arrivals, before, room, now) && before <= now
    {
    }

    static lemma ArrivalOf(arrivals: seq<ReadStep>, k: nat, room: nat)
      ensures var step := if k < |arrivals| then arrivals[k] else ReadBlocked;
              && (step.ReadEos? || step.ReadFailed? ==> StreamEnds(arrivals))
              && (ReadsAll(arrivals, room) && step.ReadBlocked? ==> k >= |arrivals|)
    {
      if k < |arrivals| {
        assert arrivals[k] in arrivals;
      }
    }

    /** What a call of the receive loop has achieved.  `before` had arrived when it began, and there was
        `room` in the buffer; `going` tells whether the reception goes on. */
    ghost predicate Progress(going: bool, arrivals: seq<ReadStep>, takes: seq<seq<TakeStep>>, before: string, room: nat)
      requires Bounded()
      reads this, buffer_, parser
    {
      && HasRead(arrivals, before, room, arrived)
      // It has processed everything, unless it stands in front of body that the document does not take.
      && (going && NeverSwitches(hooks) ==> Waiting() || NotTaken(takes))
      // It has read all that there was room for.
      && (going && NeverSwitches(hooks) && !NotTaken(takes) && ReadsAll(arrivals, room) ==>
            arrived == before + AllArrived(arrivals))
    }

    ghost predicate NotTaken(takes: seq<seq<TakeStep>>)
      requires Bounded()
      reads this, buffer_, parser
    {
      DocumentBlocks() && !DocumentTakes(takes)
    }

    /** How a reception that was going on has ended. */
    ghost predicate ReceivedOnce(before: seq<(HttpMode, HttpError)>, why: Ending, at: ParserState)
      requires Bounded()
      reads this, buffer_, parser
    {
      && mode_ == HM_NONE && |completions| == |before| + 1 && before <= completions
      && completions[|before|].0 == HM_RECV
      && Ended(hooks, arrived, parser.log, at, Pending(), why, completions[|before|].1)
    }

    /** HttpBase::read_and_process_data.  If the operation has ended, `why` and `at` tell how and where. */
    method ReadAndProcessData(arrivals: seq<ReadStep>, takes: seq<seq<TakeStep>>)
      returns (ghost why: Ending, ghost at: ParserState)
      requires Valid() && mode_ == HM_RECV
      modifies this, buffer_, parser
      ensures Valid() && old(arrived) <= arrived && begun == old(begun) && attached_ == old(attached_)
      ensures closings == old(closings)
      ensures mode_ == HM_RECV ==> data_ == old(data_) && completions == old(completions)
      ensures Progress(mode_ == HM_RECV, arrivals, takes, old(arrived), BUFFER_SIZE - old(len_))
      ensures mode_ != HM_RECV ==> ReceivedOnce(old(completions), why, at)
      ensures mode_ != HM_RECV && why.DocumentFailed? ==> DocumentFails(takes)
      ensures mode_ != HM_RECV && why.Closed? ==> StreamEnds(arrivals)
      ensures !old(Sinks()) && NothingTaken(takes) && NoBody(old(parser.log)) ==> NoBody(parser.log)
      ensures arrivals != [] && arrivals[0].ReadEos? && old(len_) < BUFFER_SIZE ==>
                mode_ == HM_NONE && why == Closed(0) && at == old(parser.Fields()) &&
                Pending() == old(Pending()) && parser.log == old(parser.log) && arrived == old(arrived)
    {
      hide Run, Ended, NeverSwitches, NoBody, NothingTaken, Takes, Waits, DocumentTakes, ReadsAll, AllArrived, Received;
      var finished, error;
      finished, error, why := DoReceiveLoop(arrivals, takes);
      at := parser.Fields();
      if finished {
        Complete(error);
      }
    }

    // ----- Operations and events

    /** HttpBase::attach; `opening` is whether the stream is still connecting. */
    method Attach(opening: bool) returns (ok: bool)
      requires Valid()
      modifies this`attached_, this`mode_, this`begun
      ensures Valid() && ok == (old(mode_) == HM_NONE && !old(attached_))
      ensures ok ==> attached_ && mode_ == (if opening then HM_CONNECT else HM_NONE)
      ensures ok ==> begun == old(begun) + (if opening then 1 else 0)
      ensures !ok ==> attached_ == old(attached_) && mode_ == old(mode_) && begun == old(begun)
    {
      if mode_ != HM_NONE || attached_ {
        return false;
      }
      attached_ := true;
      mode_ := if opening then HM_CONNECT else HM_NONE;
      begun := if opening then begun + 1 else begun;
      ok := true;
    }

    /** HttpBase::detach; the flag says whether there was a stream to return. */
    method Detach() returns (had: bool)
      requires Valid()
      modifies this`attached_
      ensures Valid() && had == (old(mode_) == HM_NONE && old(attached_))
      ensures attached_ == (old(attached_) && old(mode_) != HM_NONE)
    {
      if mode_ != HM_NONE {
        return false;
      }
      had := attached_;
      attached_ := false;
    }

    /** HttpBase::send; `open` is whether the attached stream is open.  `attempts` counts the writes
        that the network is asked for. */
    method Send(data: HttpData, open: bool, script: Script) returns (attempts: nat)
      requires Valid()
      modifies this, buffer_, parser
      ensures Valid() && attached_ == old(attached_) && old(completions) <= completions
      ensures old(mode_) != HM_NONE ==> begun == old(begun) && completions == old(completions) && mode_ == old(mode_)
      ensures old(mode_) == HM_NONE && !(attached_ && open) ==>
                begun == old(begun) && completions == old(completions) && closings == old(closings) + [HE_SOCKET_ERROR]
      ensures old(mode_) == HM_NONE && attached_ && open ==>
                && begun == old(begun) + 1
                && if mode_ == HM_SEND then data_ == Some(data) && completions == old(completions)
                   else SentOnce(old(completions), data)
      ensures old(mode_) == HM_NONE && attached_ && open ==>
                Flushed(attempts, script.docs, script.writes, "", old(completions), data, 0, BufferedAtStart(data))
      // A blocked network makes the call return, except for exactly these messages.
      ensures old(mode_) == HM_NONE && attached_ && open && AllBlocked(script.writes) ==>
                && wire == ""
                && if SpinsWhenSent(data) then attempts == |script.writes| && mode_ == HM_SEND
                   else attempts <= BUFFER_SIZE + 1
    {
      attempts := 0;
      if mode_ != HM_NONE {
        return;
      }
      if !(attached_ && open) {
        StreamClosed(2);
        return;
      }
      hide QueuedText, IsMessage, BodyInv, SendInv, RecvInv, Spins, SpinsWhenSent, AllBlocked, Opening, Separator,
           ReadingFails, NetworkFails, Takings, Stops, BufferedAtStart;
      StartSending(data);
      SpinsAtStart(data);
      attempts := FlushData(script.docs, script.writes);
    }

    /** The part of send() before flush_data. */
    method StartSending(data: HttpData)
      requires Valid() && mode_ == HM_NONE && attached_
      modifies this, buffer_
      ensures Valid() && mode_ == HM_SEND && data_ == Some(data) && begun == old(begun) + 1
      ensures completions == old(completions) && attached_ == old(attached_) && closings == old(closings)
      ensures header_ == 0 && wire == ""
      ensures len_ == BufferedAtStart(data)
    {
      hide QueuedText, BodyInv, Separator;
      begun := begun + 1;
      QueueLeader(data);
      if header_ == |data.headers| {
        QueueSeparator();
      }
    }

    method QueueLeader(data: HttpData)
      requires Bounded() && data_ == None
      modifies this`mode_, this`data_, this`len_, this`ignore_data_, this`chunk_data_, this`wire, this`ended,
               this`portions, this`position, this`header_, buffer_
      ensures Bounded() && SendInv() && mode_ == HM_SEND && data_ == Some(data)
      ensures header_ == 0 && !ended && wire == "" && len_ == |Opening(data)| < BUFFER_SIZE
    {
      hide QueuedText, WantsChunks, HeadersText, Chunks, Separator, Opening, Run, BodyInv;
      mode_, data_, len_, ignore_data_ := HM_SEND, Some(data), 0, false;
      chunk_data_ := WantsChunks(data.headers);
      wire, ended, portions, position, header_ := "", false, [], 0, 0;
      OpeningFits(data);
      var line := Opening(data);
      Append(line);
      QueuedNothing(data, [], !chunk_data_);
      assert wire + Pending() == line;
      NoBodyQueued(data);
    }

    lemma NoBodyQueued(data: HttpData)
      requires chunk_data_ == WantsChunks(data.headers) && portions == [] && position == 0
      ensures BodyInv(data)
    {
      hide WantsChunks;
      if data.document.Some? {
        assert data.document.value[..0] == "";
      }
    }

    /** HttpBase::recv.  If the operation ends at once, `why` and `at` tell how and where. */
    method Recv(data: HttpData, open: bool, script: Script) returns (ghost why: Ending, ghost at: ParserState)
      requires Valid()
      modifies this, buffer_, parser
      ensures Valid() && attached_ == old(attached_) && old(completions) <= completions
      ensures old(mode_) != HM_NONE ==> begun == old(begun) && completions == old(completions) && mode_ == old(mode_)
      ensures old(mode_) == HM_NONE && !(attached_ && open) ==>
                begun == old(begun) && completions == old(completions) && closings == old(closings) + [HE_SOCKET_ERROR]
      ensures old(mode_) == HM_NONE && attached_ && open ==>
                && begun == old(begun) + 1
                && if mode_ == HM_RECV then data_ == Some(data) && completions == old(completions)
                   else ReceivedOnce(old(completions), why, at)
      ensures old(mode_) == HM_NONE && attached_ && open ==>
                && Progress(mode_ == HM_RECV, script.arrivals, script.takes, "", BUFFER_SIZE)
                && (mode_ != HM_RECV && why.DocumentFailed? ==> DocumentFails(script.takes))
                && (mode_ != HM_RECV && why.Closed? ==> StreamEnds(script.arrivals))
                && (data.document.Some? && NothingTaken(script.takes) ==> NoBody(parser.log))
    {
      hide Run, SendInv, QueuedText, IsMessage, Ended, NeverSwitches, Takes, Progress;
      why, at := Parsed, parser.Fields();
      if mode_ != HM_NONE {
        return;
      }
      if !(attached_ && open) {
        StreamClosed(2);
        return;
      }
      StartReceiving(data);
      why, at := ReadAndProcessData(script.arrivals, script.takes);
    }

    /** The part of recv() before read_and_process_data. */
    method StartReceiving(data: HttpData)
      requires Valid() && mode_ == HM_NONE && attached_
      modifies this, parser
      ensures Valid() && mode_ == HM_RECV && data_ == Some(data) && begun == old(begun) + 1
      ensures completions == old(completions) && attached_ == old(attached_)
      ensures len_ == 0 && arrived == "" && parser.log == [] && !ignore_data_
    {
      hide Run, NeverSwitches, Waits, SendInv, BodyLeft;
      begun := begun + 1;
      mode_, data_, len_, ignore_data_, chunk_data_ := HM_RECV, Some(data), 0, false, false;
      parser.Reset();
      arrived := "";
      PrependTwice([], [], Run(hooks, RESET_STATE, ""));
      assert Pending() == "";
      WaitsAtStart();
      assert Operations();
      assert Receiving();
    }

    static lemma WaitsAtStart()
      ensures Waits(RESET_STATE, "")
    {
    }

    /** HttpBase::set_ignore_data. */
    method SetIgnoreData(ignore: bool)
      requires Valid()
      modifies this`ignore_data_
      ensures Valid() && Sinks() == (ignore || data_ == None || data_.value.document.None?)
    {
      ignore_data_ := ignore;
    }

    /** HttpBase::abort. */
    method Abort(err: HttpError)
      requires Valid()
      modifies this`mode_, this`data_, this`completions
      ensures Valid() && mode_ == HM_NONE
      ensures completions == old(completions) + (if old(mode_) == HM_NONE then [] else [(old(mode_), err)])
    {
      if mode_ != HM_NONE {
        DoComplete(err);
      }
    }

    /** HttpBase::OnHttpStreamEvent.  If a reception has ended, `why` and `at` tell how and where;
        `attempts` counts the writes that the network is asked for. */
    method OnHttpStreamEvent(events: StreamEvents, code: int, script: Script) 
      returns (attempts: nat, ghost why: Ending, ghost at: ParserState)
      requires Valid()
      modifies this, buffer_, parser
      ensures Valid() && begun == old(begun) && attached_ == old(attached_) && old(completions) <= completions
      ensures |completions| <= |old(completions)| + 1
      ensures completions != old(completions) ==> completions[|old(completions)|].0 == old(mode_)
      ensures old(mode_) == HM_SEND && completions != old(completions) && completions[|old(completions)|].1 == HE_NONE ==>
                IsMessage(wire, old(data_).value, portions)
      ensures events.write && old(mode_) == HM_SEND ==>
                Flushed(attempts, script.docs, script.writes, old(wire), old(completions), old(data_).value, old(header_), old(len_))
      ensures old(mode_) == HM_RECV ==>
                if mode_ == HM_RECV then data_ == old(data_) && completions == old(completions)
                else ReceivedOnce(old(completions), why, at)
      ensures events.read && old(mode_) == HM_RECV ==>
                && Progress(mode_ == HM_RECV, script.arrivals, script.takes, old(arrived), BUFFER_SIZE - old(len_))
                && (mode_ != HM_RECV && why.DocumentFailed? ==> DocumentFails(script.takes))
                && (mode_ != HM_RECV && why.Closed? ==> StreamEnds(script.arrivals))
                && (script.arrivals != [] && script.arrivals[0].ReadEos? && old(len_) < BUFFER_SIZE ==>
                      mode_ == HM_NONE && why == Closed(0) && at == old(parser.Fields()) &&
                      Pending() == old(Pending()) && parser.log == old(parser.log) && arrived == old(arrived))
      // An opened stream completes the connection; a closed one completes whatever is going on, or
      // is reported as closed.
      ensures events.open && old(mode_) == HM_CONNECT ==> completions == old(completions) + [(HM_CONNECT, HE_NONE)]
      ensures old(mode_) == HM_CONNECT ==>
                && (completions != old(completions) <==> events.open || events.close)
                && (completions != old(completions) ==> (completions[|old(completions)|].1 == HE_NONE <==> events.open))
      ensures events.close && !events.open && !events.write && !events.read ==>
                mode_ == HM_NONE &&
                if old(mode_) == HM_NONE then closings == old(closings) + [old(CloseError(code))]
                else completions == old(completions) + [(old(mode_), old(CloseError(code)))]
    {
      hide Run, QueuedText, IsMessage, BodyInv, SendInv, RecvInv, NeverSwitches, Takes, Waits, Progress, Ended, Stops,
           Takings, AllBlocked, Spins;
      attempts, why, at := 0, Parsed, parser.Fields();
      if events.open && mode_ == HM_CONNECT {
        DoComplete(HE_NONE);
        return;
      }
      if events.write && mode_ == HM_SEND {
        attempts := FlushData(script.docs, script.writes);
        return;
      }
      if events.read && mode_ == HM_RECV {
        why, at := ReadAndProcessData(script.arrivals, script.takes);
        return;
      }
      if events.close {
        why := Closed(code);
        ErrorsOfClose(mode_, at, code);
        StreamClosed(code);
      }
    }

    /** HttpBase::OnDocumentEvent, which the document sends only while it is connected.
        The results are those of OnHttpStreamEvent. */
    method OnDocumentEvent(events: StreamEvents, script: Script) 
      returns (attempts: nat, ghost why: Ending, ghost at: ParserState)
      requires Valid() && data_.Some?
      modifies this, buffer_, parser
      ensures Valid() && begun == old(begun) && attached_ == old(attached_) && old(completions) <= completions
      ensures |completions| <= |old(completions)| + 1
      ensures completions != old(completions) ==> completions[|old(completions)|].0 == old(mode_)
      ensures old(mode_) == HM_SEND && completions != old(completions) && completions[|old(completions)|].1 == HE_NONE ==>
                IsMessage(wire, old(data_).value, portions)
      ensures events.read && old(mode_) == HM_SEND ==>
                Flushed(attempts, script.docs, script.writes, old(wire), old(completions), old(data_).value, old(header_), old(len_))
      ensures old(mode_) == HM_RECV ==>
                if mode_ == HM_RECV then data_ == old(data_) && completions == old(completions)
                else ReceivedOnce(old(completions), why, at)
      ensures events.write && old(mode_) == HM_RECV ==>
                && Progress(mode_ == HM_RECV, script.arrivals, script.takes, old(arrived), BUFFER_SIZE - old(len_))
                && (mode_ != HM_RECV && why.DocumentFailed? ==> DocumentFails(script.takes))
                && (mode_ != HM_RECV && why.Closed? ==> StreamEnds(script.arrivals))
      ensures events.close && !events.write && !events.read ==>
                mode_ == HM_NONE && completions == old(completions) + [(old(mode_), HE_STREAM)]
    {
      hide Run, QueuedText, IsMessage, BodyInv, SendInv, NeverSwitches, Takes, Waits, Progress, Stops, Takings,
           AllBlocked, Spins;
      attempts, why, at := 0, DocumentFailed, parser.Fields();
      if events.write && mode_ == HM_RECV {
        why, at := ReadAndProcessData(script.arrivals, script.takes);
        return;
      }
      if events.read && mode_ == HM_SEND {
        attempts := FlushData(script.docs, script.writes);
        return;
      }
      if events.close {
        DoComplete(HE_STREAM);
      }
    }
  }

  /** A request of one header, given to send() on a network that blocks: however long the network keeps
      blocking, send() goes on asking it. */
  method SendSpins(hooks: Hooks, n: nat) returns (sender: HttpBase, attempts: nat)
    ensures fresh(sender) && sender.mode_ == HM_SEND && sender.wire == "" && attempts == n
  {
    var data := HttpData("GET / HTTP/1.1", [("Host", "example.org")], None);
    sender := new HttpBase(hooks);
    var attached := sender.Attach(false);
    assert SpinsWhenSent(data) by {
      HeadersTextFirst(data.headers);
      NoHeaders();
      assert data.headers[1..] == [];
    }
    attempts := sender.Send(data, true, Script([], seq(n, _ => NetBlocked), [], []));
  }
}
