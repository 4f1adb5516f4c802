/** Sender and receiver together: whatever the scheduling of reads and writes, what is received is
    what was sent. */
module HttpRoundTrip {
  import opened HttpParsing
  import opened HttpWire
  import opened HttpPump

  function Document(data: HttpData): string {
    if data.document.Some? then data.document.value else ""
  }

  predicate SendsChunks(data: HttpData) {
    data.document.Some? && WantsChunks(data.headers)
  }

  /** The leader and the line breaks fit into the buffer. */
  predicate Fits(data: HttpData) {
    |data.leader| + (if data.headers == [] then 4 else 2) < BUFFER_SIZE
  }

  /** A message that its receiver can read: the preamble survives as text and is accepted, and it
      announces the body the way the body is sent. */
  predicate Readable(hooks: Hooks, data: HttpData) {
    && Fits(data) && '\n' !in data.leader
    && (forall h :: h in data.headers ==> Sendable(h))
    && match ReadPreamble(hooks, data.leader, data.headers)
       case Refused => false
       case Accepted(next, _) =>
         if SendsChunks(data) then next.state == ST_CHUNKSIZE && next.chunked
         else next.state == ST_DATA && !next.chunked && next.dataSize == |Document(data)| < SIZE_UNKNOWN
  }

  /** The callbacks the receiver of a message is to get. */
  function MessageEvents(hooks: Hooks, data: HttpData): seq<Event>
    requires Readable(hooks, data)
  {
    ReadPreamble(hooks, data.leader, data.headers).events + BodyOf(Document(data))
  }

  function EndState(hooks: Hooks, data: HttpData): ParserState
    requires Readable(hooks, data)
  {
    if SendsChunks(data) then ParserState(ST_TRAILERS, true, 0)
    else ReadPreamble(hooks, data.leader, data.headers).next.(dataSize := 0)
  }

  /** Text of a message sent in these portions, of any size below 2^32. */
  ghost predicate IsText(wire: string, data: HttpData, portions: seq<string>) {
    && wire == QueuedText(data, |data.headers|, true, portions, true)
    && (data.document.Some? ==> Joined(portions) == data.document.value)
    && forall c :: c in portions ==> 0 < |c| < 0x1_0000_0000
  }

  lemma PreambleFits(data: HttpData, portions: seq<string>, terminated: bool)
    requires Fits(data)
    ensures QueuedText(data, |data.headers|, true, portions, terminated) ==
            PreambleText(data.leader, data.headers) + BodyText(data, portions, terminated)
  {
    hide BodyText;
    var line := data.leader + CRLF;
    assert line[..|line|] == line && CRLF[..2] == CRLF;
    assert data.headers[..|data.headers|] == data.headers;
    if data.headers == [] {
      assert HeadersText([]) == "";
    }
  }

  /** A whole message is read back as what was sent, and the parser stops right behind it. */
  lemma MessageReads(hooks: Hooks, data: HttpData, wire: string, portions: seq<string>, tail: string)
    requires Readable(hooks, data) && IsText(wire, data, portions)
    ensures Run(hooks, RESET_STATE, wire + tail) ==
            Outcome(EndState(hooks, data), tail, MessageEvents(hooks, data), Done(HE_NONE))
  {
    hide Run, ReadPreamble, Chunks, Joined, PreambleText, QueuedText, BodyOf;
    PreambleFits(data, portions, true);
    var preamble, body := PreambleText(data.leader, data.headers), BodyText(data, portions, true);
    var r := ReadPreamble(hooks, data.leader, data.headers);
    assert wire + tail == preamble + (body + tail);
    PreambleReads(hooks, data.leader, data.headers, body + tail);
    if SendsChunks(data) {
      ChunkedBodyReads(hooks, r.next, portions, tail);
    } else {
      PlainBodyReads(hooks, r.next, Document(data), tail);
    }
  }

  /** A receiver that has come to an end has got the whole message, and one that has got the whole
      message has come to its end, without an error and without touching what follows. */
  lemma EndToEnd(hooks: Hooks, data: HttpData, wire: string, portions: seq<string>, arrived: string)
    requires Readable(hooks, data) && IsText(wire, data, portions)
    requires arrived <= wire || wire <= arrived
    ensures var o := Run(hooks, RESET_STATE, arrived);
            && o.events <= MessageEvents(hooks, data)
            && (o.verdict.Done? <==> wire <= arrived)
            && (wire <= arrived ==> o == Outcome(EndState(hooks, data), arrived[|wire|..], MessageEvents(hooks, data), Done(HE_NONE)))
  {
    hide Run, MessageEvents, EndState, Readable, QueuedText;
    if wire <= arrived {
      assert arrived == wire + arrived[|wire|..];
      MessageReads(hooks, data, wire, portions, arrived[|wire|..]);
    } else {
      var left := wire[|arrived|..];
      assert arrived + left == wire && wire + "" == wire;
      MessageReads(hooks, data, wire, portions, "");
      EventsMonotone(hooks, RESET_STATE, arrived, left);
      RunSplit(hooks, RESET_STATE, arrived, left);
    }
  }

  // ----- A message that is still being sent is the beginning of a whole one

  /** The rest of the document, one character a portion. */
  function Singles(s: string): (portions: seq<string>)
    ensures forall c :: c in portions ==> |c| == 1
  {
    if s == "" then [] else Singles(s[..|s| - 1]) + [s[|s| - 1..]]
  }

  lemma AddPortions(a: seq<string>, b: seq<string>)
    ensures Joined(a + b) == Joined(a) + Joined(b) && Chunks(a + b) == Chunks(a) + Chunks(b)
  {
    AddJoined(a, b);
    AddChunks(a, b);
  }

  lemma {:induction false} AddJoined(a: seq<string>, b: seq<string>)
    ensures Joined(a + b) == Joined(a) + Joined(b)
    decreases |b|
  {
    if b == [] {
      assert a + b == a;
    } else {
      var n := |b| - 1;
      AddJoined(a, b[..n]);
      assert (a + b)[..|a + b| - 1] == a + b[..n] && (a + b)[|a + b| - 1] == b[n];
      assert Joined(a) + (Joined(b[..n]) + b[n]) == (Joined(a) + Joined(b[..n])) + b[n];
    }
  }

  lemma {:induction false} AddChunks(a: seq<string>, b: seq<string>)
    ensures Chunks(a + b) == Chunks(a) + Chunks(b)
    decreases |b|
  {
    hide Chunk;
    if b == [] {
      assert a + b == a;
    } else {
      var n := |b| - 1;
      AddChunks(a, b[..n]);
      assert (a + b)[..|a + b| - 1] == a + b[..n] && (a + b)[|a + b| - 1] == b[n];
      assert Chunks(a) + (Chunks(b[..n]) + Chunk(b[n])) == (Chunks(a) + Chunks(b[..n])) + Chunk(b[n]);
    }
  }

  lemma SinglesOf(s: string)
    ensures Singles(s) == if s == "" then [] else Singles(s[..|s| - 1]) + [s[|s| - 1..]]
  {
  }

  lemma NothingJoined()
    ensures Joined([]) == ""
  {
  }

  lemma {:induction false} JoinedSingles(s: string)
    ensures Joined(Singles(s)) == s
  {
    hide Joined, Singles;
    SinglesOf(s);
    if s == "" {
      NothingJoined();
    } else {
      var n := |s| - 1;
      JoinedSingles(s[..n]);
      JoinedMore(Singles(s[..n]), s[n..]);
      assert s == s[..n] + s[n..];
    }
  }

  lemma {:induction false} HeadersPrefix(hs: seq<(string, string)>, n: nat)
    requires n <= |hs|
    ensures HeadersText(hs[..n]) <= HeadersText(hs)
    decreases |hs|
  {
    hide Kept, HeaderText;
    if n == |hs| {
      assert hs[..n] == hs;
    } else {
      var m := |hs| - 1;
      HeadersPrefix(hs[..m], n);
      assert hs[..m][..n] == hs[..n];
    }
  }

  lemma BodyPrefix(data: HttpData, portions: seq<string>, terminated: bool, rest: string)
    requires data.document.Some? && WantsChunks(data.headers) && terminated ==> rest == ""
    ensures BodyText(data, portions, terminated) <= BodyText(data, portions + Singles(rest), true)
  {
    hide Chunks, Joined, WantsChunks;
    AddPortions(portions, Singles(rest));
    if rest == "" {
      assert portions + Singles(rest) == portions;
    }
  }

  /** What a sender has on the wire at any moment is the beginning of a text of its message. */
  lemma WireIsPrefix(sender: HttpBase) returns (text: string, portions: seq<string>)
    requires sender.Valid() && sender.mode_ == HM_SEND
    ensures IsText(text, sender.data_.value, portions) && sender.wire <= text
  {
    hide Joined, Chunks, WantsChunks, QueuedText, Run, Singles;
    var data := sender.data_.value;
    var rest := if data.document.Some? then data.document.value[sender.position..] else "";
    portions := sender.portions + Singles(rest);
    text := QueuedText(data, |data.headers|, true, portions, true);
    assert sender.wire <= sender.wire + sender.Pending();
    AddPortions(sender.portions, Singles(rest));
    JoinedSingles(rest);
    QueuedPrefix(data, sender.header_, sender.ended, sender.portions, !sender.chunk_data_, rest);
  }

  lemma QueuedPrefix(data: HttpData, header: nat, ended: bool, portions: seq<string>, terminated: bool, rest: string)
    requires header <= |data.headers| && (ended ==> header == |data.headers|)
    requires !ended ==> BodyUntouched(data, portions, terminated)
    requires data.document.Some? && WantsChunks(data.headers) && terminated ==> rest == ""
    ensures QueuedText(data, header, ended, portions, terminated) <=
            QueuedText(data, |data.headers|, true, portions + Singles(rest), true)
  {
    hide HeadersText, Opening, Separator, Singles, WantsChunks;
    HeadersPrefix(data.headers, header);
    assert data.headers[..|data.headers|] == data.headers;
    var more := portions + Singles(rest);
    if ended {
      BodyPrefix(data, portions, terminated, rest);
    } else {
      assert BodyText(data, portions, terminated) == "";
    }
  }

  // ----- A sender that is not hindered comes to its end

  /** Characters of a message that is sent in the smallest portions. */
  function Longest(data: HttpData): nat {
    |Opening(data)| + |HeadersText(data.headers)| + |Separator(data)| + 13 * |Document(data)| + |LAST_CHUNK|
  }

  lemma {:induction false} PortionsCost(portions: seq<string>)
    requires forall c :: c in portions ==> 0 < |c|
    ensures |portions| <= |Joined(portions)| && |Chunks(portions)| == |Joined(portions)| + 12 * |portions|
    decreases |portions|
  {
    if portions != [] {
      PortionsCost(portions[..|portions| - 1]);
    }
  }

  lemma TextIsBounded(text: string, data: HttpData, portions: seq<string>)
    requires IsText(text, data, portions)
    ensures |text| <= Longest(data)
  {
    hide Opening, HeadersText, Separator, Chunks, Joined, WantsChunks;
    PortionsCost(portions);
    assert data.headers[..|data.headers|] == data.headers;
  }

  predicate AllReady(docs: seq<DocStep>) {
    forall d :: d in docs ==> d.DocReady?
  }

  predicate AllTake(writes: seq<NetStep>) {
    forall w :: w in writes ==> w.NetTakes?
  }

  lemma {:induction false} AllAreTakings(writes: seq<NetStep>)
    requires AllTake(writes)
    ensures Takings(writes) == |writes|
    decreases |writes|
  {
    if writes != [] {
      AllAreTakings(writes[..|writes| - 1]);
    }
  }

  lemma NeverStops(sender: HttpBase, docs: seq<DocStep>, writes: seq<NetStep>, attempts: nat)
    requires AllReady(docs) && AllTake(writes) && attempts < |writes| <= |docs|
    ensures !sender.Stops(attempts, docs, writes)
  {
    assert docs[attempts] in docs;
    if attempts > 0 {
      assert writes[attempts - 1] in writes;
    }
  }

  /** A sender that is still at work has not been given enough answers that take something. */
  lemma NotEnoughAnswers(sender: HttpBase, docs: seq<DocStep>, writes: seq<NetStep>, attempts: nat)
    requires sender.Valid() && sender.mode_ == HM_SEND && AllReady(docs) && AllTake(writes) && |writes| <= |docs|
    requires attempts <= |writes| && |sender.wire| >= Takings(writes[..attempts])
    requires attempts < |writes| ==> sender.Stops(attempts, docs, writes)
    ensures |writes| <= Longest(sender.data_.value)
  {
    hide IsText, Longest, Takings, QueuedText;
    if attempts < |writes| {
      NeverStops(sender, docs, writes, attempts);
      assert false;
    }
    assert writes[..|writes|] == writes;
    AllAreTakings(writes);
    var text, portions := WireIsPrefix(sender);
    TextIsBounded(text, sender.data_.value, portions);
  }

  /** A document that is always ready and a network that always takes something, however little:
      then send() completes its operation without an error, with the whole message on the wire. */
  method SendCompletes(sender: HttpBase, data: HttpData, docs: seq<DocStep>, writes: seq<NetStep>)
    requires sender.Valid() && sender.mode_ == HM_NONE && sender.attached_
    requires AllReady(docs) && AllTake(writes) && Longest(data) < |writes| <= |docs|
    modifies sender, sender.buffer_, sender.parser
    ensures sender.Valid() && sender.completions == old(sender.completions) + [(HM_SEND, HE_NONE)]
    ensures IsMessage(sender.wire, data, sender.portions)
  {
    hide Longest, IsMessage, Takings, QueuedText;
    var attempts := sender.Send(data, true, Script(docs, writes, [], []));
    if sender.mode_ == HM_SEND {
      NotEnoughAnswers(sender, docs, writes, attempts);
    }
  }

  /** The same for flush_data, from wherever an operation was interrupted. */
  method FlushCompletes(sender: HttpBase, docs: seq<DocStep>, writes: seq<NetStep>)
    requires sender.Valid() && sender.mode_ == HM_SEND
    requires AllReady(docs) && AllTake(writes) && Longest(sender.data_.value) < |writes| <= |docs|
    modifies sender, sender.buffer_, sender.parser
    ensures sender.Valid() && sender.completions == old(sender.completions) + [(HM_SEND, HE_NONE)]
    ensures IsMessage(sender.wire, old(sender.data_).value, sender.portions)
  {
    hide Longest, IsMessage, Takings, QueuedText;
    var attempts := sender.FlushData(docs, writes);
    if sender.mode_ == HM_SEND {
      NotEnoughAnswers(sender, docs, writes, attempts);
    }
  }

  /** The same for a write event of the stream, and for a read event of the document. */
  method WriteEventCompletes(sender: HttpBase, docs: seq<DocStep>, writes: seq<NetStep>)
    requires sender.Valid() && sender.mode_ == HM_SEND
    requires AllReady(docs) && AllTake(writes) && Longest(sender.data_.value) < |writes| <= |docs|
    modifies sender, sender.buffer_, sender.parser
    ensures sender.Valid() && sender.completions == old(sender.completions) + [(HM_SEND, HE_NONE)]
    ensures IsMessage(sender.wire, old(sender.data_).value, sender.portions)
  {
    hide Longest, IsMessage, Takings, QueuedText;
    var attempts;
    ghost var why, at;
    attempts, why, at := sender.OnHttpStreamEvent(StreamEvents(false, false, true, false), 0, Script(docs, writes, [], []));
    if sender.mode_ == HM_SEND {
      NotEnoughAnswers(sender, docs, writes, attempts);
    }
  }

  method ReadyEventCompletes(sender: HttpBase, docs: seq<DocStep>, writes: seq<NetStep>)
    requires sender.Valid() && sender.mode_ == HM_SEND
    requires AllReady(docs) && AllTake(writes) && Longest(sender.data_.value) < |writes| <= |docs|
    modifies sender, sender.buffer_, sender.parser
    ensures sender.Valid() && sender.completions == old(sender.completions) + [(HM_SEND, HE_NONE)]
    ensures IsMessage(sender.wire, old(sender.data_).value, sender.portions)
  {
    hide Longest, IsMessage, Takings, QueuedText;
    var attempts;
    ghost var why, at;
    attempts, why, at := sender.OnDocumentEvent(StreamEvents(false, true, false, false), Script(docs, writes, [], []));
    if sender.mode_ == HM_SEND {
      NotEnoughAnswers(sender, docs, writes, attempts);
    }
  }

  /** At every moment of every run, the callbacks made by a receiver that has got a part of what a
      sender has put on the wire are the beginning of the callbacks for the whole message. */
  lemma ReceivedIsPrefix(sender: HttpBase, receiver: HttpBase)
    requires sender.Valid() && sender.mode_ == HM_SEND
    requires receiver.Valid() && receiver.mode_ == HM_RECV && receiver.arrived <= sender.wire
    requires Readable(receiver.hooks, sender.data_.value)
    ensures receiver.parser.log <= MessageEvents(receiver.hooks, sender.data_.value)
  {
    hide Run, MessageEvents, Readable, QueuedText;
    var text, portions := WireIsPrefix(sender);
    EndToEnd(receiver.hooks, sender.data_.value, text, portions, receiver.arrived);
  }

  /** A receiver of a part of the message, or of more than it, never stops inside a body of unknown length. */
  lemma KnowsItsEnd(hooks: Hooks, data: HttpData, wire: string, portions: seq<string>, arrived: string,
                    log: seq<Event>, at: ParserState, rest: string)
    requires Readable(hooks, data) && IsText(wire, data, portions)
    requires arrived <= wire || wire <= arrived
    requires Run(hooks, RESET_STATE, arrived) == Prepend(log, Run(hooks, at, rest))
    ensures !(at.state == ST_DATA && at.dataSize == SIZE_UNKNOWN)
  {
    hide Run, MessageEvents, EndState, Readable, IsText;
    if at.state == ST_DATA && at.dataSize == SIZE_UNKNOWN {
      var left := if arrived <= wire then wire[|arrived|..] else "";
      EndToEnd(hooks, data, wire, portions, arrived + left);
      PathExtends(hooks, RESET_STATE, arrived, log, at, rest, left);
      UnknownNeverEnds(hooks, at, rest + left);
      assert false;
    }
  }

  /** How a reception of the message ends: without an error exactly if it was parsed to its end, and
      then the owner has got the whole message; and it never ends for want of room in the buffer.
      With the whole message there, only the document can make it end in another way. */
  lemma CompletedIsReceived(hooks: Hooks, data: HttpData, wire: string, portions: seq<string>, arrived: string,
                            log: seq<Event>, at: ParserState, rest: string, why: Ending, error: HttpError)
    requires Readable(hooks, data) && IsText(wire, data, portions)
    requires arrived <= wire || wire <= arrived
    requires Ended(hooks, arrived, log, at, rest, why, error)
    ensures error == HE_NONE <==> why == Parsed
    ensures error == HE_NONE ==> log == MessageEvents(hooks, data) && arrived == wire + rest
    ensures why != Overflow
    ensures wire <= arrived && NeverSwitches(hooks) ==>
              why == Parsed || why == DocumentFailed || (why.Closed? && BodyLeft(at, rest))
  {
    hide Run, MessageEvents, EndState, Readable, IsText, Waits, NeverSwitches;
    EndToEnd(hooks, data, wire, portions, arrived);
    if why != Parsed {
      WaitsMeans(hooks, at, rest);
      KnowsItsEnd(hooks, data, wire, portions, arrived, log, at, rest);
      if at.ReadsLines() && Waits(at, rest) {
        LineFits(hooks, data, wire, portions, arrived, log, at, rest);
      }
    }
  }

  /** With the whole message there, a receiver that is still at work has body characters to deliver. */
  lemma WholeMessageIsProcessed(receiver: HttpBase, data: HttpData, wire: string, portions: seq<string>)
    requires receiver.Valid() && receiver.mode_ == HM_RECV && NeverSwitches(receiver.hooks)
    requires Readable(receiver.hooks, data) && IsText(wire, data, portions) && wire <= receiver.arrived
    ensures BodyLeft(receiver.parser.Fields(), receiver.Pending())
  {
    hide Run, MessageEvents, EndState, Readable, IsText, Waits, NeverSwitches;
    EndToEnd(receiver.hooks, data, wire, portions, receiver.arrived);
    WaitsMeans(receiver.hooks, receiver.parser.Fields(), receiver.Pending());
  }

  /** What a call of the receive loop comes to at a receiver of the message: if the operation ends
      without an error, the owner has got exactly the message; and once the message is there, it ends
      so, unless the document does not take all of it, or fails, or the stream has ended before. */
  ghost predicate Delivered(receiver: HttpBase, script: Script, data: HttpData, wire: string, before: seq<(HttpMode, HttpError)>)
    requires receiver.Bounded() && Readable(receiver.hooks, data)
    reads receiver, receiver.buffer_, receiver.parser
  {
    var n := |before|;
    if receiver.mode_ == HM_RECV then wire <= receiver.arrived ==> receiver.NotTaken(script.takes)
    else
      && |receiver.completions| == n + 1 && before <= receiver.completions && receiver.completions[n].0 == HM_RECV
      && (receiver.completions[n].1 == HE_NONE ==>
            receiver.parser.log == MessageEvents(receiver.hooks, data) && receiver.arrived == wire + receiver.Pending())
      && (!DocumentFails(script.takes) && !StreamEnds(script.arrivals) ==> receiver.completions[n].1 == HE_NONE)
  }

  lemma CallDelivers(receiver: HttpBase, script: Script, data: HttpData, wire: string, portions: seq<string>,
                     before: seq<(HttpMode, HttpError)>, earlier: string, room: nat, why: Ending, at: ParserState)
    requires receiver.Valid() && NeverSwitches(receiver.hooks)
    requires Readable(receiver.hooks, data) && IsText(wire, data, portions)
    requires receiver.arrived <= wire || wire <= receiver.arrived
    requires receiver.Progress(receiver.mode_ == HM_RECV, script.arrivals, script.takes, earlier, room)
    requires receiver.mode_ == HM_RECV || receiver.ReceivedOnce(before, why, at)
    requires receiver.mode_ != HM_RECV && why.DocumentFailed? ==> DocumentFails(script.takes)
    requires receiver.mode_ != HM_RECV && why.Closed? ==> StreamEnds(script.arrivals)
    ensures Delivered(receiver, script, data, wire, before)
  {
    hide Run, MessageEvents, EndState, Readable, IsText, Waits, NeverSwitches, Ended, DocumentFails, StreamEnds, ReadsAll, HasRead;
    if receiver.mode_ == HM_RECV {
      if wire <= receiver.arrived {
        StillReceiving(receiver, data, wire, portions);
      }
    } else {
      CompletedIsReceived(receiver.hooks, data, wire, portions, receiver.arrived, receiver.parser.log, at,
                          receiver.Pending(), why, receiver.completions[|before|].1);
    }
  }

  /** A read event of the stream delivers so, whatever part of the message the network gives. */
  method ReadEventDelivers(receiver: HttpBase, script: Script, ghost data: HttpData, ghost wire: string, ghost portions: seq<string>)
    requires receiver.Valid() && receiver.mode_ == HM_RECV && NeverSwitches(receiver.hooks)
    requires Readable(receiver.hooks, data) && IsText(wire, data, portions)
    modifies receiver, receiver.buffer_, receiver.parser
    ensures receiver.Valid()
    ensures receiver.arrived <= wire || wire <= receiver.arrived ==>
              Delivered(receiver, script, data, wire, old(receiver.completions))
    ensures receiver.Progress(receiver.mode_ == HM_RECV, script.arrivals, script.takes, old(receiver.arrived), BUFFER_SIZE - old(receiver.len_))
    ensures receiver.mode_ == HM_RECV ==> receiver.completions == old(receiver.completions)
  {
    hide Readable, IsText, NeverSwitches, Ended, DocumentFails, StreamEnds, Delivered;
    ghost var before, earlier, room := receiver.completions, receiver.arrived, BUFFER_SIZE - receiver.len_;
    var attempts;
    ghost var why, at;
    attempts, why, at := receiver.OnHttpStreamEvent(StreamEvents(false, true, false, false), 0, script);
    if receiver.arrived <= wire || wire <= receiver.arrived {
      CallDelivers(receiver, script, data, wire, portions, before, earlier, room, why, at);
    }
  }

  /** So does a write event of the document, which goes on where the document did not take all. */
  method WritableEventDelivers(receiver: HttpBase, script: Script, ghost data: HttpData, ghost wire: string, ghost portions: seq<string>)
    requires receiver.Valid() && receiver.mode_ == HM_RECV && NeverSwitches(receiver.hooks)
    requires Readable(receiver.hooks, data) && IsText(wire, data, portions)
    modifies receiver, receiver.buffer_, receiver.parser
    ensures receiver.Valid()
    ensures receiver.arrived <= wire || wire <= receiver.arrived ==>
              Delivered(receiver, script, data, wire, old(receiver.completions))
    ensures receiver.Progress(receiver.mode_ == HM_RECV, script.arrivals, script.takes, old(receiver.arrived), BUFFER_SIZE - old(receiver.len_))
    ensures receiver.mode_ == HM_RECV ==> receiver.completions == old(receiver.completions)
  {
    hide Readable, IsText, NeverSwitches, Ended, DocumentFails, StreamEnds, Delivered;
    ghost var before, earlier, room := receiver.completions, receiver.arrived, BUFFER_SIZE - receiver.len_;
    var attempts;
    ghost var why, at;
    attempts, why, at := receiver.OnDocumentEvent(StreamEvents(false, false, true, false), script);
    if receiver.arrived <= wire || wire <= receiver.arrived {
      CallDelivers(receiver, script, data, wire, portions, before, earlier, room, why, at);
    }
  }

  // ----- A receiver that is not hindered comes to its end

  /** A receiver of the message that waits has room for more. */
  lemma RoomForMore(receiver: HttpBase, data: HttpData, wire: string, portions: seq<string>)
    requires receiver.Valid() && receiver.mode_ == HM_RECV && receiver.Waiting()
    requires Readable(receiver.hooks, data) && IsText(wire, data, portions) && receiver.arrived <= wire
    ensures receiver.len_ < BUFFER_SIZE
  {
    hide Run, Readable, IsText, IndexOf;
    if receiver.parser.Fields().ReadsLines() {
      LineFits(receiver.hooks, data, wire, portions, receiver.arrived, receiver.parser.log, receiver.parser.Fields(), receiver.Pending());
    }
  }

  lemma TakingNeverFails(takes: seq<seq<TakeStep>>)
    requires DocumentTakes(takes)
    ensures !DocumentFails(takes)
  {
    forall t | t in takes ensures TakeFailed !in t {
      assert AlwaysTakes(t);
    }
  }

  /** The document takes something of everything it is given, however little, and the network hands
      over the message in pieces of any length, one with each read event: then the reception is
      completed without an error, and the owner has got exactly the message. */
  method ReceiveCompletes(receiver: HttpBase, left: string, sizes: nat -> nat, answers: nat -> seq<seq<TakeStep>>,
                          ghost data: HttpData, ghost wire: string, ghost portions: seq<string>)
    requires receiver.Valid() && receiver.mode_ == HM_RECV && NeverSwitches(receiver.hooks) && receiver.Waiting()
    requires Readable(receiver.hooks, data) && IsText(wire, data, portions) && wire == receiver.arrived + left
    requires forall n :: DocumentTakes(answers(n))
    modifies receiver, receiver.buffer_, receiver.parser
    ensures receiver.Valid() && receiver.completions == old(receiver.completions) + [(HM_RECV, HE_NONE)]
    ensures receiver.parser.log == MessageEvents(receiver.hooks, data) && receiver.arrived == wire
  {
    hide Run, Readable, IsText, NeverSwitches, MessageEvents, DocumentTakes, DocumentFails, Waits;
    var n, rest := 0, left;
    while receiver.mode_ == HM_RECV
      invariant receiver.Valid()
      invariant receiver.mode_ == HM_RECV ==>
                  receiver.Waiting() && receiver.completions == old(receiver.completions) && wire == receiver.arrived + rest
      invariant receiver.mode_ != HM_RECV ==>
                  && receiver.completions == old(receiver.completions) + [(HM_RECV, HE_NONE)]
                  && receiver.parser.log == MessageEvents(receiver.hooks, data) && receiver.arrived == wire
      decreases |rest|, receiver.mode_ == HM_RECV
    {
      if rest == "" {
        assert wire <= receiver.arrived;
        StillReceiving(receiver, data, wire, portions);
        assert false;
      }
      RoomForMore(receiver, data, wire, portions);
      TakingNeverFails(answers(n));
      rest := OnePiece(receiver, rest, sizes(n), answers(n), data, wire, portions);
      n := n + 1;
    }
  }

  lemma PieceIsRead(receiver: HttpBase, piece: string, answers: seq<seq<TakeStep>>, earlier: string, room: nat)
    requires receiver.Bounded() && room > 0 && NeverSwitches(receiver.hooks) && DocumentTakes(answers)
    requires receiver.Progress(receiver.mode_ == HM_RECV, [Arrive(piece)], answers, earlier, room)
    ensures receiver.arrived == earlier + Received(piece, room)
    ensures receiver.mode_ == HM_RECV ==> receiver.Waiting()
  {
    hide Waits, NeverSwitches, DocumentTakes, ReadsAll, Received;
  }

  lemma NoEndInPiece(piece: string)
    ensures !StreamEnds([Arrive(piece)])
  {
  }

  /** One read event with one piece. */
  method OnePiece(receiver: HttpBase, rest: string, size: nat, answers: seq<seq<TakeStep>>,
                  ghost data: HttpData, ghost wire: string, ghost portions: seq<string>) returns (less: string)
    requires receiver.Valid() && receiver.mode_ == HM_RECV && NeverSwitches(receiver.hooks) && receiver.len_ < BUFFER_SIZE
    requires Readable(receiver.hooks, data) && IsText(wire, data, portions) && wire == receiver.arrived + rest && rest != ""
    requires DocumentTakes(answers) && !DocumentFails(answers)
    modifies receiver, receiver.buffer_, receiver.parser
    ensures receiver.Valid() && |less| < |rest|
    ensures receiver.mode_ == HM_RECV ==>
              receiver.Waiting() && receiver.completions == old(receiver.completions) && wire == receiver.arrived + less
    ensures receiver.mode_ != HM_RECV ==>
              && receiver.completions == old(receiver.completions) + [(HM_RECV, HE_NONE)]
              && receiver.parser.log == MessageEvents(receiver.hooks, data) && receiver.arrived == wire
  {
    hide Run, Readable, IsText, NeverSwitches, MessageEvents, DocumentTakes, DocumentFails, Waits, ReadsAll, HasRead, StreamEnds;
    var piece := rest[..Clamp(size, |rest|)];
    var took := Received(piece, BUFFER_SIZE - receiver.len_);
    less := rest[|took|..];
    assert rest == took + less;
    ghost var earlier, room := receiver.arrived, BUFFER_SIZE - receiver.len_;
    NoEndInPiece(piece);
    ReadEventDelivers(receiver, Script([], [], [Arrive(piece)], answers), data, wire, portions);
    PieceIsRead(receiver, piece, answers, earlier, room);
    assert wire == (earlier + took) + less;
  }

  /** From recv() on. */
  method RecvCompletes(receiver: HttpBase, mine: HttpData, wire: string, sizes: nat -> nat, answers: nat -> seq<seq<TakeStep>>,
                       ghost data: HttpData, ghost portions: seq<string>)
    requires receiver.Valid() && receiver.mode_ == HM_NONE && receiver.attached_ && NeverSwitches(receiver.hooks)
    requires Readable(receiver.hooks, data) && IsText(wire, data, portions)
    requires forall n :: DocumentTakes(answers(n))
    modifies receiver, receiver.buffer_, receiver.parser
    ensures receiver.Valid() && receiver.completions == old(receiver.completions) + [(HM_RECV, HE_NONE)]
    ensures receiver.parser.log == MessageEvents(receiver.hooks, data) && receiver.arrived == wire
  {
    hide Run, Readable, IsText, NeverSwitches, MessageEvents, DocumentTakes, DocumentFails, Waits, ReadsAll, Ended;
    var script := Script([], [], [], answers(0));
    TakingNeverFails(answers(0));
    ghost var before := receiver.completions;
    ghost var why, at := receiver.Recv(mine, true, script);
    assert receiver.arrived == "" && wire == receiver.arrived + wire;
    CallDelivers(receiver, script, data, wire, portions, before, "", BUFFER_SIZE, why, at);
    if receiver.mode_ == HM_RECV {
      ReceiveCompletes(receiver, wire, sizes, answers, data, wire, portions);
    }
  }

  lemma StillReceiving(receiver: HttpBase, data: HttpData, wire: string, portions: seq<string>)
    requires receiver.Valid() && receiver.mode_ == HM_RECV && NeverSwitches(receiver.hooks)
    requires Readable(receiver.hooks, data) && IsText(wire, data, portions) && wire <= receiver.arrived
    ensures !receiver.Waiting()
  {
    hide Run, MessageEvents, EndState, Readable, IsText, NeverSwitches, IndexOf;
    WholeMessageIsProcessed(receiver, data, wire, portions);
  }

  // ----- No line of a message is too long for the buffer

  /** Having got `a`, the parser is not waiting in front of an unfinished line that fills the buffer. */
  ghost predicate ShortAfter(hooks: Hooks, p: ParserState, a: string) {
    var o := Run(hooks, p, a);
    o.verdict == NeedMore && o.next.ReadsLines() ==> |o.rest| < BUFFER_SIZE
  }

  ghost predicate ShortLines(hooks: Hooks, p: ParserState, s: string) {
    forall a: string :: a <= s ==> ShortAfter(hooks, p, a)
  }

  lemma LineIsShort(hooks: Hooks, p: ParserState, line: string, s: string)
    requires p.ReadsLines() && '\n' !in line && |line| + 2 <= BUFFER_SIZE
    requires var e := LineStep(hooks, p, TrimRight(line)); e.flow.Finish? || ShortLines(hooks, e.next, s)
    ensures ShortLines(hooks, p, line + CRLF + s)
  {
    hide Run, LineStep, TrimRight, IndexOf, ShortAfter;
    forall a: string | a <= line + CRLF + s ensures ShortAfter(hooks, p, a) {
      if |a| < |line| + 2 {
        PartOfLine(hooks, p, line, s, a);
      } else {
        var b := a[|line| + 2..];
        assert a == line + CRLF + b && b <= s;
        BehindLine(hooks, p, line, b);
      }
    }
  }

  lemma PartOfLine(hooks: Hooks, p: ParserState, line: string, s: string, a: string)
    requires p.ReadsLines() && '\n' !in line && |line| + 2 <= BUFFER_SIZE
    requires a <= line + CRLF + s && |a| < |line| + 2
    ensures ShortAfter(hooks, p, a)
  {
    hide Run, LineStep, TrimRight;
    forall i | 0 <= i < |a| ensures a[i] != '\n' {
      assert a[i] == (line + CRLF + s)[i];
    }
    IndexOfUnique(a, '\n', |a|);
    RunLine(hooks, p, a);
  }

  lemma BehindLine(hooks: Hooks, p: ParserState, line: string, b: string)
    requires p.ReadsLines() && '\n' !in line
    requires var e := LineStep(hooks, p, TrimRight(line)); e.flow.Finish? || ShortAfter(hooks, e.next, b)
    ensures ShortAfter(hooks, p, line + CRLF + b)
  {
    hide Run, LineStep, TrimRight;
    LineReads(hooks, p, line, b);
  }

  lemma DataIsShort(hooks: Hooks, p: ParserState, data: string, s: string)
    requires p.state == ST_DATA && p.chunked && 0 < p.dataSize == |data| < SIZE_UNKNOWN
    requires ShortLines(hooks, p.(state := ST_CHUNKTERM, dataSize := 0), s)
    ensures ShortLines(hooks, p, data + s)
  {
    hide Run, BodyOf;
    var n := |data|;
    forall a: string | a <= data + s ensures ShortAfter(hooks, p, a) {
      RunData(hooks, p, a);
      if |a| < n {
        if a != "" {
          assert a[|a|..] == "";
          RunData(hooks, p.Consume(|a|), "");
        }
      } else {
        assert a[n..] <= s;
        assert ShortAfter(hooks, p.(state := ST_CHUNKTERM, dataSize := 0), a[n..]);
        RunData(hooks, p.Consume(n), a[n..]);
      }
    }
  }

  lemma ChunkIsShort(hooks: Hooks, p: ParserState, data: string, s: string)
    requires p.state == ST_CHUNKSIZE && p.chunked && 0 < |data| < 0x1_0000_0000
    requires ShortLines(hooks, p.(dataSize := 0), s)
    ensures ShortLines(hooks, p, Chunk(data) + s)
  {
    hide StrToUL16, HexDigits, ShortLines;
    var digits := HexDigits(|data|, CHUNK_DIGITS);
    var q := p.(state := ST_DATA, dataSize := |data|);
    assert Chunk(data) + s == digits + CRLF + (data + ("" + CRLF + s));
    assert TrimRight("") == "";
    LineIsShort(hooks, q.(state := ST_CHUNKTERM, dataSize := 0), "", s);
    DataIsShort(hooks, q, data, "" + CRLF + s);
    ChunkSizeReadsBack(|data|);
    TrimHex(digits);
    assert forall i :: 0 <= i < |digits| ==> digits[i] != '\n';
    LineIsShort(hooks, p, digits, data + ("" + CRLF + s));
  }

  lemma {:induction false} ChunksAreShort(hooks: Hooks, p: ParserState, chunks: seq<string>, s: string)
    requires p.state == ST_CHUNKSIZE && p.chunked && forall c :: c in chunks ==> 0 < |c| < 0x1_0000_0000
    requires ShortLines(hooks, if chunks == [] then p else p.(dataSize := 0), s)
    ensures ShortLines(hooks, p, Chunks(chunks) + s)
    decreases |chunks|
  {
    hide Chunk, ShortLines;
    if chunks == [] {
      assert "" + s == s;
    } else {
      var before, last := chunks[..|chunks| - 1], chunks[|chunks| - 1];
      assert Chunks(chunks) + s == Chunks(before) + (Chunk(last) + s);
      ChunkIsShort(hooks, if before == [] then p else p.(dataSize := 0), last, s);
      ChunksAreShort(hooks, p, before, Chunk(last) + s);
    }
  }

  lemma LastChunkIsShort(hooks: Hooks, p: ParserState)
    requires p.state == ST_CHUNKSIZE && p.chunked
    ensures ShortLines(hooks, p, LAST_CHUNK)
  {
    hide StrToUL16, TrimRight, ShortLines;
    ZeroReadsBack();
    assert LAST_CHUNK == "0" + CRLF + ("" + CRLF + "");
    LineIsShort(hooks, ParserState(ST_TRAILERS, true, 0), "", "");
    LineIsShort(hooks, p, "0", "" + CRLF + "");
  }

  lemma PlainIsShort(hooks: Hooks, p: ParserState, document: string)
    requires p.state == ST_DATA && !p.chunked && p.dataSize == |document| < SIZE_UNKNOWN
    ensures ShortLines(hooks, p, document)
  {
    hide Run, BodyOf;
    forall a: string | a <= document ensures ShortAfter(hooks, p, a) {
      RunData(hooks, p, a);
      if a != "" {
        assert a[|a|..] == "" && p.Portion(|a|) == |a|;
        RunData(hooks, p.Consume(|a|), "");
      }
    }
  }

  lemma {:induction false} HeadersAreShort(hooks: Hooks, p: ParserState, hs: seq<(string, string)>, s: string)
    requires p.state == ST_HEADERS && forall h :: h in hs ==> Sendable(h)
    requires ReadHeaders(hooks, p, hs).Accepted? && ShortLines(hooks, ReadHeaders(hooks, p, hs).next, s)
    ensures ReadHeaders(hooks, p, hs).next.state == ST_HEADERS
    ensures ShortLines(hooks, p, HeadersText(hs) + s)
    decreases |hs|
  {
    hide Run, HeaderText, Kept, Sendable, HeaderFields, Trim, ShortLines;
    if hs == [] {
      assert "" + s == s;
    } else {
      var before, h := hs[..|hs| - 1], hs[|hs| - 1];
      var q := ReadHeaders(hooks, p, before);
      HeadersReadBack(hooks, p, before, "");
      if !Kept(h) {
        assert HeadersText(hs) == HeadersText(before);
        HeadersAreShort(hooks, p, before, s);
      } else {
        assert HeadersText(hs) + s == HeadersText(before) + (HeaderText(h) + s);
        HeaderIsShort(hooks, q.next, h, s);
        HeadersAreShort(hooks, p, before, HeaderText(h) + s);
      }
    }
  }

  lemma HeaderIsShort(hooks: Hooks, p: ParserState, h: (string, string), s: string)
    requires p.state == ST_HEADERS && Sendable(h) && Kept(h)
    requires var e := HeaderFields(hooks, p, h.0, Trim(h.1)); e.flow.Finish? || ShortLines(hooks, e.next, s)
    ensures ShortLines(hooks, p, HeaderText(h) + s)
  {
    hide HeaderFields, Trim, HeaderLine, BlankHeaderLine, ShortLines, TrimRight;
    HeaderLineReads(hooks, p, h);
    LineIsShort(hooks, p, h.0 + ": " + h.1, s);
  }

  lemma PreambleIsShort(hooks: Hooks, leader: string, hs: seq<(string, string)>, s: string)
    requires '\n' !in leader && |leader| + 2 <= BUFFER_SIZE && forall h :: h in hs ==> Sendable(h)
    requires ReadPreamble(hooks, leader, hs).Accepted? && ShortLines(hooks, ReadPreamble(hooks, leader, hs).next, s)
    ensures ShortLines(hooks, RESET_STATE, PreambleText(leader, hs) + s)
  {
    hide HeadersText, ReadHeaders, BlankHeaderLine, ShortLines;
    var p := RESET_STATE.(state := ST_HEADERS);
    var r := ReadHeaders(hooks, p, hs);
    assert TrimRight("") == "";
    HeadersReadBack(hooks, p, hs, "");
    LineIsShort(hooks, r.next, "", s);
    HeadersAreShort(hooks, p, hs, "" + CRLF + s);
    assert PreambleText(leader, hs) + s == leader + CRLF + (HeadersText(hs) + ("" + CRLF + s));
    LineIsShort(hooks, RESET_STATE, leader, HeadersText(hs) + ("" + CRLF + s));
  }

  /** Every line the sender puts on the wire is shorter than the receiver's buffer. */
  lemma LinesAreShort(hooks: Hooks, data: HttpData, wire: string, portions: seq<string>)
    requires Readable(hooks, data) && IsText(wire, data, portions)
    ensures ShortLines(hooks, RESET_STATE, wire)
  {
    hide ReadPreamble, Chunks, Joined, PreambleText, QueuedText, ShortLines, WantsChunks;
    PreambleFits(data, portions, true);
    var body, r := BodyText(data, portions, true), ReadPreamble(hooks, data.leader, data.headers);
    if SendsChunks(data) {
      LastChunkIsShort(hooks, if portions == [] then r.next else r.next.(dataSize := 0));
      ChunksAreShort(hooks, r.next, portions, LAST_CHUNK);
    } else {
      PlainIsShort(hooks, r.next, Document(data));
    }
    PreambleIsShort(hooks, data.leader, data.headers, body);
  }

  /** A receiver of the message that waits for the end of a line has room for more in its buffer. */
  lemma LineFits(hooks: Hooks, data: HttpData, wire: string, portions: seq<string>, arrived: string,
                 log: seq<Event>, at: ParserState, rest: string)
    requires Readable(hooks, data) && IsText(wire, data, portions)
    requires arrived <= wire || wire <= arrived
    requires Run(hooks, RESET_STATE, arrived) == Prepend(log, Run(hooks, at, rest)) && Waits(at, rest) && at.ReadsLines()
    ensures |rest| < BUFFER_SIZE
  {
    hide Run, MessageEvents, EndState, Readable, IsText, Waits;
    WaitsMeans(hooks, at, rest);
    EndToEnd(hooks, data, wire, portions, arrived);
    LinesAreShort(hooks, data, wire, portions);
    assert ShortAfter(hooks, RESET_STATE, arrived);
  }

  // ----- When the announcement is right

  /** A receiver takes the header. */
  predicate Acceptable(hooks: Hooks, h: (string, string)) {
    && (EqualIgnoringCase(h.0, "Content-Length") ==> hooks.scanUnsigned(Trim(h.1)).Some?)
    && (EqualIgnoringCase(h.0, "Transfer-Encoding") ==>
          EqualIgnoringCase(Trim(h.1), "chunked") || EqualIgnoringCase(Trim(h.1), "identity"))
  }

  /** The headers are accepted exactly if each of them is that is sent. */
  lemma {:induction false} AcceptedIff(hooks: Hooks, p: ParserState, hs: seq<(string, string)>)
    ensures ReadHeaders(hooks, p, hs).Accepted? <==> forall h :: h in hs && Kept(h) ==> Acceptable(hooks, h)
  {
    hide Kept, EqualIgnoringCase, Trim;
    if hs != [] {
      var before, h := hs[..|hs| - 1], hs[|hs| - 1];
      AcceptedIff(hooks, p, before);
      assert hs == before + [h];
      NotBoth(h.0);
    }
  }

  predicate SaysChunked(h: (string, string)) {
    EqualIgnoringCase(h.0, "Transfer-Encoding") && h.1 == "chunked"
  }

  /** If every transfer encoding says "chunked", the receiver expects chunks exactly if the sender
      uses them. */
  lemma {:induction false} ChunksAreAnnounced(hooks: Hooks, p: ParserState, hs: seq<(string, string)>)
    requires ReadHeaders(hooks, p, hs).Accepted?
    requires forall h :: h in hs && EqualIgnoringCase(h.0, "Transfer-Encoding") ==> h.1 == "chunked"
    ensures ReadHeaders(hooks, p, hs).next.chunked == (p.chunked || WantsChunks(hs))
  {
    hide Kept, EqualIgnoringCase;
    if hs != [] {
      var before, h := hs[..|hs| - 1], hs[|hs| - 1];
      assert hs == before + [h];
      ChunksAreAnnounced(hooks, p, before);
      WantsChunksMeans(before);
      WantsChunksMeans(hs);
      NotBoth(h.0);
      TrimChunked();
      SameIsEqual("chunked");
      if SaysChunked(h) {
        ChunkedIsKept(h);
      }
    }
  }

  lemma SameIsEqual(s: string)
    ensures EqualIgnoringCase(s, s)
  {
  }

  lemma ChunkedIsKept(h: (string, string))
    requires SaysChunked(h)
    ensures Kept(h)
  {
  }

  lemma NotBoth(name: string)
    ensures !(EqualIgnoringCase(name, "Content-Length") && EqualIgnoringCase(name, "Transfer-Encoding"))
  {
  }

  lemma TrimChunked()
    ensures Trim("chunked") == "chunked"
  {
    TrimRightUnique("chunked", 7);
    SpacePrefixUnique("chunked", 0);
    assert "chunked"[0..] == "chunked" && "chunked"[..7] == "chunked";
  }

  lemma {:induction false} WantsChunksMeans(hs: seq<(string, string)>)
    requires forall h :: h in hs && EqualIgnoringCase(h.0, "Transfer-Encoding") ==> h.1 == "chunked"
    ensures WantsChunks(hs) <==> exists h :: h in hs && SaysChunked(h)
  {
    hide EqualIgnoringCase;
    if hs != [] {
      assert forall h :: h in hs <==> h == hs[0] || h in hs[1..];
      WantsChunksMeans(hs[1..]);
      if SaysChunked(hs[0]) {
        assert hs[0] in hs;
      }
    }
  }

  /** Without a transfer encoding, the receiver expects the length of the Content-Length headers. */
  lemma {:induction false} LengthIsAnnounced(hooks: Hooks, p: ParserState, hs: seq<(string, string)>, n: SizeT)
    requires ReadHeaders(hooks, p, hs).Accepted?
    requires forall h :: h in hs ==> !EqualIgnoringCase(h.0, "Transfer-Encoding")
    requires forall h :: h in hs && EqualIgnoringCase(h.0, "Content-Length") ==> hooks.scanUnsigned(Trim(h.1)) == Some(n)
    ensures var q := ReadHeaders(hooks, p, hs).next;
            && q.chunked == p.chunked
            && ((exists h :: h in hs && SaysLength(h)) ==> q.dataSize == n)
  {
    hide Kept, EqualIgnoringCase, Trim;
    if hs != [] {
      var before, h := hs[..|hs| - 1], hs[|hs| - 1];
      LengthIsAnnounced(hooks, p, before, n);
      assert hs == before + [h];
    }
  }

  predicate SaysLength(h: (string, string)) {
    EqualIgnoringCase(h.0, "Content-Length") && Kept(h)
  }

  lemma {:induction false} NoEncodingNoChunks(hs: seq<(string, string)>)
    requires forall h :: h in hs ==> !EqualIgnoringCase(h.0, "Transfer-Encoding")
    ensures !WantsChunks(hs)
  {
    if hs != [] {
      NoEncodingNoChunks(hs[1..]);
    }
  }

  /** The message can be told from its text, and the receiver accepts leader and headers. */
  predicate WellFormed(hooks: Hooks, data: HttpData) {
    && Fits(data) && '\n' !in data.leader && hooks.parseLeader(TrimRight(data.leader)) == HE_NONE
    && forall h :: h in data.headers ==> Sendable(h) && (Kept(h) ==> Acceptable(hooks, h))
  }

  /** A document sent in chunks: every transfer encoding says so, there is one, and the receiver's
      owner goes along. */
  ghost predicate AnnouncesChunks(hooks: Hooks, data: HttpData) {
    && SendsChunks(data)
    && (forall h :: h in data.headers && EqualIgnoringCase(h.0, "Transfer-Encoding") ==> h.1 == "chunked")
    && (forall n :: hooks.headerComplete(true, n).error == HE_NONE)
  }

  /** A document of announced length, without a transfer encoding. */
  predicate AnnouncesLength(hooks: Hooks, data: HttpData) {
    var n := |Document(data)|;
    && n < SIZE_UNKNOWN && hooks.headerComplete(false, n).error == HE_NONE && hooks.headerComplete(false, n).dataSize == n
    && (forall h :: h in data.headers ==> !EqualIgnoringCase(h.0, "Transfer-Encoding"))
    && (forall h :: h in data.headers && EqualIgnoringCase(h.0, "Content-Length") ==> hooks.scanUnsigned(Trim(h.1)) == Some(n))
    && (exists h :: h in data.headers && SaysLength(h))
  }

  /** What the headers have to be for the receiver to read the message. */
  lemma AnnouncedIsReadable(hooks: Hooks, data: HttpData)
    requires WellFormed(hooks, data) && (AnnouncesChunks(hooks, data) || AnnouncesLength(hooks, data))
    ensures Readable(hooks, data)
  {
    hide Kept, Acceptable, EqualIgnoringCase, TrimRight, Trim, WantsChunks, ReadHeaders;
    var p, hs := RESET_STATE.(state := ST_HEADERS), data.headers;
    AcceptedIff(hooks, p, hs);
    if AnnouncesChunks(hooks, data) {
      ChunksAreAnnounced(hooks, p, hs);
    } else {
      LengthIsAnnounced(hooks, p, hs, |Document(data)|);
      NoEncodingNoChunks(hs);
    }
  }

  // ----- The end of the stream

  /** When the stream ends, everything that has arrived was delivered exactly if the parser is waiting,
      which it is not if the document has blocked. */
  lemma CloseDelivers(hooks: Hooks, arrived: string, log: seq<Event>, at: ParserState, rest: string)
    requires Run(hooks, RESET_STATE, arrived) == Prepend(log, Run(hooks, at, rest)) && Settled(at, rest)
    ensures log == Run(hooks, RESET_STATE, arrived).events <==> Waits(at, rest)
  {
    hide Run, Waits;
    WaitsMeans(hooks, at, rest);
    if !Waits(at, rest) {
      BodyLeftMeans(hooks, at, rest);
    }
  }

  /** A read event at which the stream ends, at any receiver whose buffer is not full.  The operation
      ends without an error exactly if the body has no length; but whether something is lost depends
      on whether the parser was waiting, for every body. */
  method EndOfStream(receiver: HttpBase)
    requires receiver.Valid() && receiver.mode_ == HM_RECV && NeverSwitches(receiver.hooks) && receiver.len_ < BUFFER_SIZE
    modifies receiver, receiver.buffer_, receiver.parser
    ensures receiver.arrived == old(receiver.arrived) && receiver.parser.log == old(receiver.parser.log)
    ensures receiver.completions == old(receiver.completions) +
              [(HM_RECV, if old(receiver.parser.IsValidEndOfInput()) then HE_NONE else HE_DISCONNECTED)]
    ensures receiver.parser.log == Run(receiver.hooks, RESET_STATE, receiver.arrived).events <==> old(receiver.Waiting())
  {
    hide Run, Waits, NeverSwitches, Ended;
    ghost var before := receiver.completions;
    CloseDelivers(receiver.hooks, receiver.arrived, receiver.parser.log, receiver.parser.Fields(), receiver.Pending());
    var attempts;
    ghost var why, at;
    attempts, why, at := receiver.OnHttpStreamEvent(StreamEvents(false, true, false, false), 0, Script([], [], [ReadEos], []));
    CloseMeans(receiver, before, at);
  }

  lemma CloseMeans(receiver: HttpBase, before: seq<(HttpMode, HttpError)>, at: ParserState)
    requires receiver.Bounded() && receiver.ReceivedOnce(before, Closed(0), at)
    ensures receiver.completions == before + [(HM_RECV, StreamError(HM_RECV, at, 0))]
  {
    hide Run, Waits, NeverSwitches;
  }

  /** Behind the headers the encoding stays what it is. */
  lemma {:induction false} ChunkedStays(hooks: Hooks, p: ParserState, s: string)
    requires p.state != ST_LEADER && p.state != ST_HEADERS
    ensures Run(hooks, p, s).next.chunked == p.chunked
    decreases |s|, p.state == ST_DATA
  {
    hide StrToUL16, TrimRight, BodyOf, IndexOf;
    if p.ReadsLines() {
      var i := IndexOf(s, '\n');
      if i < |s| {
        ChunkedStays(hooks, LineStep(hooks, p, TrimRight(s[..i])).next, s[i + 1..]);
      }
    } else if p.state == ST_DATA && p.dataSize == 0 {
      if p.chunked {
        ChunkedStays(hooks, p.(state := ST_CHUNKTERM), s);
      }
    } else if p.state == ST_DATA && s != "" {
      var n := p.Portion(|s|);
      ChunkedStays(hooks, p.Consume(n), s[n..]);
    }
  }

  /** A pass that ends inside a body of unknown length was in it at every body character before. */
  lemma UnknownFromTheStart(hooks: Hooks, p: ParserState, s: string)
    requires p.state == ST_DATA && p.dataSize != 0 && s != ""
    requires Run(hooks, p, s).next == ParserState(ST_DATA, false, SIZE_UNKNOWN)
    ensures p.dataSize == SIZE_UNKNOWN
  {
    ChunkedStays(hooks, p, s);
    hide Run, BodyOf;
    RunData(hooks, p, s);
    var n := p.Portion(|s|);
    RunData(hooks, p.Consume(n), s[n..]);
  }

  const UNKNOWN_BODY := ParserState(ST_DATA, false, SIZE_UNKNOWN)

  lemma HeadOnly(hooks: Hooks, leader: string, body: string)
    requires '\n' !in leader && hooks.parseLeader(TrimRight(leader)) == HE_NONE
    requires hooks.headerComplete(false, SIZE_UNKNOWN) == HeaderDecision(HE_NONE, SIZE_UNKNOWN, false)
    ensures Run(hooks, RESET_STATE, leader + CRLF + CRLF + body) ==
            Outcome(UNKNOWN_BODY, "", [Leader(TrimRight(leader)), HeadersDone(false, SIZE_UNKNOWN)] + BodyOf(body), NeedMore)
  {
    hide Run, TrimRight, BodyOf;
    assert leader + CRLF + CRLF + body == PreambleText(leader, []) + body;
    PreambleReads(hooks, leader, [], body);
    UnknownNeverEnds(hooks, UNKNOWN_BODY, body);
    assert [Leader(TrimRight(leader))] + [] + [HeadersDone(false, SIZE_UNKNOWN)] ==
           [Leader(TrimRight(leader)), HeadersDone(false, SIZE_UNKNOWN)];
  }

  /** If there is body, and none of it was delivered, the parser stands in front of it. */
  lemma StandsInFrontOfBody(hooks: Hooks, arrived: string, log: seq<Event>, at: ParserState, rest: string)
    requires Run(hooks, RESET_STATE, arrived) == Prepend(log, Run(hooks, at, rest)) && Settled(at, rest)
    requires NoBody(log) && !NoBody(Run(hooks, RESET_STATE, arrived).events)
    ensures BodyLeft(at, rest)
    ensures Run(hooks, RESET_STATE, arrived).next == UNKNOWN_BODY ==> at.dataSize == SIZE_UNKNOWN
  {
    hide Run, Waits;
    WaitsMeans(hooks, at, rest);
    if BodyLeft(at, rest) && Run(hooks, RESET_STATE, arrived).next == UNKNOWN_BODY {
      UnknownFromTheStart(hooks, at, rest);
    }
  }

  /** The tail that is lost: headers without a length and some body arrive, the document is not ready,
      and the stream ends.  The operation ends without an error, and no character of the body was
      delivered. */
  method LoseTail(hooks: Hooks, leader: string, body: string) returns (receiver: HttpBase)
    requires '\n' !in leader && body != "" && |leader| + 4 + |body| < BUFFER_SIZE
    requires NeverSwitches(hooks) && hooks.parseLeader(TrimRight(leader)) == HE_NONE
    requires hooks.headerComplete(false, SIZE_UNKNOWN) == HeaderDecision(HE_NONE, SIZE_UNKNOWN, false)
    ensures fresh(receiver) && receiver.completions == [(HM_RECV, HE_NONE)]
    ensures receiver.arrived == leader + CRLF + CRLF + body && NoBody(receiver.parser.log)
    ensures Run(hooks, RESET_STATE, receiver.arrived).events ==
            [Leader(TrimRight(leader)), HeadersDone(false, SIZE_UNKNOWN)] + BodyOf(body)
  {
    hide Run, NeverSwitches, TrimRight, BodyOf, Waits, Ended, NoBody;
    var text := leader + CRLF + CRLF + body;
    HeadOnly(hooks, leader, body);
    SomeBody([Leader(TrimRight(leader)), HeadersDone(false, SIZE_UNKNOWN)], body);
    receiver := Stuck(hooks, text);
    EndOfStream(receiver);
  }

  lemma SomeBody(head: seq<Event>, body: string)
    requires body != ""
    ensures !NoBody(head + BodyOf(body))
  {
    assert (head + BodyOf(body))[|head|] == Body(body[0]);
  }

  /** A reception that has got it all at once, with nothing taken by the document, does not come to an end by itself. */
  lemma GoesOn(hooks: Hooks, arrived: string, log: seq<Event>, at: ParserState, rest: string, why: Ending, error: HttpError)
    requires |arrived| < BUFFER_SIZE && Ended(hooks, arrived, log, at, rest, why, error)
    requires NoBody(log) && !NoBody(Run(hooks, RESET_STATE, arrived).events)
    ensures why.Closed? || why.DocumentFailed?
  {
    hide Run, Waits, NoBody;
  }

  /** A receiver that has got `text` all at once, while its document takes nothing. */
  method Stuck(hooks: Hooks, text: string) returns (receiver: HttpBase)
    requires NeverSwitches(hooks) && |text| < BUFFER_SIZE
    requires !NoBody(Run(hooks, RESET_STATE, text).events)
    ensures fresh(receiver) && fresh(receiver.parser) && fresh(receiver.buffer_)
    ensures receiver.Valid() && receiver.mode_ == HM_RECV && receiver.arrived == text && receiver.completions == []
    ensures receiver.hooks == hooks && NoBody(receiver.parser.log) && receiver.len_ < BUFFER_SIZE
    ensures BodyLeft(receiver.parser.Fields(), receiver.Pending())
    ensures Run(hooks, RESET_STATE, text).next == UNKNOWN_BODY ==> receiver.parser.data_size_ == SIZE_UNKNOWN
  {
    hide Run, NoBody, Waits, NeverSwitches;
    receiver := new HttpBase(hooks);
    var attached := receiver.Attach(false);
    ghost var why, at := receiver.Recv(HttpData("", [], Some("")), true, Script([], [], [Arrive(text)], []));
    assert text[..|text|] == text && receiver.arrived == text;
    if receiver.mode_ != HM_RECV {
      GoesOn(hooks, text, receiver.parser.log, at, receiver.Pending(), why, receiver.completions[0].1);
    }
    StandsInFrontOfBody(hooks, text, receiver.parser.log, receiver.parser.Fields(), receiver.Pending());
  }

  /** And with a message that says where it ends: all of it arrives at once, the document is not ready,
      and the stream ends.  The operation ends with an error, although nothing is missing. */
  method DisconnectWhole(hooks: Hooks, ghost data: HttpData, wire: string, ghost portions: seq<string>) returns (receiver: HttpBase)
    requires Readable(hooks, data) && IsText(wire, data, portions) && Document(data) != ""
    requires NeverSwitches(hooks) && |wire| < BUFFER_SIZE
    ensures fresh(receiver) && receiver.completions == [(HM_RECV, HE_DISCONNECTED)]
    ensures receiver.arrived == wire && NoBody(receiver.parser.log)
    ensures Run(hooks, RESET_STATE, receiver.arrived).verdict == Done(HE_NONE)
  {
    hide Run, IsText, EndState, NeverSwitches, BodyOf, Waits, Ended, NoBody, ReadPreamble;
    EndToEnd(hooks, data, wire, portions, wire);
    SomeBody(ReadPreamble(hooks, data.leader, data.headers).events, Document(data));
    receiver := Stuck(hooks, wire);
    KnowsItsEnd(hooks, data, wire, portions, wire, receiver.parser.log, receiver.parser.Fields(), receiver.Pending());
    EndOfStream(receiver);
  }
}
