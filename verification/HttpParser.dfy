/** The incremental HTTP parser of webrtc/base/httpbase.cc.

    `Run` says what one call on a whole input does when the body consumer takes everything at
    once.  The class `HttpParser` is the imperative parser, whose consumer may take the body in
    any portions, block, or fail; its contract places it on the path of `Run`. */
module HttpParsing {

  /** isspace() of the C locale: blank, and the range from tab to carriage return. */
  predicate IsSpace(c: char) {
    c == ' ' || '\t' <= c <= '\r'
  }

  function ToLower(c: char): char {
    if 'A' <= c <= 'Z' then (c as int + 32) as char else c
  }

  /** _strnicmp(s, t, n) == 0 for two slices of the same length. */
  predicate EqualIgnoringCase(s: string, t: string) {
    |s| == |t| && forall i :: 0 <= i < |s| ==> ToLower(s[i]) == ToLower(t[i])
  }

  /** The position of the first `c`, or |s| when there is none. */
  function IndexOf(s: string, c: char): (i: nat)
    ensures i <= |s|
    ensures forall j :: 0 <= j < i ==> s[j] != c
    ensures i < |s| ==> s[i] == c
  {
    if s == "" || s[0] == c then 0 else 1 + IndexOf(s[1..], c)
  }

  function TrimRight(s: string): (r: string)
    ensures r <= s
    ensures r != "" ==> !IsSpace(r[|r| - 1])
    ensures forall i :: |r| <= i < |s| ==> IsSpace(s[i])
  {
    if s != "" && IsSpace(s[|s| - 1]) then TrimRight(s[..|s| - 1]) else s
  }

  function SpacePrefix(s: string): (i: nat)
    ensures i <= |s|
    ensures forall j :: 0 <= j < i ==> IsSpace(s[j])
    ensures i < |s| ==> !IsSpace(s[i])
  {
    if s == "" || !IsSpace(s[0]) then 0 else 1 + SpacePrefix(s[1..])
  }

  // ----- strtoul in base 16

  const ULONG_MODULUS: nat := 0x1_0000_0000_0000_0000

  /** size_t and unsigned long, 64 bits wide. */
  type SizeT = n: int | 0 <= n < ULONG_MODULUS

  predicate IsHexDigit(c: char) {
    '0' <= c <= '9' || 'a' <= c <= 'f' || 'A' <= c <= 'F'
  }

  function HexDigitValue(c: char): (d: nat)
    requires IsHexDigit(c)
    ensures d < 16
  {
    if '0' <= c <= '9' then c as int - '0' as int
    else if 'a' <= c <= 'f' then c as int - 'a' as int + 10
    else c as int - 'A' as int + 10
  }

  function HexPrefix(s: string): (i: nat)
    ensures i <= |s|
    ensures forall j :: 0 <= j < i ==> IsHexDigit(s[j])
    ensures i < |s| ==> !IsHexDigit(s[i])
  {
    if s == "" || !IsHexDigit(s[0]) then 0 else 1 + HexPrefix(s[1..])
  }

  function HexValue(s: string): nat
    requires forall j :: 0 <= j < |s| ==> IsHexDigit(s[j])
  {
    if s == "" then 0 else 16 * HexValue(s[..|s| - 1]) + HexDigitValue(s[|s| - 1])
  }

  /** strtoul(s, &ptr, 16) as the value and the offset of `ptr`: leading space, a sign, an optional
      0x that a digit follows, saturation at the largest value, negation modulo 2^64. */
  function StrToUL16(s: string): (r: (SizeT, nat))
    ensures r.1 <= |s|
  {
    var i := SpacePrefix(s);
    var negative := i < |s| && s[i] == '-';
    var j := if i < |s| && (s[i] == '-' || s[i] == '+') then i + 1 else i;
    var k := if j + 2 < |s| && s[j] == '0' && (s[j + 1] == 'x' || s[j + 1] == 'X') && IsHexDigit(s[j + 2])
             then j + 2 else j;
    var n := HexPrefix(s[k..]);
    if n == 0 then (0, 0)
    else
      var v := HexValue(s[k..][..n]);
      (if v >= ULONG_MODULUS then ULONG_MODULUS - 1
       else if negative then (ULONG_MODULUS - v) % ULONG_MODULUS
       else v, k + n)
  }

  // ----- Parser states, callbacks and outcomes

  datatype HttpError =
    | HE_NONE | HE_PROTOCOL | HE_DISCONNECTED | HE_OVERFLOW | HE_CONNECT_FAILED | HE_SOCKET_ERROR
    | HE_SHUTDOWN | HE_OPERATION_CANCELLED | HE_AUTH | HE_CERTIFICATE_EXPIRED | HE_STREAM | HE_CACHE
    | HE_DEFAULT

  datatype Option<+T> = None | Some(value: T)

  datatype State = ST_LEADER | ST_HEADERS | ST_CHUNKSIZE | ST_CHUNKTERM | ST_TRAILERS | ST_DATA | ST_COMPLETE

  /** The size_t value that stands for an unknown body length. */
  const SIZE_UNKNOWN: SizeT := ULONG_MODULUS - 1

  /** The three fields of the parser. */
  datatype ParserState = ParserState(state: State, chunked: bool, dataSize: SizeT) {
    predicate ReadsLines() {
      state != ST_DATA && state != ST_COMPLETE
    }

    /** How many of `available` body characters belong to the current body or chunk. */
    function Portion(available: nat): (n: nat)
      ensures n <= available && (dataSize == SIZE_UNKNOWN || n <= dataSize)
      ensures available > 0 && dataSize > 0 ==> n > 0
    {
      if dataSize != SIZE_UNKNOWN && available > dataSize then dataSize else available
    }

    /** The fields after `n` body characters. */
    function Consume(n: nat): ParserState
      requires dataSize == SIZE_UNKNOWN || n <= dataSize
    {
      if dataSize == SIZE_UNKNOWN then this else this.(dataSize := dataSize - n)
    }
  }

  const RESET_STATE := ParserState(ST_LEADER, false, SIZE_UNKNOWN)

  /** What the parser tells its owner; the body is reported character by character, so that two
      runs that cut it differently report the same. */
  datatype Event =
    | Leader(line: string)
    | Header(name: string, value: string)
    | HeadersDone(chunked: bool, dataSize: SizeT)
    | Body(c: char)

  datatype HeaderDecision = HeaderDecision(error: HttpError, dataSize: SizeT, switched: bool)

  /** The code outside the parser: the leader parser, sscanf("%u"), and the owner's answer to the
      end of the headers (which may replace the body size, and may switch the I/O model). */
  datatype Hooks = Hooks(
    parseLeader: string -> HttpError,
    scanUnsigned: string -> Option<SizeT>,
    headerComplete: (bool, SizeT) -> HeaderDecision)

  datatype Flow = Continue | Pause | Finish(error: HttpError)

  datatype LineEffect = LineEffect(next: ParserState, events: seq<Event>, flow: Flow)

  function HeaderFields(hooks: Hooks, p: ParserState, name: string, value: string): (e: LineEffect)
    ensures e.next.state == p.state
  {
    if EqualIgnoringCase(name, "Content-Length") then
      match hooks.scanUnsigned(value)
      case None => LineEffect(p, [], Finish(HE_PROTOCOL))
      case Some(n) => LineEffect(p.(dataSize := n), [Header(name, value)], Continue)
    else if EqualIgnoringCase(name, "Transfer-Encoding") then
      if EqualIgnoringCase(value, "chunked") then
        LineEffect(p.(chunked := true), [Header(name, value)], Continue)
      else if EqualIgnoringCase(value, "identity") then
        LineEffect(p.(chunked := false), [Header(name, value)], Continue)
      else LineEffect(p, [], Finish(HE_PROTOCOL))
    else LineEffect(p, [Header(name, value)], Continue)
  }

  function HeaderLine(hooks: Hooks, p: ParserState, line: string): (e: LineEffect)
    ensures e.next.state == p.state
  {
    var colon := IndexOf(line, ':');
    if colon == |line| then LineEffect(p, [], Finish(HE_PROTOCOL))
    else HeaderFields(hooks, p, line[..colon], line[colon + 1..][SpacePrefix(line[colon + 1..])..])
  }

  function BlankHeaderLine(hooks: Hooks, p: ParserState): LineEffect {
    var d := hooks.headerComplete(p.chunked, p.dataSize);
    var next := ParserState(if p.chunked then ST_CHUNKSIZE else ST_DATA, p.chunked, d.dataSize);
    LineEffect(next, [HeadersDone(p.chunked, p.dataSize)],
               if d.error != HE_NONE then Finish(d.error) else if d.switched then Pause else Continue)
  }

  /** HttpParser::ProcessLine on a line without its terminator and trailing space. */
  function LineStep(hooks: Hooks, p: ParserState, line: string): (e: LineEffect)
    requires p.ReadsLines()
    ensures e.next.state != ST_COMPLETE
  {
    match p.state
    case ST_LEADER =>
      var e := hooks.parseLeader(line);
      LineEffect(p.(state := ST_HEADERS), [Leader(line)], if e == HE_NONE then Continue else Finish(e))
    case ST_HEADERS =>
      if line != "" then HeaderLine(hooks, p, line) else BlankHeaderLine(hooks, p)
    case ST_CHUNKSIZE =>
      if line == "" then LineEffect(p, [], Finish(HE_PROTOCOL))
      else
        var (size, end) := StrToUL16(line);
        if end != |line| then LineEffect(p.(dataSize := size), [], Finish(HE_PROTOCOL))
        else LineEffect(p.(dataSize := size, state := if size == 0 then ST_TRAILERS else ST_DATA), [], Continue)
    case ST_CHUNKTERM =>
      if line != "" then LineEffect(p, [], Finish(HE_PROTOCOL))
      else LineEffect(p.(state := if p.chunked then ST_CHUNKSIZE else ST_DATA), [], Continue)
    case ST_TRAILERS =>
      LineEffect(p, [], if line == "" then Finish(HE_NONE) else Continue)
  }

  datatype Verdict = NeedMore | Done(error: HttpError)

  /** Where a run stops: the fields, the unprocessed tail, the callbacks made, and why it stopped. */
  datatype Outcome = Outcome(next: ParserState, rest: string, events: seq<Event>, verdict: Verdict)

  function BodyOf(s: string): (events: seq<Event>)
    ensures |events| == |s| && forall i :: 0 <= i < |s| ==> events[i] == Body(s[i])
  {
    seq(|s|, i requires 0 <= i < |s| => Body(s[i]))
  }

  function Prepend(events: seq<Event>, o: Outcome): Outcome {
    o.(events := events + o.events)
  }

  /** One uninterrupted pass over the input `s`. */
  function Run(hooks: Hooks, p: ParserState, s: string): Outcome
    decreases |s|, p.state == ST_DATA
  {
    if p.ReadsLines() then
      var i := IndexOf(s, '\n');
      if i == |s| then Outcome(p, s, [], NeedMore)
      else
        var effect := LineStep(hooks, p, TrimRight(s[..i]));
        if effect.flow.Finish? then Outcome(effect.next, s[i + 1..], effect.events, Done(effect.flow.error))
        else Prepend(effect.events, Run(hooks, effect.next, s[i + 1..]))
    else if p.state == ST_COMPLETE then Outcome(p, s, [], Done(HE_NONE))
    else if p.dataSize == 0 then
      if p.chunked then Run(hooks, p.(state := ST_CHUNKTERM), s) else Outcome(p, s, [], Done(HE_NONE))
    else if s == "" then Outcome(p, s, [], NeedMore)
    else
      var n := p.Portion(|s|);
      Prepend(BodyOf(s[..n]), Run(hooks, p.Consume(n), s[n..]))
  }

  // ----- Properties of a run

  lemma PrependTwice(a: seq<Event>, b: seq<Event>, o: Outcome)
    ensures Prepend(a, Prepend(b, o)) == Prepend(a + b, o)
    ensures Prepend([], o) == o
  {
    assert a + (b + o.events) == (a + b) + o.events;
    assert [] + o.events == o.events;
  }

  lemma IndexOfUnique(s: string, c: char, i: nat)
    requires i <= |s| && (forall j :: 0 <= j < i ==> s[j] != c) && (i < |s| ==> s[i] == c)
    ensures IndexOf(s, c) == i
  {
  }

  lemma SpacePrefixUnique(s: string, i: nat)
    requires i <= |s| && (forall j :: 0 <= j < i ==> IsSpace(s[j])) && (i < |s| ==> !IsSpace(s[i]))
    ensures SpacePrefix(s) == i
  {
  }

  lemma TrimRightUnique(s: string, n: nat)
    requires n <= |s| && (n > 0 ==> !IsSpace(s[n - 1])) && forall j :: n <= j < |s| ==> IsSpace(s[j])
    ensures TrimRight(s) == s[..n]
  {
  }

  lemma BodyOfSplit(s: string, n: nat)
    requires n <= |s|
    ensures BodyOf(s) == BodyOf(s[..n]) + BodyOf(s[n..])
  {
  }

  // The proofs below unfold one turn of `Run` at a time, by these two lemmas.

  function LineOutcome(hooks: Hooks, effect: LineEffect, rest: string): Outcome {
    if effect.flow.Finish? then Outcome(effect.next, rest, effect.events, Done(effect.flow.error))
    else Prepend(effect.events, Run(hooks, effect.next, rest))
  }

  lemma RunLine(hooks: Hooks, p: ParserState, s: string)
    requires p.ReadsLines()
    ensures var i := IndexOf(s, '\n');
            Run(hooks, p, s) ==
            if i == |s| then Outcome(p, s, [], NeedMore)
            else LineOutcome(hooks, LineStep(hooks, p, TrimRight(s[..i])), s[i + 1..])
  {
    hide LineStep, TrimRight, IndexOf;
  }

  lemma RunComplete(hooks: Hooks, p: ParserState, s: string)
    requires p.state == ST_COMPLETE
    ensures Run(hooks, p, s) == Outcome(p, s, [], Done(HE_NONE))
  {
  }

  lemma RunData(hooks: Hooks, p: ParserState, s: string)
    requires p.state == ST_DATA
    ensures p.dataSize == 0 && p.chunked ==> Run(hooks, p, s) == Run(hooks, p.(state := ST_CHUNKTERM), s)
    ensures p.dataSize == 0 && !p.chunked ==> Run(hooks, p, s) == Outcome(p, s, [], Done(HE_NONE))
    ensures p.dataSize != 0 && s == "" ==> Run(hooks, p, s) == Outcome(p, s, [], NeedMore)
    ensures p.dataSize != 0 && s != "" ==>
              var n := p.Portion(|s|);
              Run(hooks, p, s) == Prepend(BodyOf(s[..n]), Run(hooks, p.Consume(n), s[n..]))
  {
    hide LineStep, TrimRight, IndexOf, BodyOf;
  }

  /** Handing over a shorter portion of the body changes nothing in the end. */
  lemma DataPortion(hooks: Hooks, p: ParserState, s: string, n: nat)
    requires p.state == ST_DATA && p.dataSize != 0 && n <= p.Portion(|s|)
    ensures Run(hooks, p, s) == Prepend(BodyOf(s[..n]), Run(hooks, p.Consume(n), s[n..]))
  {
    hide Run, BodyOf;
    if n == 0 {
      assert s[0..] == s && p.Consume(0) == p && s[..0] == "";
      PrependTwice([], [], Run(hooks, p, s));
      assert BodyOf("") == [];
    } else {
      RunData(hooks, p, s);
      if n < p.Portion(|s|) {
        DataInTwo(hooks, p, s, n);
      }
    }
  }

  lemma DataInTwo(hooks: Hooks, p: ParserState, s: string, n: nat)
    requires p.state == ST_DATA && p.dataSize != 0 && 0 < n < p.Portion(|s|)
    ensures var m := p.Portion(|s|);
            Prepend(BodyOf(s[..m]), Run(hooks, p.Consume(m), s[m..])) ==
            Prepend(BodyOf(s[..n]), Run(hooks, p.Consume(n), s[n..]))
  {
    var m, q, t := p.Portion(|s|), p.Consume(n), s[n..];
    assert q.Portion(|t|) == m - n && q.Consume(m - n) == p.Consume(m);
    assert q.state == ST_DATA && q.dataSize != 0 && t != "";
    hide *;
    RunData(hooks, q, t);
    assert t[m - n..] == s[m..];
    BodySlices(s, n, m);
    PrependTwice(BodyOf(s[..n]), BodyOf(t[..m - n]), Run(hooks, p.Consume(m), s[m..]));
  }

  lemma BodySlices(s: string, n: nat, m: nat)
    requires n <= m <= |s|
    ensures BodyOf(s[..m]) == BodyOf(s[..n]) + BodyOf(s[n..][..m - n])
  {
    hide BodyOf;
    assert s[..m][..n] == s[..n] && s[..m][n..] == s[n..][..m - n];
    BodyOfSplit(s[..m], n);
  }

  /** A pass over `a + b` is a pass over `a`, then a pass over what that left followed by `b`. */
  lemma {:induction false} RunSplit(hooks: Hooks, p: ParserState, a: string, b: string)
    ensures var o := Run(hooks, p, a);
            Run(hooks, p, a + b) ==
            if o.verdict.Done? then o.(rest := o.rest + b)
            else Prepend(o.events, Run(hooks, o.next, o.rest + b))
    decreases |a|, p.state == ST_DATA
  {
    if p.ReadsLines() {
      SplitAtLine(hooks, p, a, b);
    } else if p.state == ST_DATA {
      SplitAtData(hooks, p, a, b);
    }
  }

  lemma {:induction false} SplitAtLine(hooks: Hooks, p: ParserState, a: string, b: string)
    requires p.ReadsLines()
    ensures var o := Run(hooks, p, a);
            Run(hooks, p, a + b) ==
            if o.verdict.Done? then o.(rest := o.rest + b)
            else Prepend(o.events, Run(hooks, o.next, o.rest + b))
    decreases |a|, false, 0
  {
    hide Run, LineStep, TrimRight;
    var i := IndexOf(a, '\n');
    RunLine(hooks, p, a);
    if i == |a| {
      PrependTwice([], [], Run(hooks, p, a + b));
    } else {
      IndexOfUnique(a + b, '\n', i);
      RunLine(hooks, p, a + b);
      assert (a + b)[..i] == a[..i] && (a + b)[i + 1..] == a[i + 1..] + b;
      var effect := LineStep(hooks, p, TrimRight(a[..i]));
      if !effect.flow.Finish? {
        RunSplit(hooks, effect.next, a[i + 1..], b);
        var o := Run(hooks, effect.next, a[i + 1..]);
        PrependTwice(effect.events, o.events, Run(hooks, o.next, o.rest + b));
      }
    }
  }

  lemma {:induction false} SplitAtData(hooks: Hooks, p: ParserState, a: string, b: string)
    requires p.state == ST_DATA
    ensures var o := Run(hooks, p, a);
            Run(hooks, p, a + b) ==
            if o.verdict.Done? then o.(rest := o.rest + b)
            else Prepend(o.events, Run(hooks, o.next, o.rest + b))
    decreases |a|, true, 0
  {
    hide Run, BodyOf;
    RunData(hooks, p, a);
    RunData(hooks, p, a + b);
    if p.dataSize == 0 {
      if p.chunked {
        SplitAtLine(hooks, p.(state := ST_CHUNKTERM), a, b);
      }
    } else if a == "" {
      PrependTwice([], [], Run(hooks, p, a + b));
    } else {
      var n := p.Portion(|a|);
      assert (a + b)[..n] == a[..n] && (a + b)[n..] == a[n..] + b;
      DataPortion(hooks, p, a + b, n);
      RunSplit(hooks, p.Consume(n), a[n..], b);
      var o := Run(hooks, p.Consume(n), a[n..]);
      PrependTwice(BodyOf(a[..n]), o.events, Run(hooks, o.next, o.rest + b));
    }
  }

  function Concat(pieces: seq<string>): string {
    if pieces == [] then "" else pieces[0] + Concat(pieces[1..])
  }

  /** Present the pieces one call at a time, each after the tail the previous call left. */
  function RunPieces(hooks: Hooks, p: ParserState, carry: string, pieces: seq<string>): Outcome
    decreases |pieces|
  {
    if pieces == [] then Run(hooks, p, carry)
    else
      var o := Run(hooks, p, carry + pieces[0]);
      if o.verdict.Done? then o.(rest := o.rest + Concat(pieces[1..]))
      else Prepend(o.events, RunPieces(hooks, o.next, o.rest, pieces[1..]))
  }

  /** Cutting the input anywhere changes neither the callbacks, nor the final fields, nor the
      unprocessed tail, nor the result. */
  lemma {:induction false} SplitIndependence(hooks: Hooks, p: ParserState, carry: string, pieces: seq<string>)
    ensures RunPieces(hooks, p, carry, pieces) == Run(hooks, p, carry + Concat(pieces))
    decreases |pieces|
  {
    if pieces == [] {
      assert carry + "" == carry;
    } else {
      var tail := Concat(pieces[1..]);
      assert carry + Concat(pieces) == (carry + pieces[0]) + tail;
      RunSplit(hooks, p, carry + pieces[0], tail);
      var o := Run(hooks, p, carry + pieces[0]);
      if !o.verdict.Done? {
        SplitIndependence(hooks, o.next, o.rest, pieces[1..]);
      }
    }
  }

  /** Callbacks are never taken back: those made on a prefix of the input are a prefix. */
  lemma EventsMonotone(hooks: Hooks, p: ParserState, a: string, b: string)
    ensures Run(hooks, p, a).events <= Run(hooks, p, a + b).events
  {
    RunSplit(hooks, p, a, b);
  }

  /** The parser is inside a body with nothing left of the input, or in front of a line whose end
      has not arrived. */
  predicate Waits(p: ParserState, s: string) {
    if p.ReadsLines() then IndexOf(s, '\n') == |s| else p.state == ST_DATA && p.dataSize != 0 && s == ""
  }

  /** The parser is in front of body characters. */
  predicate BodyLeft(p: ParserState, s: string) {
    p.state == ST_DATA && p.dataSize != 0 && s != ""
  }

  /** A pass that asks for more input stops where the parser waits. */
  lemma {:induction false} WaitsOnlyForInput(hooks: Hooks, p: ParserState, s: string)
    requires Run(hooks, p, s).verdict == NeedMore
    ensures Waits(Run(hooks, p, s).next, Run(hooks, p, s).rest)
    decreases |s|, p.state == ST_DATA
  {
    hide LineStep, TrimRight, BodyOf;
    if p.ReadsLines() {
      var i := IndexOf(s, '\n');
      if i < |s| {
        WaitsOnlyForInput(hooks, LineStep(hooks, p, TrimRight(s[..i])).next, s[i + 1..]);
      }
    } else if p.dataSize == 0 {
      WaitsOnlyForInput(hooks, p.(state := ST_CHUNKTERM), s);
    } else if s != "" {
      var n := p.Portion(|s|);
      WaitsOnlyForInput(hooks, p.Consume(n), s[n..]);
    }
  }

  /** Asked again without new input, the parser makes no callback and stays where it is. */
  lemma RunIdle(hooks: Hooks, p: ParserState, s: string)
    requires Run(hooks, p, s).verdict == NeedMore
    ensures var o := Run(hooks, p, s);
            Run(hooks, o.next, o.rest) == Outcome(o.next, o.rest, [], NeedMore)
  {
    hide Run;
    WaitsOnlyForInput(hooks, p, s);
    WaitsMeans(hooks, Run(hooks, p, s).next, Run(hooks, p, s).rest);
  }

  /** Exactly where the parser waits, it can do nothing with what it has. */
  lemma WaitsMeans(hooks: Hooks, p: ParserState, s: string)
    ensures Waits(p, s) <==> Run(hooks, p, s) == Outcome(p, s, [], NeedMore)
  {
    hide Run;
    if Waits(p, s) {
      if p.ReadsLines() {
        RunLine(hooks, p, s);
      } else {
        RunData(hooks, p, s);
      }
    } else if Run(hooks, p, s) == Outcome(p, s, [], NeedMore) {
      WaitsOnlyForInput(hooks, p, s);
      assert false;
    }
  }

  /** In front of body characters there is always a callback to be made. */
  lemma BodyLeftMeans(hooks: Hooks, p: ParserState, s: string)
    requires BodyLeft(p, s)
    ensures Run(hooks, p, s).events != []
  {
    hide Run, BodyOf;
    RunData(hooks, p, s);
    assert |BodyOf(s[..p.Portion(|s|)])| == p.Portion(|s|) > 0;
  }

  /** A body of unknown length never ends by itself, and all of it is reported. */
  lemma UnknownNeverEnds(hooks: Hooks, p: ParserState, s: string)
    requires p.state == ST_DATA && p.dataSize == SIZE_UNKNOWN
    ensures Run(hooks, p, s) == Outcome(p, "", BodyOf(s), NeedMore)
  {
    hide Run, BodyOf;
    RunData(hooks, p, s);
    if s == "" {
      assert BodyOf("") == [];
    } else {
      assert s[..|s|] == s && s[|s|..] == "";
      RunData(hooks, p, "");
      assert BodyOf(s) + [] == BodyOf(s);
    }
  }

  /** If the callbacks `log`, continued from `q` on `rest`, are those of a pass over `s`, this stays
      so when both inputs grow by `more`. */
  lemma PathExtends(hooks: Hooks, p: ParserState, s: string, log: seq<Event>, q: ParserState, rest: string, more: string)
    requires Run(hooks, p, s) == Prepend(log, Run(hooks, q, rest))
    ensures Run(hooks, p, s + more) == Prepend(log, Run(hooks, q, rest + more))
  {
    hide Run;
    RunSplit(hooks, p, s, more);
    RunSplit(hooks, q, rest, more);
    var o := Run(hooks, q, rest);
    PrependTwice(log, o.events, Run(hooks, o.next, o.rest + more));
  }

  // ----- The imperative parser

  datatype ProcessResult = PR_CONTINUE | PR_BLOCK | PR_COMPLETE

  /** How the document answers one write of `n` bytes: it takes min(max(k, 1), n) of them, blocks, or fails. */
  datatype TakeStep = Take(k: nat) | TakeBlocked | TakeFailed

  function Clamp(k: nat, n: nat): (r: nat)
    requires n > 0
    ensures 1 <= r <= n
  {
    if k < 1 then 1 else if k > n then n else k
  }

  /** How a call that started in `p` on `input` relates to the uninterrupted pass. */
  ghost predicate OnPath(hooks: Hooks, p: ParserState, input: string, result: ProcessResult, error: HttpError,
                         q: ParserState, rest: string, events: seq<Event>, consumerMayFail: bool) {
    var whole := Run(hooks, p, input);
    var interrupted := whole == Prepend(events, Run(hooks, q, rest));
    match result
    case PR_CONTINUE => error == HE_NONE && whole == Outcome(q, rest, events, NeedMore)
    case PR_BLOCK => error == HE_NONE && interrupted
    case PR_COMPLETE =>
      || whole == Outcome(q, rest, events, Done(error))
      || (consumerMayFail && error == HE_STREAM && q.state == ST_DATA && interrupted)
  }

  ghost predicate NoBody(events: seq<Event>) {
    forall e :: e in events ==> !e.Body?
  }

  lemma LinesHaveNoBody(hooks: Hooks, p: ParserState, line: string)
    requires p.ReadsLines()
    ensures NoBody(LineStep(hooks, p, line).events)
  {
    hide StrToUL16, TrimRight, EqualIgnoringCase, IndexOf, SpacePrefix;
  }

  lemma NoBodyJoins(a: seq<Event>, b: seq<Event>)
    requires NoBody(a) && NoBody(b)
    ensures NoBody(a + b)
  {
  }

  lemma NoBodyYet(a: seq<Event>)
    ensures NoBody(a[|a|..]) && NoBody([])
  {
  }

  /** Whether the document takes anything at all. */
  predicate Takes(steps: seq<TakeStep>) {
    exists t :: t in steps && t.Take?
  }

  /** The owner never switches to another I/O model at the end of the headers. */
  ghost predicate NeverSwitches(hooks: Hooks) {
    forall chunked, dataSize :: !hooks.headerComplete(chunked, dataSize).switched
  }

  lemma PauseMeansSwitch(hooks: Hooks, p: ParserState, line: string)
    requires p.ReadsLines() && LineStep(hooks, p, line).flow.Pause?
    ensures !NeverSwitches(hooks)
  {
    hide StrToUL16, EqualIgnoringCase, IndexOf, SpacePrefix;
  }

  lemma LogGrows(a: seq<Event>, b: seq<Event>, c: seq<Event>)
    requires a <= b <= c
    ensures c[|a|..] == b[|a|..] + c[|b|..]
  {
  }

  // ----- A call with a document that may not take everything

  /** What a call of Process comes to. */
  datatype Delivery = Delivery(result: ProcessResult, error: HttpError, next: ParserState, rest: string, events: seq<Event>)

  function After(events: seq<Event>, d: Delivery): Delivery {
    d.(events := events + d.events)
  }

  /** One call on the input `s`.  The body is sunk, or it is handed to a document that answers with
      `takes`, and blocks when they are used up. */
  function Deliver(hooks: Hooks, p: ParserState, s: string, sink: bool, takes: seq<TakeStep>): Delivery
    decreases |s|, p.state == ST_DATA
  {
    if p.ReadsLines() then
      var i := IndexOf(s, '\n');
      if i == |s| then Delivery(PR_CONTINUE, HE_NONE, p, s, [])
      else
        var effect := LineStep(hooks, p, TrimRight(s[..i]));
        match effect.flow
        case Finish(error) => Delivery(PR_COMPLETE, error, effect.next, s[i + 1..], effect.events)
        case Pause => Delivery(PR_BLOCK, HE_NONE, effect.next, s[i + 1..], effect.events)
        case Continue => After(effect.events, Deliver(hooks, effect.next, s[i + 1..], sink, takes))
    else if p.state == ST_COMPLETE then Delivery(PR_COMPLETE, HE_NONE, p, s, [])
    else if p.dataSize == 0 then
      if p.chunked then Deliver(hooks, p.(state := ST_CHUNKTERM), s, sink, takes)
      else Delivery(PR_COMPLETE, HE_NONE, p, s, [])
    else if s == "" then Delivery(PR_CONTINUE, HE_NONE, p, s, [])
    else
      var n := p.Portion(|s|);
      if sink then After(BodyOf(s[..n]), Deliver(hooks, p.Consume(n), s[n..], sink, takes))
      else if takes == [] || takes[0].TakeBlocked? then Delivery(PR_BLOCK, HE_NONE, p, s, [])
      else if takes[0].TakeFailed? then Delivery(PR_COMPLETE, HE_STREAM, p, s, [])
      else
        var m := Clamp(takes[0].k, n);
        After(BodyOf(s[..m]), Deliver(hooks, p.Consume(m), s[m..], sink, takes[1..]))
  }

  lemma AfterTwice(a: seq<Event>, b: seq<Event>, d: Delivery)
    ensures After(a, After(b, d)) == After(a + b, d)
    ensures After([], d) == d
  {
    assert a + (b + d.events) == (a + b) + d.events;
    assert [] + d.events == d.events;
  }

  // Deliver is unfolded by these lemmas.

  lemma DeliverComplete(hooks: Hooks, p: ParserState, s: string, sink: bool, takes: seq<TakeStep>)
    requires p.state == ST_COMPLETE
    ensures Deliver(hooks, p, s, sink, takes) == Delivery(PR_COMPLETE, HE_NONE, p, s, [])
  {
  }

  lemma DeliverLine(hooks: Hooks, p: ParserState, s: string, sink: bool, takes: seq<TakeStep>)
    requires p.ReadsLines()
    ensures var i := IndexOf(s, '\n');
            Deliver(hooks, p, s, sink, takes) ==
            if i == |s| then Delivery(PR_CONTINUE, HE_NONE, p, s, [])
            else
              var effect := LineStep(hooks, p, TrimRight(s[..i]));
              match effect.flow
              case Finish(error) => Delivery(PR_COMPLETE, error, effect.next, s[i + 1..], effect.events)
              case Pause => Delivery(PR_BLOCK, HE_NONE, effect.next, s[i + 1..], effect.events)
              case Continue => After(effect.events, Deliver(hooks, effect.next, s[i + 1..], sink, takes))
  {
    hide LineStep, TrimRight, IndexOf;
  }

  lemma DeliverData(hooks: Hooks, p: ParserState, s: string, sink: bool, takes: seq<TakeStep>)
    requires p.state == ST_DATA
    ensures p.dataSize == 0 ==>
              Deliver(hooks, p, s, sink, takes) ==
              if p.chunked then Deliver(hooks, p.(state := ST_CHUNKTERM), s, sink, takes)
              else Delivery(PR_COMPLETE, HE_NONE, p, s, [])
    ensures p.dataSize != 0 && s == "" ==> Deliver(hooks, p, s, sink, takes) == Delivery(PR_CONTINUE, HE_NONE, p, s, [])
    ensures p.dataSize != 0 && s != "" ==>
              Deliver(hooks, p, s, sink, takes) ==
              var n := p.Portion(|s|);
              if sink then After(BodyOf(s[..n]), Deliver(hooks, p.Consume(n), s[n..], sink, takes))
              else if takes == [] || takes[0].TakeBlocked? then Delivery(PR_BLOCK, HE_NONE, p, s, [])
              else if takes[0].TakeFailed? then Delivery(PR_COMPLETE, HE_STREAM, p, s, [])
              else
                var m := Clamp(takes[0].k, n);
                After(BodyOf(s[..m]), Deliver(hooks, p.Consume(m), s[m..], sink, takes[1..]))
  {
    hide LineStep, TrimRight, IndexOf, BodyOf;
  }

  /** How much of a portion of the body goes away. */
  function Taken(n: nat, sink: bool, step: TakeStep): (m: nat)
    requires n > 0
    ensures 1 <= m <= n
  {
    if sink || !step.Take? then n else Clamp(step.k, n)
  }

  /** The same for one portion, with the answers from `used` on. */
  lemma DeliverPortion(hooks: Hooks, p: ParserState, s: string, sink: bool, takes: seq<TakeStep>, used: nat)
    requires p.state == ST_DATA && p.dataSize != 0 && s != "" && used <= |takes|
    ensures var step := if used < |takes| then takes[used] else TakeBlocked;
            Deliver(hooks, p, s, sink, takes[used..]) ==
            if sink || step.Take? then
              var m := Taken(p.Portion(|s|), sink, step);
              After(BodyOf(s[..m]), Deliver(hooks, p.Consume(m), s[m..], sink, takes[if sink then used else used + 1..]))
            else Delivery(if step.TakeBlocked? then PR_BLOCK else PR_COMPLETE, if step.TakeBlocked? then HE_NONE else HE_STREAM, p, s, [])
  {
    hide Deliver, BodyOf;
    DeliverData(hooks, p, s, sink, takes[used..]);
    if used < |takes| {
      assert takes[used..][1..] == takes[used + 1..];
    }
  }

  /** The document may fail. */
  predicate MayFail(sink: bool, takes: seq<TakeStep>) {
    !sink && TakeFailed in takes
  }

  ghost predicate DeliveredOnPath(hooks: Hooks, p: ParserState, s: string, d: Delivery, consumerMayFail: bool) {
    OnPath(hooks, p, s, d.result, d.error, d.next, d.rest, d.events, consumerMayFail)
  }

  lemma OnPathAfter(hooks: Hooks, p: ParserState, s: string, events: seq<Event>, q: ParserState, t: string,
                    d: Delivery, before: bool, after: bool)
    requires Run(hooks, p, s) == Prepend(events, Run(hooks, q, t))
    requires DeliveredOnPath(hooks, q, t, d, before) && (before ==> after)
    ensures DeliveredOnPath(hooks, p, s, After(events, d), after)
  {
    hide Run;
    PrependTwice(events, d.events, Run(hooks, d.next, d.rest));
  }

  /** Whatever the document does, the call stays on the path of the uninterrupted pass. */
  lemma {:induction false} DeliverOnPath(hooks: Hooks, p: ParserState, s: string, sink: bool, takes: seq<TakeStep>)
    ensures DeliveredOnPath(hooks, p, s, Deliver(hooks, p, s, sink, takes), MayFail(sink, takes))
    decreases |s|, p.state == ST_DATA
  {
    if p.ReadsLines() {
      LineOnPath(hooks, p, s, sink, takes);
    } else if p.state == ST_DATA {
      DataOnPath(hooks, p, s, sink, takes);
    }
  }

  lemma {:induction false} LineOnPath(hooks: Hooks, p: ParserState, s: string, sink: bool, takes: seq<TakeStep>)
    requires p.ReadsLines()
    ensures DeliveredOnPath(hooks, p, s, Deliver(hooks, p, s, sink, takes), MayFail(sink, takes))
    decreases |s|, false, 0
  {
    hide Run, Deliver, LineStep, TrimRight, IndexOf, MayFail;
    RunLine(hooks, p, s);
    DeliverLine(hooks, p, s, sink, takes);
    var i := IndexOf(s, '\n');
    if i < |s| {
      var effect := LineStep(hooks, p, TrimRight(s[..i]));
      if effect.flow.Continue? {
        DeliverOnPath(hooks, effect.next, s[i + 1..], sink, takes);
        OnPathAfter(hooks, p, s, effect.events, effect.next, s[i + 1..],
                    Deliver(hooks, effect.next, s[i + 1..], sink, takes), MayFail(sink, takes), MayFail(sink, takes));
      }
    }
  }

  lemma {:induction false} DataOnPath(hooks: Hooks, p: ParserState, s: string, sink: bool, takes: seq<TakeStep>)
    requires p.state == ST_DATA
    ensures DeliveredOnPath(hooks, p, s, Deliver(hooks, p, s, sink, takes), MayFail(sink, takes))
    decreases |s|, true, 0
  {
    hide Run, Deliver, BodyOf;
    RunData(hooks, p, s);
    DeliverData(hooks, p, s, sink, takes);
    if p.dataSize == 0 {
      if p.chunked {
        LineOnPath(hooks, p.(state := ST_CHUNKTERM), s, sink, takes);
      }
    } else if s != "" {
      var n := p.Portion(|s|);
      if sink {
        DeliverOnPath(hooks, p.Consume(n), s[n..], sink, takes);
        OnPathAfter(hooks, p, s, BodyOf(s[..n]), p.Consume(n), s[n..],
                    Deliver(hooks, p.Consume(n), s[n..], sink, takes), false, false);
      } else if takes != [] && takes[0].Take? {
        var m := Clamp(takes[0].k, n);
        DataPortion(hooks, p, s, m);
        DeliverOnPath(hooks, p.Consume(m), s[m..], sink, takes[1..]);
        OnPathAfter(hooks, p, s, BodyOf(s[..m]), p.Consume(m), s[m..],
                    Deliver(hooks, p.Consume(m), s[m..], sink, takes[1..]), MayFail(sink, takes[1..]), MayFail(sink, takes));
      } else {
        PrependTwice([], [], Run(hooks, p, s));
      }
    }
  }

  /** It never goes back, nor into the completed state. */
  lemma {:induction false} DeliverGoesOn(hooks: Hooks, p: ParserState, s: string, sink: bool, takes: seq<TakeStep>)
    requires p.state != ST_COMPLETE
    ensures var d := Deliver(hooks, p, s, sink, takes); d.next.state != ST_COMPLETE && |d.rest| <= |s|
    decreases |s|, p.state == ST_DATA
  {
    hide LineStep, TrimRight, BodyOf;
    if p.ReadsLines() {
      var i := IndexOf(s, '\n');
      if i < |s| {
        DeliverGoesOn(hooks, LineStep(hooks, p, TrimRight(s[..i])).next, s[i + 1..], sink, takes);
      }
    } else if p.dataSize == 0 {
      DeliverGoesOn(hooks, p.(state := ST_CHUNKTERM), s, sink, takes);
    } else if s != "" {
      var n := p.Portion(|s|);
      if sink {
        DeliverGoesOn(hooks, p.Consume(n), s[n..], sink, takes);
      } else if takes != [] && takes[0].Take? {
        var m := Clamp(takes[0].k, n);
        DeliverGoesOn(hooks, p.Consume(m), s[m..], sink, takes[1..]);
      }
    }
  }

  /** It blocks only in front of body characters, and only if the document has blocked: with an answer,
      or because all its answers, of at least a character each, were used up. */
  lemma {:induction false} DeliverBlocks(hooks: Hooks, p: ParserState, s: string, sink: bool, takes: seq<TakeStep>)
    requires NeverSwitches(hooks) && Deliver(hooks, p, s, sink, takes).result.PR_BLOCK?
    ensures var d := Deliver(hooks, p, s, sink, takes);
            && !sink && BodyLeft(d.next, d.rest)
            && (TakeBlocked in takes || |takes| + |d.rest| <= |s|)
    decreases |s|, p.state == ST_DATA
  {
    hide LineStep, TrimRight, BodyOf, NeverSwitches;
    if p.ReadsLines() {
      var i := IndexOf(s, '\n');
      if i < |s| {
        if LineStep(hooks, p, TrimRight(s[..i])).flow.Pause? {
          PauseMeansSwitch(hooks, p, TrimRight(s[..i]));
        } else {
          DeliverBlocks(hooks, LineStep(hooks, p, TrimRight(s[..i])).next, s[i + 1..], sink, takes);
        }
      }
    } else if p.dataSize == 0 {
      DeliverBlocks(hooks, p.(state := ST_CHUNKTERM), s, sink, takes);
    } else if s != "" {
      var n := p.Portion(|s|);
      if sink {
        DeliverBlocks(hooks, p.Consume(n), s[n..], sink, takes);
      } else if takes != [] && takes[0].Take? {
        var m := Clamp(takes[0].k, n);
        DeliverBlocks(hooks, p.Consume(m), s[m..], sink, takes[1..]);
      }
    }
  }

  /** A document that takes nothing gets nothing. */
  lemma {:induction false} DeliverNothing(hooks: Hooks, p: ParserState, s: string, takes: seq<TakeStep>)
    requires !Takes(takes)
    ensures NoBody(Deliver(hooks, p, s, false, takes).events)
    decreases |s|, p.state == ST_DATA
  {
    hide LineStep, TrimRight, BodyOf, NoBody;
    NoBodyYet([]);
    if p.ReadsLines() {
      var i := IndexOf(s, '\n');
      if i < |s| {
        var effect := LineStep(hooks, p, TrimRight(s[..i]));
        LinesHaveNoBody(hooks, p, TrimRight(s[..i]));
        if effect.flow.Continue? {
          DeliverNothing(hooks, effect.next, s[i + 1..], takes);
          NoBodyJoins(effect.events, Deliver(hooks, effect.next, s[i + 1..], false, takes).events);
        }
      }
    } else if p.state == ST_DATA && p.dataSize == 0 && p.chunked {
      DeliverNothing(hooks, p.(state := ST_CHUNKTERM), s, takes);
    }
  }

  /** The next line of the input, without its terminator and its trailing space. */
  method FindLine(input: string, start: nat) returns (found: bool, line: string, next: nat)
    requires start <= |input|
    ensures start <= next <= |input|
    ensures var rest, i := input[start..], IndexOf(input[start..], '\n');
            && found == (i < |rest|)
            && (if found then start < next && line == TrimRight(rest[..i]) && input[next..] == rest[i + 1..]
                else next == start)
  {
    hide IndexOf, TrimRight;
    var pos := start;
    while pos < |input| && input[pos] != '\n'
      invariant start <= pos <= |input|
      invariant forall j :: start <= j < pos ==> input[j] != '\n'
    {
      pos := pos + 1;
    }
    IndexOfUnique(input[start..], '\n', pos - start);
    if pos >= |input| {
      return false, "", start;
    }
    var len := pos - start;
    while len > 0 && IsSpace(input[start + len - 1])
      invariant 0 <= len <= pos - start
      invariant forall j :: start + len <= j < pos ==> IsSpace(input[j])
    {
      len := len - 1;
    }
    TrimRightUnique(input[start..pos], len);
    assert input[start..][..pos - start] == input[start..pos];
    assert input[start..pos][..len] == input[start..start + len];
    return true, input[start..start + len], pos + 1;
  }

  method SkipSpaces(line: string, start: nat) returns (at: nat)
    requires start <= |line|
    ensures start <= at <= |line| && line[at..] == line[start..][SpacePrefix(line[start..])..]
  {
    at := start;
    while at < |line| && IsSpace(line[at])
      invariant start <= at <= |line|
      invariant forall j :: start <= j < at ==> IsSpace(line[j])
    {
      at := at + 1;
    }
    SpacePrefixUnique(line[start..], at - start);
  }

  /** Continuing a run by a call that stays on its path. */
  lemma PathContinues(hooks: Hooks, p: ParserState, s: string, log: seq<Event>, q: ParserState, input: string,
                      result: ProcessResult, error: HttpError, r: ParserState, rest: string, made: seq<Event>,
                      consumerMayFail: bool)
    requires Run(hooks, p, s) == Prepend(log, Run(hooks, q, input))
    requires OnPath(hooks, q, input, result, error, r, rest, made, consumerMayFail)
    ensures var on := Run(hooks, p, s) == Prepend(log + made, Run(hooks, r, rest));
            match result
            case PR_CONTINUE => on && Run(hooks, r, rest) == Outcome(r, rest, [], NeedMore)
            case PR_BLOCK => on
            case PR_COMPLETE =>
              || Run(hooks, p, s) == Outcome(r, rest, log + made, Done(error))
              || (consumerMayFail && error == HE_STREAM && on)
  {
    hide Run;
    PrependTwice(log, made, Run(hooks, r, rest));
    if result.PR_CONTINUE? {
      RunIdle(hooks, q, input);
      assert log + made + [] == log + made;
    }
  }

  class HttpParser {
    var state_: State
    var chunked_: bool
    var data_size_: SizeT
    // Every callback made so far.
    var log: seq<Event>

    constructor ()
      ensures Fields() == RESET_STATE && log == []
    {
      state_, chunked_, data_size_ := ST_LEADER, false, SIZE_UNKNOWN;
      log := [];
    }

    function Fields(): ParserState
      reads this
    {
      ParserState(state_, chunked_, data_size_)
    }

    method Reset()
      modifies this
      ensures Fields() == RESET_STATE && log == []
    {
      state_, chunked_, data_size_ := ST_LEADER, false, SIZE_UNKNOWN;
      log := [];
    }

    predicate IsValidEndOfInput()
      reads this
    {
      state_ == ST_DATA && data_size_ == SIZE_UNKNOWN
    }

    /** HttpParser::ProcessLine; a callback is an entry of the log. */
    method ProcessLine(hooks: Hooks, line: string) returns (flow: Flow)
      requires Fields().ReadsLines()
      modifies this
      ensures old(log) <= log
      ensures LineEffect(Fields(), log[|old(log)|..], flow) == LineStep(hooks, old(Fields()), line)
    {
      flow := Continue;
      match state_
      case ST_LEADER =>
        state_ := ST_HEADERS;
        log := log + [Leader(line)];
        var error := hooks.parseLeader(line);
        if error != HE_NONE { flow := Finish(error); }
      case ST_HEADERS =>
        if |line| > 0 {
          flow := ProcessHeaderLine(hooks, line);
        } else {
          state_ := if chunked_ then ST_CHUNKSIZE else ST_DATA;
          log := log + [HeadersDone(chunked_, data_size_)];
          var decision := hooks.headerComplete(chunked_, data_size_);
          data_size_ := decision.dataSize;
          if decision.error != HE_NONE { flow := Finish(decision.error); }
          else if decision.switched { flow := Pause; }
        }
      case ST_CHUNKSIZE =>
        if |line| > 0 {
          var (size, end) := StrToUL16(line);
          data_size_ := size;
          if end != |line| { return Finish(HE_PROTOCOL); }
          state_ := if data_size_ == 0 then ST_TRAILERS else ST_DATA;
        } else {
          flow := Finish(HE_PROTOCOL);
        }
      case ST_CHUNKTERM =>
        if |line| > 0 { flow := Finish(HE_PROTOCOL); }
        else { state_ := if chunked_ then ST_CHUNKSIZE else ST_DATA; }
      case ST_TRAILERS =>
        if |line| == 0 { flow := Finish(HE_NONE); }
    }

    method ProcessHeaderLine(hooks: Hooks, line: string) returns (flow: Flow)
      modifies this
      ensures old(log) <= log
      ensures LineEffect(Fields(), log[|old(log)|..], flow) == HeaderLine(hooks, old(Fields()), line)
    {
      hide IndexOf, SpacePrefix, EqualIgnoringCase;
      var colon := IndexOf(line, ':');
      if colon == |line| { return Finish(HE_PROTOCOL); }
      var value := SkipSpaces(line, colon + 1);
      if EqualIgnoringCase(line[..colon], "Content-Length") {
        match hooks.scanUnsigned(line[value..])
        case None => return Finish(HE_PROTOCOL);
        case Some(n) => data_size_ := n;
      } else if EqualIgnoringCase(line[..colon], "Transfer-Encoding") {
        if EqualIgnoringCase(line[value..], "chunked") {
          chunked_ := true;
        } else if EqualIgnoringCase(line[value..], "identity") {
          chunked_ := false;
        } else {
          return Finish(HE_PROTOCOL);
        }
      }
      log := log + [Header(line[..colon], line[value..])];
      flow := Continue;
    }

    /** The document write behind HttpBase::ProcessData. */
    method ProcessData(data: string, sink: bool, step: TakeStep) returns (flow: Flow, read: nat)
      requires data != ""
      modifies this`log
      ensures flow.Continue? ==> read == Taken(|data|, sink, step) && log == old(log) + BodyOf(data[..read])
      ensures !flow.Continue? ==> log == old(log) && !sink
      ensures flow == if sink || step.Take? then Continue else if step.TakeBlocked? then Pause else Finish(HE_STREAM)
    {
      read := 0;
      if sink {
        read := |data|;
        flow := Continue;
      } else {
        match step
        case Take(k) => read := Clamp(k, |data|); flow := Continue;
        case TakeBlocked => flow := Pause;
        case TakeFailed => flow := Finish(HE_STREAM);
      }
      if flow.Continue? {
        log := log + BodyOf(data[..read]);
      }
    }

    /** Read and process one line, if its end is there. */
    method LineTurn(hooks: Hooks, input: string, start: nat) returns (found: bool, flow: Flow, processed: nat)
      requires Fields().ReadsLines() && start <= |input|
      modifies this
      ensures old(log) <= log && start <= processed <= |input| && state_ != ST_COMPLETE
      ensures var s, i := input[start..], IndexOf(input[start..], '\n');
              && found == (i < |s|)
              && (!found ==> log == old(log) && Fields() == old(Fields()) && processed == start)
              && (found ==> start < processed && input[processed..] == s[i + 1..] &&
                            LineEffect(Fields(), log[|old(log)|..], flow) == LineStep(hooks, old(Fields()), TrimRight(s[..i])))
    {
      hide TrimRight, IndexOf, HeaderLine, BlankHeaderLine, StrToUL16;
      var line;
      found, line, processed := FindLine(input, start);
      if found {
        flow := ProcessLine(hooks, line);
      } else {
        flow := Continue;
      }
    }

    /** Hand one portion of the body to the document. */
    method DataTurn(hooks: Hooks, input: string, start: nat, sink: bool, step: TakeStep)
      returns (flow: Flow, processed: nat)
      requires state_ == ST_DATA && data_size_ != 0 && start < |input|
      modifies this
      ensures old(log) <= log && state_ == ST_DATA
      ensures flow == if sink || step.Take? then Continue else if step.TakeBlocked? then Pause else Finish(HE_STREAM)
      ensures flow.Continue? ==>
                var m := Taken(old(Fields()).Portion(|input| - start), sink, step);
                && processed == start + m && Fields() == old(Fields()).Consume(m)
                && log == old(log) + BodyOf(input[start..][..m]) && input[processed..] == input[start..][m..]
      ensures !flow.Continue? ==> processed == start && log == old(log) && Fields() == old(Fields()) && !sink
    {
      var available := |input| - start;
      if data_size_ != SIZE_UNKNOWN && available > data_size_ {
        available := data_size_;
      }
      var data := input[start..start + available];
      var read;
      processed := start;
      flow, read := ProcessData(data, sink, step);
      if flow.Continue? {
        assert data[..read] == input[start..][..read];
        assert input[start..][read..] == input[start + read..];
        processed := start + read;
        if data_size_ != SIZE_UNKNOWN {
          data_size_ := data_size_ - read;
        }
      }
    }

    /** HttpParser::Process.  `sink` says that the body is ignored or has no document; otherwise
        `takes` are the answers of the document, which blocks when they are used up. */
    method Process(hooks: Hooks, input: string, sink: bool, takes: seq<TakeStep>)
      returns (result: ProcessResult, processed: nat, error: HttpError)
      modifies this
      ensures processed <= |input| && old(log) <= log
      ensures Delivery(result, error, Fields(), input[processed..], log[|old(log)|..]) ==
              Deliver(hooks, old(Fields()), input, sink, takes)
      // What that means.
      ensures old(state_) != ST_COMPLETE ==> state_ != ST_COMPLETE
      ensures sink || Takes(takes) || NoBody(log[|old(log)|..])
      ensures result.PR_BLOCK? && NeverSwitches(hooks) ==>
                && !sink && state_ == ST_DATA && data_size_ != 0 && processed < |input|
                && (TakeBlocked in takes || |takes| <= processed)
      ensures OnPath(hooks, old(Fields()), input, result, error, Fields(), input[processed..], log[|old(log)|..],
                     MayFail(sink, takes))
    {
      hide Deliver, OnPath, NoBody, NeverSwitches, Takes, MayFail;
      ghost var start, before := Fields(), log;
      result, processed, error := ProcessLoop(hooks, input, sink, takes);
      DeliverOnPath(hooks, start, input, sink, takes);
      if start.state != ST_COMPLETE {
        DeliverGoesOn(hooks, start, input, sink, takes);
      }
      if !sink && !Takes(takes) {
        DeliverNothing(hooks, start, input, takes);
      }
      if NeverSwitches(hooks) && result.PR_BLOCK? {
        DeliverBlocks(hooks, start, input, sink, takes);
      }
    }

    /** The loop of Process. */
    method ProcessLoop(hooks: Hooks, input: string, sink: bool, takes: seq<TakeStep>)
      returns (result: ProcessResult, processed: nat, error: HttpError)
      modifies this
      ensures processed <= |input| && old(log) <= log
      ensures Delivery(result, error, Fields(), input[processed..], log[|old(log)|..]) ==
              Deliver(hooks, old(Fields()), input, sink, takes)
    {
      hide Deliver;
      result, processed, error := PR_COMPLETE, 0, HE_NONE;
      assert input[0..] == input && takes[0..] == takes;
      ghost var whole := Deliver(hooks, Fields(), input, sink, takes);
      if state_ == ST_COMPLETE {
        DeliverComplete(hooks, Fields(), input, sink, takes);
        return;
      }
      var used, stop := 0, false;
      AfterTwice([], [], whole);
      while !stop
        invariant processed <= |input| && used <= |takes| && old(log) <= log && (!stop ==> state_ != ST_COMPLETE)
        invariant whole == if stop then Delivery(result, error, Fields(), input[processed..], log[|old(log)|..])
                           else After(log[|old(log)|..], Deliver(hooks, Fields(), input[processed..], sink, takes[used..]))
        decreases !stop, |input| - processed, state_ == ST_DATA
      {
        ghost var before, here := log[|old(log)|..], log;
        stop, result, error, processed, used := ProcessTurn(hooks, input, processed, sink, takes, used);
        LogGrows(old(log), here, log);
        AfterTwice(before, log[|here|..], Deliver(hooks, Fields(), input[processed..], sink, takes[used..]));
      }
    }

    /** One turn of it: a line, a portion of the body, or a step between the two. */
    method ProcessTurn(hooks: Hooks, input: string, start: nat, sink: bool, takes: seq<TakeStep>, asked: nat)
      returns (stop: bool, result: ProcessResult, error: HttpError, processed: nat, used: nat)
      requires state_ != ST_COMPLETE && start <= |input| && asked <= |takes|
      modifies this
      ensures old(log) <= log && start <= processed <= |input| && used <= |takes| && state_ != ST_COMPLETE
      ensures !stop ==> processed > start || (old(state_) == ST_DATA && state_ != ST_DATA)
      ensures Deliver(hooks, old(Fields()), input[start..], sink, takes[asked..]) ==
              if stop then Delivery(result, error, Fields(), input[processed..], log[|old(log)|..])
              else After(log[|old(log)|..], Deliver(hooks, Fields(), input[processed..], sink, takes[used..]))
    {
      hide Deliver;
      used := asked;
      if state_ != ST_DATA {
        stop, result, error, processed := LinePart(hooks, input, start, sink, takes[asked..]);
      } else if data_size_ != 0 && start < |input| {
        stop, result, error, processed, used := DataPart(hooks, input, start, sink, takes, asked);
      } else {
        DeliverData(hooks, Fields(), input[start..], sink, takes[asked..]);
        stop, result, error, processed := true, if data_size_ == 0 then PR_COMPLETE else PR_CONTINUE, HE_NONE, start;
        if data_size_ == 0 && chunked_ {
          state_ := ST_CHUNKTERM;
          stop := false;
          AfterTwice([], [], Deliver(hooks, Fields(), input[start..], sink, takes[asked..]));
        }
      }
    }

    method LinePart(hooks: Hooks, input: string, start: nat, sink: bool, takes: seq<TakeStep>)
      returns (stop: bool, result: ProcessResult, error: HttpError, processed: nat)
      requires Fields().ReadsLines() && start <= |input|
      modifies this
      ensures old(log) <= log && start <= processed <= |input| && state_ != ST_COMPLETE && (!stop ==> processed > start)
      ensures Deliver(hooks, old(Fields()), input[start..], sink, takes) ==
              if stop then Delivery(result, error, Fields(), input[processed..], log[|old(log)|..])
              else After(log[|old(log)|..], Deliver(hooks, Fields(), input[processed..], sink, takes))
    {
      hide Deliver, LineStep, TrimRight, IndexOf;
      DeliverLine(hooks, Fields(), input[start..], sink, takes);
      stop, result, error := true, PR_COMPLETE, HE_NONE;
      var found, flow;
      found, flow, processed := LineTurn(hooks, input, start);
      if !found {
        result := PR_CONTINUE;
        return;
      }
      match flow
      case Finish(e) => error := e;
      case Pause => result := PR_BLOCK;
      case Continue => stop := false;
    }

    method DataPart(hooks: Hooks, input: string, start: nat, sink: bool, takes: seq<TakeStep>, asked: nat)
      returns (stop: bool, result: ProcessResult, error: HttpError, processed: nat, used: nat)
      requires state_ == ST_DATA && data_size_ != 0 && start < |input| && asked <= |takes|
      modifies this
      ensures old(log) <= log && start <= processed <= |input| && state_ != ST_COMPLETE && (!stop ==> processed > start)
      ensures used <= |takes|
      ensures Deliver(hooks, old(Fields()), input[start..], sink, takes[asked..]) ==
              if stop then Delivery(result, error, Fields(), input[processed..], log[|old(log)|..])
              else After(log[|old(log)|..], Deliver(hooks, Fields(), input[processed..], sink, takes[used..]))
    {
      hide Deliver, BodyOf, Taken;
      DeliverPortion(hooks, Fields(), input[start..], sink, takes, asked);
      stop, result, error, used := true, PR_COMPLETE, HE_NONE, asked;
      var flow;
      flow, processed := DataTurn(hooks, input, start, sink, if asked < |takes| then takes[asked] else TakeBlocked);
      match flow
      case Pause => result := PR_BLOCK;
      case Finish(e) => error := e;
      case Continue =>
        stop := false;
        used := if sink then asked else asked + 1;
    }

    /** HttpParser::complete; the flag says whether OnComplete is called. */
    method Complete() returns (notify: bool)
      modifies this`state_
      ensures notify == (old(state_) != ST_COMPLETE) && state_ == ST_COMPLETE
    {
      notify := state_ != ST_COMPLETE;
      state_ := ST_COMPLETE;
    }
  }
}
