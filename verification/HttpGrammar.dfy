/** Which texts end a message, and how, said of the text alone.  A text ends a message for the parser
    of webrtc/base/httpbase.cc exactly if it begins with one of the seven shapes of `Ending`: a whole
    message, plain or chunked, or a text that breaks off at the first thing that is refused. */
module HttpGrammar {

  import opened HttpParsing

  // ----- Characters and numbers

  const LOWER := "abcdefghijklmnopqrstuvwxyz"
  const UPPER := "ABCDEFGHIJKLMNOPQRSTUVWXYZ"

  /** The two cases of the letters. */
  lemma CaseIs(c: char, i: nat)
    ensures |LOWER| == |UPPER| == 26 && (i < 26 ==> ToLower(UPPER[i]) == LOWER[i])
    ensures !('A' <= c <= 'Z') ==> ToLower(c) == c
  {
    if i < 26 {
      assert UPPER[i] as int == 'A' as int + i;
      assert LOWER[i] as int == 'a' as int + i;
    }
  }

  /** Two characters that differ at most in the case of a letter. */
  ghost predicate SameLetter(c: char, d: char) {
    c == d || exists i :: 0 <= i < 26 && SameAt(c, d, i)
  }

  predicate SameAt(c: char, d: char, i: nat)
    requires i < 26
  {
    CaseIs(c, i);
    (c == LOWER[i] && d == UPPER[i]) || (c == UPPER[i] && d == LOWER[i])
  }

  lemma LetterAt(i: nat)
    requires i < 26
    ensures |LOWER| == |UPPER| == 26 && UPPER[i] as int == 'A' as int + i && LOWER[i] as int == 'a' as int + i
  {
  }

  lemma SameLetterIs(c: char, d: char)
    ensures ToLower(c) == ToLower(d) <==> SameLetter(c, d)
  {
    hide LOWER, UPPER;
    if ToLower(c) == ToLower(d) && c != d {
      var i := if 'A' <= c <= 'Z' then c as int - 'A' as int else d as int - 'A' as int;
      LetterAt(i);
      assert SameAt(c, d, i);
    }
    if SameLetter(c, d) && c != d {
      var i :| 0 <= i < 26 && SameAt(c, d, i);
      LetterAt(i);
    }
  }

  /** Names are compared character by character. */
  lemma NamesEqual(s: string, t: string)
    ensures EqualIgnoringCase(s, t) <==> |s| == |t| && forall i :: 0 <= i < |s| ==> SameLetter(s[i], t[i])
  {
    hide ToLower, SameLetter;
    forall i | 0 <= i < |s| && i < |t| ensures ToLower(s[i]) == ToLower(t[i]) <==> SameLetter(s[i], t[i]) {
      SameLetterIs(s[i], t[i]);
    }
  }

  /** The digits of base sixteen, in both cases. */
  lemma DigitIs(c: char, d: nat)
    ensures IsHexDigit(c) <==> c in "0123456789abcdef" || c in "0123456789ABCDEF"
    ensures d < 16 ==> var s, t := "0123456789abcdef", "0123456789ABCDEF";
                       IsHexDigit(s[d]) && IsHexDigit(t[d]) && HexDigitValue(s[d]) == HexDigitValue(t[d]) == d
  {
    var s, t := "0123456789abcdef", "0123456789ABCDEF";
    if d < 16 {
      assert s[d] as int == if d < 10 then '0' as int + d else 'a' as int + d - 10;
      assert t[d] as int == if d < 10 then '0' as int + d else 'A' as int + d - 10;
    }
    if '0' <= c <= '9' {
      assert s[c as int - '0' as int] as int == c as int;
    } else if 'a' <= c <= 'f' {
      assert s[c as int - 'a' as int + 10] as int == c as int;
    } else if 'A' <= c <= 'F' {
      assert t[c as int - 'A' as int + 10] as int == c as int;
    }
  }

  lemma SpaceIs(c: char)
    ensures IsSpace(c) <==> c as int == 32 || 9 <= c as int <= 13
  {
  }

  function Sixteen(k: nat): nat {
    if k == 0 then 1 else 16 * Sixteen(k - 1)
  }

  predicate AllHex(s: string) {
    forall i :: 0 <= i < |s| ==> IsHexDigit(s[i])
  }

  predicate AllSpace(s: string) {
    forall i :: 0 <= i < |s| ==> IsSpace(s[i])
  }

  /** The number that digits write: each counts for its place. */
  function HexNumber(s: string): nat
    requires AllHex(s)
  {
    if s == "" then 0 else HexDigitValue(s[0]) * Sixteen(|s| - 1) + HexNumber(s[1..])
  }

  lemma {:induction false} HexNumberIs(s: string)
    requires AllHex(s)
    ensures HexNumber(s) == HexValue(s)
    decreases |s|
  {
    if |s| == 1 {
      assert s[..0] == "" && s[1..] == "";
    } else if s != "" {
      var n := |s| - 1;
      HexNumberIs(s[..n]);
      HexNumberIs(s[1..]);
      HexNumberIs(s[1..n]);
      assert s[..n][1..] == s[1..n] && s[1..][..n - 1] == s[1..n];
      assert Sixteen(n) == 16 * Sixteen(n - 1);
      Sixteenfold(HexDigitValue(s[0]), Sixteen(n - 1));
    }
  }

  lemma Sixteenfold(d: nat, p: nat)
    ensures d * (16 * p) == 16 * (d * p)
  {
  }

  /** The parts of a number as strtoul() reads it in base sixteen. */
  datatype Numeral = Numeral(space: string, sign: string, prefix: string, digits: string) {
    function Text(): string {
      space + sign + prefix + digits
    }

    predicate Proper() {
      && AllSpace(space) && (sign == "" || sign == "+" || sign == "-")
      && (prefix == "" || prefix == "0x" || prefix == "0X") && digits != "" && AllHex(digits)
    }

    /** Too large a number is the largest one, and a minus sign counts down from 2^64. */
    function Value(): (n: SizeT)
      requires Proper()
    {
      var v := HexNumber(digits);
      if v >= 0x1_0000_0000_0000_0000 then 0xFFFF_FFFF_FFFF_FFFF
      else if sign == "-" && v > 0 then 0x1_0000_0000_0000_0000 - v
      else v
    }
  }

  /** The whole line is a number, and it is n. */
  ghost predicate IsNumber(line: string, n: int) {
    exists x: Numeral :: x.Proper() && x.Text() == line && x.Value() == n
  }

  lemma SignAt(x: Numeral)
    requires x.Proper()
    ensures var s, i := x.Text(), |x.space|;
            && i < |s| && SpacePrefix(s) == i
            && (s[i] == '-' <==> x.sign == "-") && (s[i] == '+' <==> x.sign == "+")
  {
    hide IsHexDigit, SpacePrefix, AllSpace;
    var s, i := x.Text(), |x.space|;
    var t := x.sign + x.prefix + x.digits;
    assert s == x.space + t;
    assert s[i] == t[0];
    NumeralMarks(x.digits[0]);
    assert !IsSpace(s[i]) && (s[i] == '-' <==> x.sign == "-") && (s[i] == '+' <==> x.sign == "+") by {
      if x.sign != "" {
        assert t[0] == x.sign[0];
      } else if x.prefix != "" {
        assert t == x.prefix + x.digits && t[0] == x.prefix[0];
      } else {
        assert t == x.digits;
      }
    }
    SpacesAhead(x.space, t);
  }

  lemma SpacesAhead(space: string, t: string)
    requires AllSpace(space) && (t != "" ==> !IsSpace(t[0]))
    ensures SpacePrefix(space + t) == |space|
  {
    hide SpacePrefix;
    SpacePrefixUnique(space + t, |space|);
  }

  lemma PrefixAt(x: Numeral)
    requires x.Proper()
    ensures var s, j := x.Text(), |x.space + x.sign|;
            && s[j + |x.prefix|..] == x.digits
            && (j + 2 < |s| && s[j] == '0' && (s[j + 1] == 'x' || s[j + 1] == 'X') && IsHexDigit(s[j + 2]) <==> x.prefix != "")
  {
    hide IsHexDigit;
    var s, j := x.Text(), |x.space + x.sign|;
    var t := x.prefix + x.digits;
    assert s == (x.space + x.sign) + t;
    assert s[j..] == t && t[|x.prefix|..] == x.digits;
    NumeralMarks('x');
    if x.prefix != "" {
      assert s[j] == t[0] == x.prefix[0] && s[j + 1] == t[1] == x.prefix[1] && s[j + 2] == t[2] == x.digits[0];
    } else if j + 1 < |s| {
      assert s[j + 1] == t[1] == x.digits[1];
      NumeralMarks(x.digits[1]);
    }
  }

  lemma NumeralReads(x: Numeral)
    requires x.Proper()
    ensures StrToUL16(x.Text()) == (x.Value(), |x.Text()|)
  {
    hide IsHexDigit, HexPrefix, HexValue, SpacePrefix, HexNumber, AllSpace;
    SignAt(x);
    PrefixAt(x);
    HexNumberIs(x.digits);
    AllDigits(x.digits);
    assert x.digits[..|x.digits|] == x.digits;
    assert |x.Text()| == |x.space| + |x.sign| + |x.prefix| + |x.digits|;
  }

  lemma NumeralMarks(c: char)
    ensures IsHexDigit(c) ==> !IsSpace(c) && c != '+' && c != '-' && c != 'x' && c != 'X'
    ensures IsHexDigit('0') && !IsSpace('+') && !IsSpace('-') && !IsHexDigit('x') && !IsHexDigit('X')
  {
  }

  lemma AllDigits(s: string)
    requires AllHex(s)
    ensures HexPrefix(s) == |s|
  {
  }

  /** strtoul() uses up a line exactly if the line is a number. */
  lemma NumberIs(line: string)
    ensures forall n :: IsNumber(line, n) <==> line != "" && StrToUL16(line) == (n, |line|)
  {
    hide StrToUL16;
    forall n | IsNumber(line, n) ensures line != "" && StrToUL16(line) == (n, |line|) {
      var x: Numeral :| x.Proper() && x.Text() == line && x.Value() == n;
      NumeralReads(x);
    }
    if line != "" && StrToUL16(line).1 == |line| {
      var x := NumeralOf(line);
      NumeralReads(x);
      assert IsNumber(line, x.Value());
    }
  }

  lemma NumeralOf(line: string) returns (x: Numeral)
    requires line != "" && StrToUL16(line).1 == |line|
    ensures x.Proper() && x.Text() == line
  {
    var i, j, k := Cuts(line);
    hide StrToUL16, HexPrefix, SpacePrefix, AllSpace, AllHex;
    x := Numeral(line[..i], line[i..j], line[j..k], line[k..]);
    CutNumeral(line, i, j, k);
    assert j > i ==> x.sign == [line[i]];
    assert k > j ==> x.prefix == [line[j], line[j + 1]];
  }

  lemma Cuts(line: string) returns (i: nat, j: nat, k: nat)
    requires line != "" && StrToUL16(line).1 == |line|
    ensures i <= j <= k < |line| && AllSpace(line[..i]) && AllHex(line[k..])
    ensures j == i || (j == i + 1 && (line[i] == '-' || line[i] == '+'))
    ensures k == j || (k == j + 2 && line[j] == '0' && (line[j + 1] == 'x' || line[j + 1] == 'X'))
  {
    hide IsHexDigit, HexValue, HexPrefix, SpacePrefix;
    i := SpacePrefix(line);
    j := if i < |line| && (line[i] == '-' || line[i] == '+') then i + 1 else i;
    var prefixed := j + 2 < |line| && line[j] == '0' && (line[j + 1] == 'x' || line[j + 1] == 'X') && IsHexDigit(line[j + 2]);
    k := if prefixed then j + 2 else j;
    assert HexPrefix(line[k..]) == |line[k..]| > 0;
  }

  lemma CutNumeral(line: string, i: nat, j: nat, k: nat)
    requires i <= j <= k <= |line|
    ensures line[..i] + line[i..j] + line[j..k] + line[k..] == line
  {
  }

  // ----- Lines

  function Line(l: string): string {
    l + "\n"
  }

  function Lines(ls: seq<string>): string {
    if ls == [] then "" else Lines(ls[..|ls| - 1]) + Line(ls[|ls| - 1])
  }

  /** A line does not contain the end of a line. */
  predicate IsLine(l: string) {
    '\n' !in l
  }

  predicate Blank(l: string) {
    IsLine(l) && AllSpace(l)
  }

  lemma BlankIs(l: string)
    requires IsLine(l)
    ensures Blank(l) <==> TrimRight(l) == ""
  {
    if Blank(l) {
      TrimRightUnique(l, 0);
    }
  }

  lemma LineRun(hooks: Hooks, p: ParserState, l: string, s: string)
    requires p.ReadsLines() && IsLine(l)
    ensures Run(hooks, p, Line(l) + s) == LineOutcome(hooks, LineStep(hooks, p, TrimRight(l)), s)
  {
    hide Run, LineStep, LineOutcome, TrimRight, IndexOf;
    var whole := Line(l) + s;
    IndexOfUnique(whole, '\n', |l|);
    RunLine(hooks, p, whole);
    assert whole[..|l|] == l && whole[|l| + 1..] == s;
  }

  /** A run of a state that reads lines, if it comes to an end, begins with a line. */
  lemma FirstLine(hooks: Hooks, p: ParserState, s: string) returns (l: string, rest: string)
    requires p.ReadsLines() && Run(hooks, p, s).verdict.Done?
    ensures IsLine(l) && s == Line(l) + rest
    ensures Run(hooks, p, s) == LineOutcome(hooks, LineStep(hooks, p, TrimRight(l)), rest)
  {
    hide Run, LineStep, LineOutcome, TrimRight, IndexOf;
    RunLine(hooks, p, s);
    var i := IndexOf(s, '\n');
    l, rest := s[..i], s[i + 1..];
    assert s == l + [s[i]] + rest;
  }

  // ----- Headers

  /** A header: what stands in front of the first colon, and what stands behind it without the
      space around it. */
  datatype Field = Field(name: string, value: string) {
    predicate Is(name: string) {
      EqualIgnoringCase(this.name, name)
    }
  }

  function FieldOf(l: string): Field
    requires ':' in TrimRight(l)
  {
    var t := TrimRight(l);
    var i := IndexOf(t, ':');
    var value := t[i + 1..];
    Field(t[..i], value[SpacePrefix(value)..])
  }

  /** A length must be a number, and the only codings are the two that the parser knows. */
  predicate Acceptable(hooks: Hooks, f: Field) {
    && (f.Is("Content-Length") ==> hooks.scanUnsigned(f.value).Some?)
    && (f.Is("Transfer-Encoding") ==> EqualIgnoringCase(f.value, "chunked") || EqualIgnoringCase(f.value, "identity"))
  }

  predicate GoodHeader(hooks: Hooks, l: string) {
    IsLine(l) && !Blank(l) && ':' in TrimRight(l) && Acceptable(hooks, FieldOf(l))
  }

  predicate GoodHeaders(hooks: Hooks, ls: seq<string>) {
    forall i :: 0 <= i < |ls| ==> GoodHeader(hooks, ls[i])
  }

  /** The last Transfer-Encoding says whether the body comes in chunks. */
  predicate IsChunked(hooks: Hooks, ls: seq<string>)
    requires GoodHeaders(hooks, ls)
  {
    if ls == [] then false
    else
      var f := FieldOf(ls[|ls| - 1]);
      if f.Is("Transfer-Encoding") then EqualIgnoringCase(f.value, "chunked") else IsChunked(hooks, ls[..|ls| - 1])
  }

  /** The last Content-Length is the length; without one it is unknown. */
  function LengthIn(hooks: Hooks, ls: seq<string>): (n: SizeT)
    requires GoodHeaders(hooks, ls)
  {
    if ls == [] then 0xFFFF_FFFF_FFFF_FFFF
    else
      var f := FieldOf(ls[|ls| - 1]);
      if f.Is("Content-Length") then hooks.scanUnsigned(f.value).value else LengthIn(hooks, ls[..|ls| - 1])
  }

  function Callbacks(hooks: Hooks, ls: seq<string>): seq<Event>
    requires GoodHeaders(hooks, ls)
  {
    if ls == [] then []
    else
      var f := FieldOf(ls[|ls| - 1]);
      Callbacks(hooks, ls[..|ls| - 1]) + [Header(f.name, f.value)]
  }

  /** The parser behind the leader and good headers. */
  function HeaderState(hooks: Hooks, ls: seq<string>): ParserState
    requires GoodHeaders(hooks, ls)
  {
    ParserState(ST_HEADERS, IsChunked(hooks, ls), LengthIn(hooks, ls))
  }

  lemma NamesDiffer(s: string)
    ensures !(EqualIgnoringCase(s, "Content-Length") && EqualIgnoringCase(s, "Transfer-Encoding"))
    ensures !(EqualIgnoringCase(s, "chunked") && EqualIgnoringCase(s, "identity"))
  {
  }

  lemma GoodHeaderStep(hooks: Hooks, p: ParserState, l: string)
    requires p.state == ST_HEADERS && GoodHeader(hooks, l)
    ensures var f := FieldOf(l);
            LineStep(hooks, p, TrimRight(l)) ==
            LineEffect(ParserState(ST_HEADERS,
                                   if f.Is("Transfer-Encoding") then EqualIgnoringCase(f.value, "chunked") else p.chunked,
                                   if f.Is("Content-Length") then hooks.scanUnsigned(f.value).value else p.dataSize),
                       [Header(f.name, f.value)], Continue)
  {
    hide TrimRight, IndexOf, SpacePrefix, EqualIgnoringCase;
    BlankIs(l);
    NamesDiffer(FieldOf(l).name);
    NamesDiffer(FieldOf(l).value);
    assert p == ParserState(p.state, p.chunked, p.dataSize);
  }

  lemma BadHeaderStep(hooks: Hooks, p: ParserState, l: string)
    requires p.state == ST_HEADERS && IsLine(l) && !Blank(l) && !GoodHeader(hooks, l)
    ensures LineStep(hooks, p, TrimRight(l)) == LineEffect(p, [], Finish(HE_PROTOCOL))
  {
    hide TrimRight, IndexOf, SpacePrefix, EqualIgnoringCase;
    BlankIs(l);
    if ':' in TrimRight(l) {
      NamesDiffer(FieldOf(l).name);
    }
  }

  lemma {:induction false} HeadersRun(hooks: Hooks, ls: seq<string>, s: string)
    requires GoodHeaders(hooks, ls)
    ensures Run(hooks, HeaderState(hooks, []), Lines(ls) + s) ==
            Prepend(Callbacks(hooks, ls), Run(hooks, HeaderState(hooks, ls), s))
    decreases |ls|
  {
    hide Run, LineStep, Acceptable, TrimRight, FieldOf;
    if ls == [] {
      assert "" + s == s;
      PrependTwice([], [], Run(hooks, HeaderState(hooks, ls), s));
    } else {
      var before, l := ls[..|ls| - 1], ls[|ls| - 1];
      assert before + [l] == ls;
      assert Lines(ls) + s == Lines(before) + (Line(l) + s);
      HeadersRun(hooks, before, Line(l) + s);
      LineRun(hooks, HeaderState(hooks, before), l, s);
      OneMore(hooks, before, l);
      PrependTwice(Callbacks(hooks, before), [Header(FieldOf(l).name, FieldOf(l).value)], Run(hooks, HeaderState(hooks, ls), s));
    }
  }

  lemma OneMore(hooks: Hooks, before: seq<string>, l: string)
    requires GoodHeaders(hooks, before) && GoodHeader(hooks, l)
    ensures GoodHeaders(hooks, before + [l]) && (before + [l])[..|before|] == before
    ensures LineStep(hooks, HeaderState(hooks, before), TrimRight(l)) ==
            LineEffect(HeaderState(hooks, before + [l]), [Header(FieldOf(l).name, FieldOf(l).value)], Continue)
  {
    hide LineStep, TrimRight, FieldOf, EqualIgnoringCase;
    GoodHeaderStep(hooks, HeaderState(hooks, before), l);
    assert (before + [l])[..|before|] == before;
  }

  // ----- The preamble

  datatype Preamble = Preamble(leader: string, headers: seq<string>, blank: string) {
    function Text(): string {
      Line(leader) + Lines(headers) + Line(blank)
    }
  }

  predicate GoodLeader(hooks: Hooks, l: string) {
    IsLine(l) && hooks.parseLeader(TrimRight(l)) == HE_NONE
  }

  /** What the owner says to the headers. */
  function Answer(hooks: Hooks, ls: seq<string>): HeaderDecision
    requires GoodHeaders(hooks, ls)
  {
    hooks.headerComplete(IsChunked(hooks, ls), LengthIn(hooks, ls))
  }

  /** A leader and headers that are accepted, and a blank line. */
  predicate GoodStart(hooks: Hooks, x: Preamble) {
    GoodLeader(hooks, x.leader) && GoodHeaders(hooks, x.headers) && Blank(x.blank)
  }

  predicate GoodPreamble(hooks: Hooks, x: Preamble) {
    GoodStart(hooks, x) && Answer(hooks, x.headers).error == HE_NONE
  }

  function HeaderEvents(hooks: Hooks, leader: string, ls: seq<string>): seq<Event>
    requires GoodHeaders(hooks, ls)
  {
    [Leader(TrimRight(leader))] + Callbacks(hooks, ls)
  }

  function StartEvents(hooks: Hooks, x: Preamble): seq<Event>
    requires GoodStart(hooks, x)
  {
    HeaderEvents(hooks, x.leader, x.headers) + [HeadersDone(IsChunked(hooks, x.headers), LengthIn(hooks, x.headers))]
  }

  /** The parser behind a preamble. */
  function BodyState(hooks: Hooks, x: Preamble): ParserState
    requires GoodStart(hooks, x)
  {
    var chunked := IsChunked(hooks, x.headers);
    ParserState(if chunked then ST_CHUNKSIZE else ST_DATA, chunked, Answer(hooks, x.headers).dataSize)
  }

  lemma LeaderRun(hooks: Hooks, leader: string, ls: seq<string>, s: string)
    requires GoodLeader(hooks, leader) && GoodHeaders(hooks, ls)
    ensures Run(hooks, RESET_STATE, Line(leader) + Lines(ls) + s) ==
            Prepend(HeaderEvents(hooks, leader, ls), Run(hooks, HeaderState(hooks, ls), s))
  {
    hide Run, TrimRight, GoodHeaders, Lines, Callbacks;
    assert Line(leader) + Lines(ls) + s == Line(leader) + (Lines(ls) + s);
    LineRun(hooks, RESET_STATE, leader, Lines(ls) + s);
    HeadersRun(hooks, ls, s);
    PrependTwice([Leader(TrimRight(leader))], Callbacks(hooks, ls), Run(hooks, HeaderState(hooks, ls), s));
  }

  lemma BlankStep(hooks: Hooks, ls: seq<string>, blank: string)
    requires GoodHeaders(hooks, ls) && Blank(blank)
    ensures var d, chunked := Answer(hooks, ls), IsChunked(hooks, ls);
            var e := LineStep(hooks, HeaderState(hooks, ls), TrimRight(blank));
            && e.next == ParserState(if chunked then ST_CHUNKSIZE else ST_DATA, chunked, d.dataSize)
            && e.events == [HeadersDone(chunked, LengthIn(hooks, ls))]
            && (e.flow.Finish? <==> d.error != HE_NONE) && (e.flow.Finish? ==> e.flow.error == d.error)
  {
    hide TrimRight, HeaderLine, GoodHeaders;
    BlankIs(blank);
  }

  lemma PreambleRun(hooks: Hooks, x: Preamble, s: string)
    requires GoodStart(hooks, x)
    ensures var d, events := Answer(hooks, x.headers), StartEvents(hooks, x);
            Run(hooks, RESET_STATE, x.Text() + s) ==
            if d.error != HE_NONE then Outcome(BodyState(hooks, x), s, events, Done(d.error))
            else Prepend(events, Run(hooks, BodyState(hooks, x), s))
  {
    hide Run, LineStep, TrimRight, GoodHeaders, Lines, IsChunked, LengthIn, HeaderEvents;
    assert x.Text() + s == Line(x.leader) + Lines(x.headers) + (Line(x.blank) + s);
    LeaderRun(hooks, x.leader, x.headers, Line(x.blank) + s);
    LineRun(hooks, HeaderState(hooks, x.headers), x.blank, s);
    BlankStep(hooks, x.headers, x.blank);
    PrependTwice(HeaderEvents(hooks, x.leader, x.headers), [HeadersDone(IsChunked(hooks, x.headers), LengthIn(hooks, x.headers))],
                 Run(hooks, BodyState(hooks, x), s));
  }

  // ----- Chunks

  /** A chunk: the line of its size, its data, and the line behind them. */
  datatype Piece = Piece(size: string, data: string, term: string) {
    function Text(): string {
      Line(size) + data + Line(term)
    }
  }

  ghost predicate SizeLine(l: string, n: int) {
    IsLine(l) && IsNumber(TrimRight(l), n)
  }

  /** The size that stands for an unknown length is that of no chunk that ends. */
  ghost predicate GoodPiece(x: Piece) {
    SizeLine(x.size, |x.data|) && 0 < |x.data| < 0xFFFF_FFFF_FFFF_FFFF && Blank(x.term)
  }

  ghost predicate GoodPieces(xs: seq<Piece>) {
    forall i :: 0 <= i < |xs| ==> GoodPiece(xs[i])
  }

  function PiecesText(xs: seq<Piece>): string {
    if xs == [] then "" else PiecesText(xs[..|xs| - 1]) + xs[|xs| - 1].Text()
  }

  function PiecesData(xs: seq<Piece>): string {
    if xs == [] then "" else PiecesData(xs[..|xs| - 1]) + xs[|xs| - 1].data
  }

  function ChunkState(p: ParserState, xs: seq<Piece>): ParserState {
    if xs == [] then p else ParserState(ST_CHUNKSIZE, true, 0)
  }

  lemma SizeStep(hooks: Hooks, p: ParserState, l: string)
    requires p.state == ST_CHUNKSIZE && IsLine(l)
    ensures var e := LineStep(hooks, p, TrimRight(l));
            && e.events == []
            && (forall n :: SizeLine(l, n) ==>
                  0 <= n < ULONG_MODULUS && e.flow == Continue &&
                  e.next == p.(dataSize := n, state := if n == 0 then ST_TRAILERS else ST_DATA))
            && (e.flow == Continue ==> SizeLine(l, e.next.dataSize))
            && (e.flow != Continue ==> e.flow == Finish(HE_PROTOCOL))
  {
    hide TrimRight, StrToUL16, IsNumber;
    NumberIs(TrimRight(l));
  }

  /** The data of a chunk, and the line behind it. */
  lemma DataRun(hooks: Hooks, p: ParserState, data: string, s: string)
    requires p.state == ST_DATA && p.chunked && p.dataSize == |data| && 0 < |data| < SIZE_UNKNOWN
    ensures Run(hooks, p, data + s) == Prepend(BodyOf(data), Run(hooks, ParserState(ST_CHUNKTERM, true, 0), s))
  {
    hide Run, BodyOf;
    var t, n := data + s, |data|;
    assert p.Portion(|t|) == n && t[..n] == data && t[n..] == s;
    RunData(hooks, p, t);
    RunData(hooks, p.Consume(n), s);
  }

  lemma SizedRun(hooks: Hooks, p: ParserState, size: string, data: string, s: string)
    requires p.state == ST_CHUNKSIZE && p.chunked && SizeLine(size, |data|) && 0 < |data| < 0xFFFF_FFFF_FFFF_FFFF
    ensures Run(hooks, p, Line(size) + data + s) ==
            Prepend(BodyOf(data), Run(hooks, ParserState(ST_CHUNKTERM, true, 0), s))
  {
    hide Run, BodyOf, LineStep, TrimRight, IsNumber;
    assert Line(size) + data + s == Line(size) + (data + s);
    LineRun(hooks, p, size, data + s);
    SizeStep(hooks, p, size);
    var q := p.(dataSize := |data|, state := ST_DATA);
    PrependTwice([], [], Run(hooks, q, data + s));
    DataRun(hooks, q, data, s);
  }

  lemma TermStep(hooks: Hooks, l: string)
    requires IsLine(l)
    ensures LineStep(hooks, ParserState(ST_CHUNKTERM, true, 0), TrimRight(l)) ==
            if Blank(l) then LineEffect(ParserState(ST_CHUNKSIZE, true, 0), [], Continue)
            else LineEffect(ParserState(ST_CHUNKTERM, true, 0), [], Finish(HE_PROTOCOL))
  {
    hide TrimRight;
    BlankIs(l);
  }

  lemma PieceRun(hooks: Hooks, p: ParserState, x: Piece, s: string)
    requires p.state == ST_CHUNKSIZE && p.chunked && GoodPiece(x)
    ensures Run(hooks, p, x.Text() + s) == Prepend(BodyOf(x.data), Run(hooks, ParserState(ST_CHUNKSIZE, true, 0), s))
  {
    hide Run, BodyOf, LineStep, TrimRight, SizeLine;
    assert x.Text() + s == Line(x.size) + x.data + (Line(x.term) + s);
    SizedRun(hooks, p, x.size, x.data, Line(x.term) + s);
    LineRun(hooks, ParserState(ST_CHUNKTERM, true, 0), x.term, s);
    TermStep(hooks, x.term);
    PrependTwice([], [], Run(hooks, ParserState(ST_CHUNKSIZE, true, 0), s));
  }

  lemma BodyJoins(a: string, b: string)
    ensures BodyOf(a + b) == BodyOf(a) + BodyOf(b)
  {
  }

  lemma {:induction false} PiecesRun(hooks: Hooks, p: ParserState, xs: seq<Piece>, s: string)
    requires p.state == ST_CHUNKSIZE && p.chunked && GoodPieces(xs)
    ensures Run(hooks, p, PiecesText(xs) + s) == Prepend(BodyOf(PiecesData(xs)), Run(hooks, ChunkState(p, xs), s))
    decreases |xs|
  {
    hide Run, BodyOf, GoodPiece;
    if xs == [] {
      assert "" + s == s;
      PrependTwice([], [], Run(hooks, p, s));
      assert BodyOf("") == [];
    } else {
      var before, x := xs[..|xs| - 1], xs[|xs| - 1];
      assert PiecesText(xs) + s == PiecesText(before) + (x.Text() + s);
      PiecesRun(hooks, p, before, x.Text() + s);
      PieceRun(hooks, ChunkState(p, before), x, s);
      BodyJoins(PiecesData(before), x.data);
      PrependTwice(BodyOf(PiecesData(before)), BodyOf(x.data), Run(hooks, ChunkState(p, xs), s));
    }
  }

  /** A chunk whose size is the one that stands for an unknown length never ends: everything that
      follows is taken for its data. */
  lemma EndlessChunk(hooks: Hooks, p: ParserState, l: string, s: string)
    requires p.state == ST_CHUNKSIZE && SizeLine(l, 0xFFFF_FFFF_FFFF_FFFF)
    ensures Run(hooks, p, Line(l) + s) ==
            Outcome(p.(state := ST_DATA, dataSize := SIZE_UNKNOWN), "", BodyOf(s), NeedMore)
  {
    hide Run, BodyOf, LineStep, TrimRight, IsNumber;
    LineRun(hooks, p, l, s);
    SizeStep(hooks, p, l);
    var q := p.(state := ST_DATA, dataSize := SIZE_UNKNOWN);
    UnknownNeverEnds(hooks, q, s);
    PrependTwice([], [], Run(hooks, q, s));
  }

  /** It need not be a long number. */
  lemma MinusOne()
    ensures IsNumber("-1", 0xFFFF_FFFF_FFFF_FFFF)
  {
    var x := Numeral("", "-", "", "1");
    assert "1"[1..] == "" && HexNumber("1") == 1 by {
      assert HexDigitValue('1') == 1 && Sixteen(0) == 1 && "1"[1..] == "";
    }
    assert x.Proper() && x.Text() == "-1" && x.Value() == 0xFFFF_FFFF_FFFF_FFFF;
  }

  // ----- Trailers

  predicate Trailers(ls: seq<string>) {
    forall i :: 0 <= i < |ls| ==> IsLine(ls[i]) && !Blank(ls[i])
  }

  lemma TrailerStep(hooks: Hooks, p: ParserState, l: string)
    requires p.state == ST_TRAILERS && IsLine(l)
    ensures LineStep(hooks, p, TrimRight(l)) == LineEffect(p, [], if Blank(l) then Finish(HE_NONE) else Continue)
  {
    hide TrimRight;
    BlankIs(l);
  }

  lemma {:induction false} TrailersRun(hooks: Hooks, p: ParserState, ls: seq<string>, s: string)
    requires p.state == ST_TRAILERS && Trailers(ls)
    ensures Run(hooks, p, Lines(ls) + s) == Run(hooks, p, s)
    decreases |ls|
  {
    hide Run, LineStep, TrimRight;
    if ls == [] {
      assert "" + s == s;
    } else {
      var before, l := ls[..|ls| - 1], ls[|ls| - 1];
      assert Lines(ls) + s == Lines(before) + (Line(l) + s);
      TrailersRun(hooks, p, before, Line(l) + s);
      LineRun(hooks, p, l, s);
      TrailerStep(hooks, p, l);
      PrependTwice([], [], Run(hooks, p, s));
    }
  }

  // ----- Endings

  /** The texts that end a message: two shapes of a whole message, and five of one that is refused. */
  datatype Ending =
    | Plain(start: Preamble, data: string)
    | Chunked(start: Preamble, pieces: seq<Piece>, last: string, trailers: seq<string>, blank: string)
    | BadLeader(leader: string)
    | BadHeader(leader: string, headers: seq<string>, line: string)
    | BadOwner(start: Preamble)
    | BadSize(start: Preamble, pieces: seq<Piece>, line: string)
    | BadTerm(start: Preamble, pieces: seq<Piece>, size: string, data: string, line: string)
  {
    predicate IsMessage() {
      Plain? || Chunked?
    }

    function Text(): string {
      match this
      case Plain(start, data) => start.Text() + data
      case Chunked(start, pieces, last, trailers, blank) =>
        start.Text() + PiecesText(pieces) + Line(last) + Lines(trailers) + Line(blank)
      case BadLeader(leader) => Line(leader)
      case BadHeader(leader, headers, line) => Line(leader) + Lines(headers) + Line(line)
      case BadOwner(start) => start.Text()
      case BadSize(start, pieces, line) => start.Text() + PiecesText(pieces) + Line(line)
      case BadTerm(start, pieces, size, data, line) =>
        start.Text() + PiecesText(pieces) + Line(size) + data + Line(line)
    }
  }

  /** A preamble that is accepted and announces chunks, and good chunks. */
  ghost predicate InChunks(hooks: Hooks, start: Preamble, pieces: seq<Piece>) {
    GoodPreamble(hooks, start) && IsChunked(hooks, start.headers) && GoodPieces(pieces)
  }

  /** Everything up to the end is as it should be, and so is the end, or it is not. */
  ghost predicate IsEnding(hooks: Hooks, x: Ending) {
    match x
    case Plain(start, data) =>
      && GoodPreamble(hooks, start) && !IsChunked(hooks, start.headers)
      && |data| == Answer(hooks, start.headers).dataSize < 0xFFFF_FFFF_FFFF_FFFF
    case Chunked(start, pieces, last, trailers, blank) =>
      InChunks(hooks, start, pieces) && SizeLine(last, 0) && Trailers(trailers) && Blank(blank)
    case BadLeader(leader) => IsLine(leader) && hooks.parseLeader(TrimRight(leader)) != HE_NONE
    case BadHeader(leader, headers, line) =>
      && GoodLeader(hooks, leader) && GoodHeaders(hooks, headers)
      && IsLine(line) && !Blank(line) && !GoodHeader(hooks, line)
    case BadOwner(start) => GoodStart(hooks, start) && Answer(hooks, start.headers).error != HE_NONE
    case BadSize(start, pieces, line) =>
      InChunks(hooks, start, pieces) && IsLine(line) && forall n :: !SizeLine(line, n)
    case BadTerm(start, pieces, size, data, line) =>
      && InChunks(hooks, start, pieces) && SizeLine(size, |data|) && 0 < |data| < 0xFFFF_FFFF_FFFF_FFFF
      && IsLine(line) && !Blank(line)
  }

  /** The error of an ending: none for a message, else the leader's, the owner's, or a protocol error. */
  function ErrorOf(hooks: Hooks, x: Ending): HttpError
    requires IsEnding(hooks, x)
  {
    match x
    case Plain(_, _) => HE_NONE
    case Chunked(_, _, _, _, _) => HE_NONE
    case BadLeader(leader) => hooks.parseLeader(TrimRight(leader))
    case BadOwner(start) => Answer(hooks, start.headers).error
    case _ => HE_PROTOCOL
  }

  /** What the owner is told. */
  function EventsOf(hooks: Hooks, x: Ending): seq<Event>
    requires IsEnding(hooks, x)
  {
    match x
    case Plain(start, data) => StartEvents(hooks, start) + BodyOf(data)
    case Chunked(start, pieces, _, _, _) => StartEvents(hooks, start) + BodyOf(PiecesData(pieces))
    case BadLeader(leader) => [Leader(TrimRight(leader))]
    case BadHeader(leader, headers, _) => HeaderEvents(hooks, leader, headers)
    case BadOwner(start) => StartEvents(hooks, start)
    case BadSize(start, pieces, _) => StartEvents(hooks, start) + BodyOf(PiecesData(pieces))
    case BadTerm(start, pieces, _, data, _) => StartEvents(hooks, start) + BodyOf(PiecesData(pieces) + data)
  }

  /** The outcome is that of the ending x in front of `rest`. */
  ghost predicate EndsAs(hooks: Hooks, o: Outcome, x: Ending, rest: string)
    requires IsEnding(hooks, x)
  {
    o.verdict == Done(ErrorOf(hooks, x)) && o.rest == rest && o.events == EventsOf(hooks, x)
  }

  lemma PiecesBehind(hooks: Hooks, start: Preamble, pieces: seq<Piece>, s: string)
    requires InChunks(hooks, start, pieces)
    ensures Run(hooks, RESET_STATE, start.Text() + PiecesText(pieces) + s) ==
            Prepend(StartEvents(hooks, start) + BodyOf(PiecesData(pieces)),
                    Run(hooks, ChunkState(BodyState(hooks, start), pieces), s))
  {
    hide Run, BodyOf, GoodPieces, GoodStart, IsChunked, StartEvents, PiecesText, PiecesData;
    assert GoodStart(hooks, start);
    assert start.Text() + PiecesText(pieces) + s == start.Text() + (PiecesText(pieces) + s);
    PreambleRun(hooks, start, PiecesText(pieces) + s);
    PiecesRun(hooks, BodyState(hooks, start), pieces, s);
    PrependTwice(StartEvents(hooks, start), BodyOf(PiecesData(pieces)),
                 Run(hooks, ChunkState(BodyState(hooks, start), pieces), s));
  }

  lemma PlainEnds(hooks: Hooks, x: Ending, rest: string)
    requires x.Plain? && IsEnding(hooks, x)
    ensures EndsAs(hooks, Run(hooks, RESET_STATE, x.Text() + rest), x, rest)
  {
    hide Run, BodyOf, GoodStart, IsChunked, StartEvents, LengthIn;
    assert GoodStart(hooks, x.start);
    var t, p, n := x.data + rest, BodyState(hooks, x.start), |x.data|;
    assert x.Text() + rest == x.start.Text() + t;
    PreambleRun(hooks, x.start, t);
    RunData(hooks, p, t);
    if n == 0 {
      assert t == rest && BodyOf("") == [];
    } else {
      assert p.Portion(|t|) == n && t[..n] == x.data && t[n..] == rest;
      RunData(hooks, p.Consume(n), rest);
    }
  }

  lemma ChunkedEnds(hooks: Hooks, x: Ending, rest: string)
    requires x.Chunked? && IsEnding(hooks, x)
    ensures EndsAs(hooks, Run(hooks, RESET_STATE, x.Text() + rest), x, rest)
  {
    hide Run, BodyOf, LineStep, GoodPieces, GoodPreamble, IsChunked, StartEvents, PiecesText, PiecesData, TrimRight, SizeLine,
         Lines, Trailers, Blank;
    ChunkedStart(hooks, x.start, x.pieces);
    var blank := Line(x.blank) + rest;
    var trailers := Lines(x.trailers) + blank;
    assert x.Text() + rest == x.start.Text() + PiecesText(x.pieces) + (Line(x.last) + trailers);
    PiecesBehind(hooks, x.start, x.pieces, Line(x.last) + trailers);
    var p := ChunkState(BodyState(hooks, x.start), x.pieces);
    IsLineOf(x.last, 0);
    LineRun(hooks, p, x.last, trailers);
    SizeStep(hooks, p, x.last);
    var q := p.(dataSize := 0, state := ST_TRAILERS);
    PrependTwice([], [], Run(hooks, q, trailers));
    TrailersRun(hooks, q, x.trailers, blank);
    BlankIsLine(x.blank);
    LineRun(hooks, q, x.blank, rest);
    TrailerStep(hooks, q, x.blank);
  }

  lemma ChunkedStart(hooks: Hooks, start: Preamble, pieces: seq<Piece>)
    requires InChunks(hooks, start, pieces)
    ensures GoodStart(hooks, start)
    ensures var p := ChunkState(BodyState(hooks, start), pieces); p.state == ST_CHUNKSIZE && p.chunked
  {
  }

  lemma IsLineOf(l: string, n: int)
    requires SizeLine(l, n)
    ensures IsLine(l)
  {
  }

  lemma BlankIsLine(l: string)
    requires Blank(l)
    ensures IsLine(l)
  {
  }

  lemma SizeEnds(hooks: Hooks, x: Ending, rest: string)
    requires x.BadSize? && IsEnding(hooks, x)
    ensures EndsAs(hooks, Run(hooks, RESET_STATE, x.Text() + rest), x, rest)
  {
    hide Run, BodyOf, LineStep, GoodPieces, GoodPreamble, IsChunked, StartEvents, PiecesText, PiecesData, TrimRight, SizeLine;
    ChunkedStart(hooks, x.start, x.pieces);
    assert x.Text() + rest == x.start.Text() + PiecesText(x.pieces) + (Line(x.line) + rest);
    PiecesBehind(hooks, x.start, x.pieces, Line(x.line) + rest);
    var p := ChunkState(BodyState(hooks, x.start), x.pieces);
    LineRun(hooks, p, x.line, rest);
    SizeStep(hooks, p, x.line);
  }

  lemma TermEnds(hooks: Hooks, x: Ending, rest: string)
    requires x.BadTerm? && IsEnding(hooks, x)
    ensures EndsAs(hooks, Run(hooks, RESET_STATE, x.Text() + rest), x, rest)
  {
    hide Run, BodyOf, LineStep, GoodPieces, GoodPreamble, IsChunked, StartEvents, PiecesText, PiecesData, TrimRight, SizeLine,
         Blank;
    ChunkedStart(hooks, x.start, x.pieces);
    var line := Line(x.line) + rest;
    FiveParts(x.start.Text() + PiecesText(x.pieces), Line(x.size), x.data, Line(x.line), rest);
    PiecesBehind(hooks, x.start, x.pieces, Line(x.size) + x.data + line);
    var p := ChunkState(BodyState(hooks, x.start), x.pieces);
    SizedRun(hooks, p, x.size, x.data, line);
    LineRun(hooks, ParserState(ST_CHUNKTERM, true, 0), x.line, rest);
    TermStep(hooks, x.line);
    BodyJoins(PiecesData(x.pieces), x.data);
    ThreeParts(StartEvents(hooks, x.start), BodyOf(PiecesData(x.pieces)), BodyOf(x.data));
  }

  lemma FiveParts(a: string, b: string, c: string, d: string, e: string)
    ensures a + b + c + d + e == a + (b + c + (d + e))
  {
  }

  lemma ThreeParts(a: seq<Event>, b: seq<Event>, c: seq<Event>)
    ensures a + b + c == a + (b + c) && a + b + c + [] == a + b + c
  {
  }

  lemma EarlyEnds(hooks: Hooks, x: Ending, rest: string)
    requires (x.BadLeader? || x.BadHeader? || x.BadOwner?) && IsEnding(hooks, x)
    ensures EndsAs(hooks, Run(hooks, RESET_STATE, x.Text() + rest), x, rest)
  {
    hide Run, HeaderLine, GoodHeaders, GoodHeader, StartEvents, Lines, TrimRight, IsChunked, LengthIn;
    match x
    case BadLeader(leader) => LineRun(hooks, RESET_STATE, leader, rest);
    case BadHeader(leader, headers, line) =>
      assert x.Text() + rest == Line(leader) + Lines(headers) + (Line(line) + rest);
      LeaderRun(hooks, leader, headers, Line(line) + rest);
      LineRun(hooks, HeaderState(hooks, headers), line, rest);
      BadHeaderStep(hooks, HeaderState(hooks, headers), line);
      assert HeaderEvents(hooks, leader, headers) + [] == HeaderEvents(hooks, leader, headers);
    case BadOwner(start) => PreambleRun(hooks, start, rest);
  }

  /** A text that begins with an ending is ended by it: the parser says what is wrong with it, if
      anything is, reports what came before that, and leaves what follows. */
  lemma EndingEnds(hooks: Hooks, x: Ending, rest: string)
    requires IsEnding(hooks, x)
    ensures EndsAs(hooks, Run(hooks, RESET_STATE, x.Text() + rest), x, rest)
  {
    hide *;
    match x
    case Plain(_, _) => PlainEnds(hooks, x, rest);
    case Chunked(_, _, _, _, _) => ChunkedEnds(hooks, x, rest);
    case BadSize(_, _, _) => SizeEnds(hooks, x, rest);
    case BadTerm(_, _, _, _, _) => TermEnds(hooks, x, rest);
    case BadLeader(_) => EarlyEnds(hooks, x, rest);
    case BadHeader(_, _, _) => EarlyEnds(hooks, x, rest);
    case BadOwner(_) => EarlyEnds(hooks, x, rest);
  }

  // ----- Every text that ends a message begins with an ending

  lemma {:induction false} FindTrailers(hooks: Hooks, p: ParserState, ls: seq<string>, s: string)
    returns (trailers: seq<string>, blank: string, rest: string)
    requires p.state == ST_TRAILERS && Trailers(ls) && Run(hooks, p, s).verdict.Done?
    ensures Trailers(trailers) && Blank(blank) && Lines(ls) + s == Lines(trailers) + Line(blank) + rest
    decreases |s|
  {
    hide Run, LineStep, TrimRight, Blank, IsLine;
    var l, t := FirstLine(hooks, p, s);
    TrailerStep(hooks, p, l);
    if Blank(l) {
      trailers, blank, rest := ls, l, t;
      assert Lines(ls) + s == Lines(ls) + Line(l) + t;
    } else {
      assert (ls + [l])[..|ls|] == ls;
      assert Lines(ls) + s == Lines(ls + [l]) + t;
      trailers, blank, rest := FindTrailers(hooks, p, ls + [l], t);
    }
  }

  lemma AnotherPiece(xs: seq<Piece>, x: Piece)
    requires GoodPieces(xs) && GoodPiece(x)
    ensures GoodPieces(xs + [x]) && PiecesText(xs + [x]) == PiecesText(xs) + x.Text()
  {
    hide GoodPiece;
    assert (xs + [x])[..|xs|] == xs;
  }

  /** A chunk that does not end with the input is asked for. */
  lemma DataThere(hooks: Hooks, p: ParserState, s: string)
    requires p.state == ST_DATA && p.dataSize > 0 && Run(hooks, p, s).verdict.Done?
    ensures p.dataSize <= |s| && p.dataSize < SIZE_UNKNOWN
  {
    hide Run, BodyOf;
    if p.dataSize == SIZE_UNKNOWN {
      UnknownNeverEnds(hooks, p, s);
    } else if |s| < p.dataSize {
      RunData(hooks, p, s);
      assert s[|s|..] == "";
      RunData(hooks, p.Consume(|s|), "");
    }
  }

  lemma {:induction false} FindChunks(hooks: Hooks, start: Preamble, xs: seq<Piece>, p: ParserState, s: string)
    returns (x: Ending, rest: string)
    requires InChunks(hooks, start, xs)
    requires p.state == ST_CHUNKSIZE && p.chunked && Run(hooks, p, s).verdict.Done?
    ensures IsEnding(hooks, x) && start.Text() + PiecesText(xs) + s == x.Text() + rest
    decreases |s|
  {
    hide Run, BodyOf, LineStep, TrimRight, GoodPreamble, GoodPieces, IsChunked, IsNumber, PiecesText, Lines, Trailers;
    var before := start.Text() + PiecesText(xs);
    var l, t := FirstLine(hooks, p, s);
    SizeStep(hooks, p, l);
    var e := LineStep(hooks, p, TrimRight(l));
    if e.flow != Continue {
      assert forall n :: !SizeLine(l, n);
      x, rest := BadSize(start, xs, l), t;
      assert before + s == before + Line(l) + t;
    } else if e.next.dataSize == 0 {
      PrependTwice([], [], Run(hooks, e.next, t));
      NoLines(t);
      var trailers, blank;
      trailers, blank, rest := FindTrailers(hooks, e.next, [], t);
      x := Chunked(start, xs, l, trailers, blank);
      assert before + s == before + Line(l) + (Lines(trailers) + Line(blank) + rest);
      assert x.Text() + rest == before + Line(l) + (Lines(trailers) + Line(blank) + rest);
    } else {
      x, rest := FindData(hooks, start, xs, l, e.next, t);
      assert before + s == before + Line(l) + t;
    }
  }

  lemma NoLines(t: string)
    ensures Lines([]) + t == t && Trailers([])
  {
  }

  lemma {:induction false} FindData(hooks: Hooks, start: Preamble, xs: seq<Piece>, size: string, p: ParserState, s: string)
    returns (x: Ending, rest: string)
    requires InChunks(hooks, start, xs) && p.chunked && p.state == ST_DATA && p.dataSize > 0
    requires SizeLine(size, p.dataSize) && Run(hooks, p, s).verdict.Done?
    ensures IsEnding(hooks, x) && start.Text() + PiecesText(xs) + Line(size) + s == x.Text() + rest
    decreases |s|
  {
    hide Run, BodyOf, LineStep, TrimRight, GoodPreamble, GoodPieces, IsChunked, SizeLine, PiecesText, Blank;
    var before, n := start.Text() + PiecesText(xs), p.dataSize;
    DataThere(hooks, p, s);
    var data, t := s[..n], s[n..];
    assert data + t == s;
    DataRun(hooks, p, data, t);
    var l, u := FirstLine(hooks, ParserState(ST_CHUNKTERM, true, 0), t);
    TermStep(hooks, l);
    if Blank(l) {
      var y := Piece(size, data, l);
      AnotherPiece(xs, y);
      assert before + Line(size) + s == start.Text() + PiecesText(xs + [y]) + u;
      x, rest := FindChunks(hooks, start, xs + [y], ParserState(ST_CHUNKSIZE, true, 0), u);
    } else {
      x, rest := BadTerm(start, xs, size, data, l), u;
      assert before + Line(size) + s == before + Line(size) + data + Line(l) + u;
    }
  }

  lemma CutBehind(a: string, s: string, n: nat)
    requires n <= |s|
    ensures a + s[..n] + s[n..] == a + s
  {
  }

  lemma FindBody(hooks: Hooks, start: Preamble, s: string) returns (x: Ending, rest: string)
    requires GoodPreamble(hooks, start) && Run(hooks, BodyState(hooks, start), s).verdict.Done?
    ensures IsEnding(hooks, x) && start.Text() + s == x.Text() + rest
  {
    hide Run, IsChunked, LengthIn, GoodHeaders;
    var p := BodyState(hooks, start);
    if p.chunked {
      assert start.Text() + PiecesText([]) + s == start.Text() + s;
      x, rest := FindChunks(hooks, start, [], p, s);
    } else {
      if p.dataSize > 0 {
        DataThere(hooks, p, s);
      }
      x, rest := Plain(start, s[..p.dataSize]), s[p.dataSize..];
      CutBehind(start.Text(), s, p.dataSize);
    }
  }

  lemma {:induction false} FindHeaders(hooks: Hooks, leader: string, ls: seq<string>, s: string)
    returns (x: Ending, rest: string)
    requires GoodLeader(hooks, leader) && GoodHeaders(hooks, ls)
    requires Run(hooks, HeaderState(hooks, ls), s).verdict.Done?
    ensures IsEnding(hooks, x) && Line(leader) + Lines(ls) + s == x.Text() + rest
    decreases |s|
  {
    hide Run, LineStep, TrimRight, GoodHeader, IsChunked, LengthIn, Blank, GoodLeader, Callbacks;
    var before := Line(leader) + Lines(ls);
    var l, t := FirstLine(hooks, HeaderState(hooks, ls), s);
    if Blank(l) {
      var start := Preamble(leader, ls, l);
      BlankStep(hooks, ls, l);
      assert before + s == start.Text() + t;
      if Answer(hooks, ls).error != HE_NONE {
        x, rest := BadOwner(start), t;
      } else {
        x, rest := FindBody(hooks, start, t);
      }
    } else if GoodHeader(hooks, l) {
      OneMore(hooks, ls, l);
      assert before + s == Line(leader) + Lines(ls + [l]) + t;
      x, rest := FindHeaders(hooks, leader, ls + [l], t);
    } else {
      x, rest := BadHeader(leader, ls, l), t;
      assert before + s == before + Line(l) + t;
    }
  }

  /** A text that ends a message begins with one of the endings. */
  lemma FindEnding(hooks: Hooks, s: string) returns (x: Ending, rest: string)
    requires Run(hooks, RESET_STATE, s).verdict.Done?
    ensures IsEnding(hooks, x) && s == x.Text() + rest
  {
    hide Run, TrimRight;
    var l, t := FirstLine(hooks, RESET_STATE, s);
    if GoodLeader(hooks, l) {
      assert Line(l) + Lines([]) + t == s;
      x, rest := FindHeaders(hooks, l, [], t);
    } else {
      x, rest := BadLeader(l), t;
    }
  }

  ghost predicate BeginsWith(hooks: Hooks, s: string, x: Ending) {
    IsEnding(hooks, x) && x.Text() <= s
  }

  /** A pass comes to an end exactly on the texts that begin with an ending, and it ends as that says. */
  lemma EndsExactly(hooks: Hooks, s: string)
    ensures Run(hooks, RESET_STATE, s).verdict.Done? <==> exists x :: BeginsWith(hooks, s, x)
    ensures forall x :: BeginsWith(hooks, s, x) ==> EndsAs(hooks, Run(hooks, RESET_STATE, s), x, s[|x.Text()|..])
  {
    hide Run, IsEnding, EndsAs, EventsOf, ErrorOf;
    forall x | BeginsWith(hooks, s, x) ensures EndsAs(hooks, Run(hooks, RESET_STATE, s), x, s[|x.Text()|..]) {
      assert x.Text() + s[|x.Text()|..] == s;
      EndingEnds(hooks, x, s[|x.Text()|..]);
    }
    if Run(hooks, RESET_STATE, s).verdict.Done? {
      var x, rest := FindEnding(hooks, s);
      assert BeginsWith(hooks, s, x);
    }
    forall x | BeginsWith(hooks, s, x) ensures Run(hooks, RESET_STATE, s).verdict.Done? {
      EndsMeans(hooks, Run(hooks, RESET_STATE, s), x, s[|x.Text()|..]);
    }
  }

  lemma EndsMeans(hooks: Hooks, o: Outcome, x: Ending, rest: string)
    requires IsEnding(hooks, x) && EndsAs(hooks, o, x, rest)
    ensures o.verdict == Done(ErrorOf(hooks, x)) && (o.verdict == Done(HE_NONE) <==> x.IsMessage())
  {
  }

  /** A message is received without an error exactly if the text begins with a whole message. */
  lemma MessageExactly(hooks: Hooks, s: string)
    ensures Run(hooks, RESET_STATE, s).verdict == Done(HE_NONE) <==> exists x :: BeginsWith(hooks, s, x) && x.IsMessage()
  {
    hide Run, IsEnding, EndsAs, BeginsWith, ErrorOf;
    EndsExactly(hooks, s);
    forall x | BeginsWith(hooks, s, x)
      ensures Run(hooks, RESET_STATE, s).verdict == Done(HE_NONE) <==> x.IsMessage()
    {
      Begins(hooks, s, x);
      EndsMeans(hooks, Run(hooks, RESET_STATE, s), x, s[|x.Text()|..]);
    }
  }

  lemma Begins(hooks: Hooks, s: string, x: Ending)
    requires BeginsWith(hooks, s, x)
    ensures IsEnding(hooks, x) && |x.Text()| <= |s|
  {
  }

  /** An error is reported exactly if the text begins with a text that is refused with this error. */
  lemma RefusedExactly(hooks: Hooks, s: string, error: HttpError)
    requires error != HE_NONE
    ensures Run(hooks, RESET_STATE, s).verdict == Done(error) <==>
            exists x :: BeginsWith(hooks, s, x) && !x.IsMessage() && ErrorOf(hooks, x) == error
  {
    hide Run, IsEnding, EndsAs, ErrorOf;
    EndsExactly(hooks, s);
    forall x | BeginsWith(hooks, s, x)
      ensures Run(hooks, RESET_STATE, s).verdict == Done(ErrorOf(hooks, x))
              && (Run(hooks, RESET_STATE, s).verdict == Done(HE_NONE) <==> x.IsMessage())
    {
      EndsMeans(hooks, Run(hooks, RESET_STATE, s), x, s[|x.Text()|..]);
    }
  }

  // ----- One call of Process

  /** What a call has come to when the text begins with the ending x. */
  ghost predicate CallEndsAs(hooks: Hooks, d: Delivery, x: Ending, rest: string)
    requires IsEnding(hooks, x)
  {
    d.error == ErrorOf(hooks, x) && d.rest == rest && d.events == EventsOf(hooks, x)
  }

  /** If the body is not wanted and the owner keeps the I/O model, a first call of Process completes
      exactly on the texts that begin with an ending.  In general a call that completes has met an
      ending and says how it ends, unless the document may have failed. */
  lemma CallEnds(hooks: Hooks, s: string, sink: bool, takes: seq<TakeStep>)
    ensures var d := Deliver(hooks, RESET_STATE, s, sink, takes);
            && (forall x :: BeginsWith(hooks, s, x) ==>
                  && !d.result.PR_CONTINUE?
                  && (d.result.PR_COMPLETE? && (sink || TakeFailed !in takes) ==>
                        CallEndsAs(hooks, d, x, s[|x.Text()|..])))
            && (d.result.PR_COMPLETE? && (sink || TakeFailed !in takes) ==> exists x :: BeginsWith(hooks, s, x))
            && (sink && NeverSwitches(hooks) ==> !d.result.PR_BLOCK?)
  {
    hide Run, Deliver, IsEnding, ErrorOf, EventsOf, NeverSwitches, BodyLeft, BeginsWith;
    var d, o := Deliver(hooks, RESET_STATE, s, sink, takes), Run(hooks, RESET_STATE, s);
    DeliverOnPath(hooks, RESET_STATE, s, sink, takes);
    EndsExactly(hooks, s);
    if NeverSwitches(hooks) && d.result.PR_BLOCK? {
      DeliverBlocks(hooks, RESET_STATE, s, sink, takes);
    }
    forall x | BeginsWith(hooks, s, x)
      ensures IsEnding(hooks, x) && |x.Text()| <= |s| && EndsAs(hooks, o, x, s[|x.Text()|..])
    {
      Begins(hooks, s, x);
    }
  }
}
