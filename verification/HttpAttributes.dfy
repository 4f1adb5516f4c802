/** The attribute lists of HTTP challenges: HttpParseAttributes and quote of webrtc/base/httpcommon.cc. */
module HttpAttributes {
  import opened HttpParsing

  datatype Attribute = Attribute(name: string, value: string)

  // ----- Quoting

  predicate NeedsEscape(c: char) {
    c == '"' || c == '\\'
  }

  function Escaped(s: string): string {
    if s == "" then ""
    else Escaped(s[..|s| - 1]) + (if NeedsEscape(s[|s| - 1]) then "\\" else "") + [s[|s| - 1]]
  }

  function Quote(s: string): string {
    "\"" + Escaped(s) + "\""
  }

  method QuoteString(str: string) returns (result: string)
    ensures result == Quote(str)
  {
    result := "\"";
    for i := 0 to |str|
      invariant result == "\"" + Escaped(str[..i])
    {
      assert str[..i + 1][..i] == str[..i];
      if str[i] == '"' || str[i] == '\\' {
        result := result + "\\";
      }
      result := result + [str[i]];
    }
    assert str[..|str|] == str;
    result := result + "\"";
  }

  // ----- Parsing

  /** IsEndOfAttributeName at the start of `s`. */
  predicate EndsName(s: string) {
    s == "" || IsSpace(s[0]) || (|s| > 1 && s[0] == '=' && !IsSpace(s[1]) && s[1] != '=')
  }

  function NameLength(s: string): (n: nat)
    ensures n <= |s| && EndsName(s[n..])
    ensures forall i :: 0 <= i < n ==> !EndsName(s[i..])
  {
    if EndsName(s) then assert s[0..] == s; 0
    else
      var m := NameLength(s[1..]);
      NameGoesOn(s, m);
      m + 1
  }

  lemma NameGoesOn(s: string, m: nat)
    requires !EndsName(s) && m < |s| && EndsName(s[1..][m..]) && forall i :: 0 <= i < m ==> !EndsName(s[1..][i..])
    ensures EndsName(s[m + 1..]) && forall i :: 0 <= i < m + 1 ==> !EndsName(s[i..])
  {
    hide EndsName;
    assert s[1..][m..] == s[m + 1..];
    forall i | 0 <= i < m + 1 ensures !EndsName(s[i..]) {
      if i == 0 {
        assert s[0..] == s;
      } else {
        assert s[1..][i - 1..] == s[i..];
      }
    }
  }

  datatype Value = Value(text: string, rest: string)

  /** A quoted value behind its opening quote. */
  function QuotedValue(s: string): (v: Value)
    ensures |v.rest| <= |s|
    decreases |s|
  {
    if s == "" then Value("", "")
    else if s[0] == '"' then Value("", s[1..])
    else
      var at := if s[0] == '\\' && |s| > 1 then 1 else 0;
      var v := QuotedValue(s[at + 1..]);
      Value([s[at]] + v.text, v.rest)
  }

  function PlainValue(s: string): (v: Value)
    ensures |v.rest| <= |s|
  {
    if s == "" || IsSpace(s[0]) || s[0] == ',' then Value("", s)
    else
      var v := PlainValue(s[1..]);
      Value([s[0]] + v.text, v.rest)
  }

  /** The value behind a name, if there is one. */
  function ValueAfter(s: string): (v: Value)
    ensures |v.rest| <= |s| && (s != "" && s[0] == '=' ==> |v.rest| < |s|)
  {
    if s == "" || s[0] != '=' then Value("", s)
    else if |s| > 1 && s[1] == '"' then QuotedValue(s[2..])
    else PlainValue(s[1..])
  }

  function SkipComma(s: string): string {
    if s != "" && s[0] == ',' then s[1..] else s
  }

  function ParseAttributes(s: string): seq<Attribute>
    decreases |s|
  {
    var t := s[SpacePrefix(s)..];
    if t == "" then []
    else
      var n := NameLength(t);
      var v := ValueAfter(t[n..]);
      assert n == 0 ==> t[0] == '=' && t[n..] == t;
      [Attribute(t[..n], v.text)] + ParseAttributes(SkipComma(v.rest))
  }

  // ----- The imperative parser

  predicate IsEndOfAttributeName(pos: nat, data: string)
    ensures pos <= |data| ==> IsEndOfAttributeName(pos, data) == EndsName(data[pos..])
  {
    if pos >= |data| then true
    else if IsSpace(data[pos]) then true
    else pos + 1 < |data| && data[pos] == '=' && !IsSpace(data[pos + 1]) && data[pos + 1] != '='
  }

  lemma NameLengthUnique(s: string, n: nat)
    requires n <= |s| && EndsName(s[n..]) && forall i :: 0 <= i < n ==> !EndsName(s[i..])
    ensures NameLength(s) == n
  {
  }

  method ScanName(data: string, start: nat) returns (pos: nat)
    requires start <= |data|
    ensures start <= pos <= |data| && pos == start + NameLength(data[start..])
  {
    pos := start;
    while !IsEndOfAttributeName(pos, data)
      invariant start <= pos <= |data|
      invariant forall i :: 0 <= i < pos - start ==> !EndsName(data[start..][i..])
      decreases |data| - pos
    {
      assert data[start..][pos - start..] == data[pos..];
      pos := pos + 1;
    }
    assert data[start..][pos - start..] == data[pos..];
    NameLengthUnique(data[start..], pos - start);
  }

  /** One turn of a quoted value, at its end, at an escape, and at any other character. */
  lemma QuotedTurn(data: string, pos: nat)
    requires pos < |data|
    ensures var v := QuotedValue(data[pos..]);
            if data[pos] == '"' then v == Value("", data[pos + 1..])
            else
              var at := if data[pos] == '\\' && pos + 1 < |data| then pos + 1 else pos;
              var w := QuotedValue(data[at + 1..]);
              v == Value([data[at]] + w.text, w.rest)
  {
    var s := data[pos..];
    assert s[1..] == data[pos + 1..];
    if |s| > 1 {
      assert s[2..] == data[pos + 2..];
    }
  }

  lemma Regroup(a: string, b: string, c: string)
    ensures (a + b) + c == a + (b + c) && a + "" == a
  {
  }

  /** The loop over a quoted value; `start` is the position of its opening quote. */
  method ScanQuoted(data: string, start: nat) returns (text: string, pos: nat)
    requires start < |data| && data[start] == '"'
    ensures start < pos <= |data| && Value(text, data[pos..]) == QuotedValue(data[start + 1..])
  {
    hide QuotedValue;
    text, pos := "", start + 1;
    ghost var whole := QuotedValue(data[start + 1..]);
    while pos < |data|
      invariant start < pos <= |data|
      invariant whole == Value(text + QuotedValue(data[pos..]).text, QuotedValue(data[pos..]).rest)
      decreases |data| - pos
    {
      QuotedTurn(data, pos);
      if data[pos] == '"' {
        Regroup(text, "", "");
        pos := pos + 1;
        return;
      }
      if data[pos] == '\\' && pos + 1 < |data| {
        pos := pos + 1;
      }
      Regroup(text, [data[pos]], QuotedValue(data[pos + 1..]).text);
      text := text + [data[pos]];
      pos := pos + 1;
    }
    QuotedNothing();
    assert data[pos..] == "";
    Regroup(text, "", "");
  }

  lemma QuotedNothing()
    ensures QuotedValue("") == Value("", "")
  {
  }

  method ScanPlain(data: string, start: nat) returns (text: string, pos: nat)
    requires start <= |data|
    ensures start <= pos <= |data| && Value(text, data[pos..]) == PlainValue(data[start..])
  {
    text, pos := "", start;
    ghost var whole := PlainValue(data[start..]);
    while pos < |data| && !IsSpace(data[pos]) && data[pos] != ','
      invariant start <= pos <= |data|
      invariant whole == Value(text + PlainValue(data[pos..]).text, PlainValue(data[pos..]).rest)
    {
      assert data[pos..][1..] == data[pos + 1..];
      assert text + ([data[pos]] + PlainValue(data[pos + 1..]).text) == text + [data[pos]] + PlainValue(data[pos + 1..]).text;
      text := text + [data[pos]];
      pos := pos + 1;
    }
    assert text + "" == text;
  }

  /** The value behind the name that ends at `start`, and the comma behind it. */
  method ScanValue(data: string, start: nat) returns (text: string, pos: nat)
    requires start <= |data|
    ensures start <= pos <= |data|
    ensures var v := ValueAfter(data[start..]); text == v.text && data[pos..] == SkipComma(v.rest)
  {
    hide QuotedValue, PlainValue;
    text, pos := "", start;
    if pos < |data| && data[pos] == '=' {
      assert data[start..][1..] == data[start + 1..];
      pos := pos + 1;
      if pos < |data| && data[pos] == '"' {
        assert data[start..][2..] == data[start + 2..];
        text, pos := ScanQuoted(data, pos);
      } else {
        text, pos := ScanPlain(data, pos);
      }
    }
    if pos < |data| && data[pos] == ',' {
      assert data[pos..][1..] == data[pos + 1..];
      pos := pos + 1;
    }
  }

  /** Two shapes of ParseAttributes: at the end, and one attribute and the rest. */
  lemma ParseTurn(s: string)
    ensures var t := s[SpacePrefix(s)..];
            ParseAttributes(s) ==
            if t == "" then []
            else
              var v := ValueAfter(t[NameLength(t)..]);
              [Attribute(t[..NameLength(t)], v.text)] + ParseAttributes(SkipComma(v.rest))
  {
    hide ValueAfter, NameLength, SpacePrefix;
  }

  lemma AfterSpaces(s: string)
    ensures var t := s[SpacePrefix(s)..]; t != "" ==> !IsSpace(t[0])
  {
  }

  lemma NameOrEquals(t: string)
    requires t != "" && !IsSpace(t[0])
    ensures NameLength(t) == 0 ==> t[0] == '=' && |SkipComma(ValueAfter(t).rest)| < |t|
  {
    assert t[0..] == t;
  }

  /** One turn of the loop, which takes at least one character. */
  method ParseOne(data: string, start: nat) returns (found: bool, attribute: Attribute, pos: nat)
    requires start <= |data|
    ensures start <= pos <= |data|
    ensures !found ==> ParseAttributes(data[start..]) == []
    ensures found ==> start < pos && ParseAttributes(data[start..]) == [attribute] + ParseAttributes(data[pos..])
  {
    hide ParseAttributes, ValueAfter, NameLength, SpacePrefix, SkipComma;
    ParseTurn(data[start..]);
    AfterSpaces(data[start..]);
    pos := SkipSpaces(data, start);
    attribute := Attribute("", "");
    found := pos < |data|;
    if !found {
      return;
    }
    ghost var t := data[pos..];
    NameOrEquals(t);
    var nameStart := pos;
    pos := ScanName(data, pos);
    assert t[pos - nameStart..] == data[pos..] && t[..pos - nameStart] == data[nameStart..pos];
    assert t[0..] == t;
    var name, value := data[nameStart..pos], "";
    value, pos := ScanValue(data, pos);
    attribute := Attribute(name, value);
  }

  /** HttpParseAttributes. */
  method HttpParseAttributes(data: string) returns (attributes: seq<Attribute>)
    ensures attributes == ParseAttributes(data)
  {
    hide ParseAttributes;
    attributes := [];
    var pos, found := 0, true;
    assert data[0..] == data;
    while true
      invariant pos <= |data|
      invariant ParseAttributes(data) == attributes + ParseAttributes(data[pos..])
      decreases |data| - pos
    {
      var attribute;
      ghost var before := attributes;
      found, attribute, pos := ParseOne(data, pos);
      if !found {
        assert attributes + [] == attributes;
        return;
      }
      attributes := attributes + [attribute];
      assert before + ([attribute] + ParseAttributes(data[pos..])) == attributes + ParseAttributes(data[pos..]);
    }
  }

  // ----- Round trip

  function RenderOne(a: Attribute): string {
    a.name + "=" + Quote(a.value)
  }

  /** name=quote(value), joined by a comma and a blank. */
  function Render(l: seq<Attribute>): string {
    if l == [] then "" else RenderOne(l[0]) + (if |l| == 1 then "" else ", " + Render(l[1..]))
  }

  /** A name that the parser does not cut: no white space, and equal signs only at its end. */
  predicate Parsable(name: string) {
    forall i :: 0 <= i < |name| ==> !IsSpace(name[i]) && (name[i] == '=' && i + 1 < |name| ==> name[i + 1] == '=')
  }

  /** What was escaped is read back, up to the closing quote. */
  lemma {:induction false} EscapedReads(value: string, s: string)
    ensures QuotedValue(Escaped(value) + s) == Value(value + QuotedValue(s).text, QuotedValue(s).rest)
    decreases |value|
  {
    hide QuotedValue;
    if value == "" {
      Regroup("", "", s);
      assert "" + s == s && "" + QuotedValue(s).text == QuotedValue(s).text;
    } else {
      var n := |value| - 1;
      var c := value[n];
      var escaped := (if NeedsEscape(c) then "\\" else "") + [c] + s;
      assert Escaped(value) + s == Escaped(value[..n]) + escaped;
      EscapedReads(value[..n], escaped);
      EscapedChar(c, s);
      assert value == value[..n] + [c];
      assert value[..n] + ([c] + QuotedValue(s).text) == value + QuotedValue(s).text;
    }
  }

  lemma EscapedChar(c: char, s: string)
    ensures var t := (if NeedsEscape(c) then "\\" else "") + [c] + s;
            QuotedValue(t) == Value([c] + QuotedValue(s).text, QuotedValue(s).rest)
  {
    var t := (if NeedsEscape(c) then "\\" else "") + [c] + s;
    if NeedsEscape(c) {
      assert t[2..] == s && t[1] == c;
    } else {
      assert t[1..] == s;
    }
  }

  lemma QuoteReads(value: string, s: string)
    ensures ValueAfter("=" + Quote(value) + s) == Value(value, s)
  {
    var t := "=" + Quote(value) + s;
    var close := "\"" + s;
    assert t[2..] == Escaped(value) + close;
    EscapedReads(value, close);
    assert close[1..] == s && value + "" == value;
  }

  /** Where the parser would take the name to end too early. */
  predicate Cuts(name: string, i: nat)
    requires i < |name|
  {
    IsSpace(name[i]) || (name[i] == '=' && i + 1 < |name| && !IsSpace(name[i + 1]) && name[i + 1] != '=')
  }

  /** What may follow the equal sign of a name. */
  predicate StartsValue(s: string) {
    s != "" && !IsSpace(s[0]) && s[0] != '='
  }

  lemma NameEndsAt(name: string, s: string, i: nat)
    requires StartsValue(s) && i <= |name|
    ensures EndsName((name + "=" + s)[i..]) <==> i == |name| || Cuts(name, i)
  {
    var t := name + "=" + s;
    assert t[i..][0] == t[i] && t[i..][1] == t[i + 1];
  }

  lemma ParsableMeans(name: string)
    ensures Parsable(name) <==> forall i :: 0 <= i < |name| ==> !Cuts(name, i)
  {
    if forall i :: 0 <= i < |name| ==> !Cuts(name, i) {
      forall i | 0 <= i < |name|
        ensures !IsSpace(name[i]) && (name[i] == '=' && i + 1 < |name| ==> name[i + 1] == '=')
      {
        assert !Cuts(name, i);
        if i + 1 < |name| {
          assert !Cuts(name, i + 1);
        }
      }
    }
  }

  lemma NameReads(name: string, s: string)
    requires StartsValue(s)
    ensures NameLength(name + "=" + s) <= |name|
    ensures NameLength(name + "=" + s) == |name| <==> Parsable(name)
  {
    hide EndsName, Parsable, Cuts;
    var t := name + "=" + s;
    var n := NameLength(t);
    ParsableMeans(name);
    NameEndsAt(name, s, |name|);
    if n < |name| {
      NameEndsAt(name, s, n);
    }
    forall i | 0 <= i < |name| && i < n ensures !Cuts(name, i) {
      NameEndsAt(name, s, i);
    }
  }

  /** One rendered attribute and whatever follows: its name comes back exactly if it is parsable,
      and otherwise shorter. */
  lemma OneReads(a: Attribute, s: string)
    ensures var r := ParseAttributes(RenderOne(a) + s);
            && r != []
            && (Parsable(a.name) ==> r == [a] + ParseAttributes(SkipComma(s)))
            && (!Parsable(a.name) ==> |r[0].name| < |a.name|)
  {
    hide NameLength, ValueAfter, Quote, SpacePrefix, ParseAttributes, Parsable;
    var tail := Quote(a.value) + s;
    assert RenderOne(a) + s == a.name + "=" + tail;
    QuoteStarts(a.value);
    if Parsable(a.name) {
      ParsableReads(a, s);
    } else {
      UnparsableReads(a.name, tail);
    }
  }

  lemma ParsableReads(a: Attribute, s: string)
    requires Parsable(a.name)
    ensures ParseAttributes(a.name + "=" + (Quote(a.value) + s)) == [a] + ParseAttributes(SkipComma(s))
  {
    hide NameLength, ValueAfter, Quote, SpacePrefix, ParseAttributes, Parsable, SkipComma;
    var tail := Quote(a.value) + s;
    var t := a.name + "=" + tail;
    QuoteStarts(a.value);
    SpacesInName(a.name, tail);
    NameReads(a.name, tail);
    QuoteReads(a.value, s);
    var n := |a.name|;
    assert t[n..] == "=" + Quote(a.value) + s;
    assert t[..n] == a.name && t[0..] == t;
    ParseTurn(t);
  }

  lemma UnparsableReads(name: string, tail: string)
    requires !Parsable(name) && StartsValue(tail)
    ensures var r := ParseAttributes(name + "=" + tail); r != [] && |r[0].name| < |name|
  {
    hide NameLength, ValueAfter, SpacePrefix, ParseAttributes, Parsable;
    var t := name + "=" + tail;
    SpacesInName(name, tail);
    var k := SpacePrefix(t);
    ParseTurn(t);
    assert t[k..] == name[k..] + "=" + tail && name[0..] == name;
    NameReads(name[k..], tail);
  }

  lemma QuoteStarts(value: string)
    ensures Quote(value) != "" && Quote(value)[0] == '"'
  {
  }

  lemma SpacesInName(name: string, s: string)
    ensures SpacePrefix(name + "=" + s) <= |name|
    ensures Parsable(name) ==> SpacePrefix(name + "=" + s) == 0
  {
    var t := name + "=" + s;
    assert t[|name|] == '=' && !IsSpace('=');
  }

  lemma LeadingSpace(s: string)
    ensures ParseAttributes(" " + s) == ParseAttributes(s)
  {
    hide ParseAttributes, NameLength, ValueAfter;
    var t := " " + s;
    assert t[1..] == s;
    assert t[SpacePrefix(t)..] == s[SpacePrefix(s)..];
    ParseTurn(t);
    ParseTurn(s);
  }

  /** Parsing a rendered list gives it back exactly if all its names are parsable: without white
      space, and with equal signs at the end only.  Values are arbitrary. */
  lemma {:induction false} RoundTrip(l: seq<Attribute>)
    ensures ParseAttributes(Render(l)) == l <==> forall a :: a in l ==> Parsable(a.name)
    decreases |l|
  {
    hide ParseAttributes, RenderOne, Parsable;
    if l == [] {
      ParseTurn("");
    } else {
      var s := if |l| == 1 then "" else ", " + Render(l[1..]);
      OneReads(l[0], s);
      RoundTrip(l[1..]);
      assert l == [l[0]] + l[1..];
      if |l| == 1 {
        assert l[1..] == [] && Render([]) == "";
      } else {
        assert SkipComma(s) == " " + Render(l[1..]);
        LeadingSpace(Render(l[1..]));
      }
      var rest := ParseAttributes(Render(l[1..]));
      if Parsable(l[0].name) {
        assert ParseAttributes(Render(l)) == [l[0]] + rest;
        assert ([l[0]] + rest)[1..] == rest;
      } else {
        assert l[0] in l;
      }
    }
  }

  // ----- Lists as servers write them

  /** A character of a quoted value; any character may be escaped. */
  datatype Letter = Letter(escaped: bool, c: char) {
    predicate Proper() {
      escaped || (c != '"' && c != '\\')
    }

    function Raw(): string {
      if escaped then ['\\', c] else [c]
    }
  }

  function Raw(ls: seq<Letter>): string {
    if ls == [] then "" else ls[0].Raw() + Raw(ls[1..])
  }

  function Read(ls: seq<Letter>): string {
    if ls == [] then "" else [ls[0].c] + Read(ls[1..])
  }

  predicate Proper(ls: seq<Letter>) {
    forall i :: 0 <= i < |ls| ==> ls[i].Proper()
  }

  /** A quoted value ends at the first quote that is not escaped, or with the text, where a last
      backslash stands for itself.  Every text is such a value in front of such an end. */
  lemma {:induction false} RawReads(ls: seq<Letter>, end: string)
    requires Proper(ls) && (end == "" || end == "\\" || end[0] == '"')
    ensures QuotedValue(Raw(ls) + end) ==
            if end != "" && end[0] == '"' then Value(Read(ls), end[1..])
            else Value(Read(ls) + end, "")
  {
    hide QuotedValue;
    if ls == [] {
      assert Raw(ls) + end == end && Read(ls) + end == end;
      RawEnd(end);
    } else {
      var u := Raw(ls[1..]) + end;
      assert Raw(ls) + end == ls[0].Raw() + u;
      RawStep(ls[0], u);
      RawReads(ls[1..], end);
      Regroup([ls[0].c], Read(ls[1..]), end);
    }
  }

  lemma RawStep(l: Letter, u: string)
    requires l.Proper()
    ensures QuotedValue(l.Raw() + u) == Value([l.c] + QuotedValue(u).text, QuotedValue(u).rest)
  {
    var t := l.Raw() + u;
    assert t[|l.Raw()|..] == u;
  }

  lemma RawEnd(end: string)
    requires end == "" || end == "\\" || end[0] == '"'
    ensures QuotedValue(end) == if end != "" && end[0] == '"' then Value("", end[1..]) else Value(end, "")
  {
    if end == "\\" {
      assert end[1..] == "" && QuotedValue("") == Value("", "");
    }
  }

  lemma {:induction false} RawOf(s: string) returns (ls: seq<Letter>, end: string)
    ensures Proper(ls) && Raw(ls) + end == s && (end == "" || end == "\\" || end[0] == '"')
  {
    if s == "" || s[0] == '"' || s == "\\" {
      ls, end := [], s;
      assert Raw(ls) + end == s;
    } else {
      var first := Letter(s[0] == '\\', if s[0] == '\\' then s[1] else s[0]);
      ls, end := RawOf(s[if first.escaped then 2 else 1..]);
      assert ([first] + ls)[1..] == ls;
      assert Raw([first] + ls) + end == first.Raw() + (Raw(ls) + end);
      ls := [first] + ls;
    }
  }

  /** The letters that quote() writes: a backslash in front of quotes and backslashes only. */
  function Written(s: string): (ls: seq<Letter>)
    ensures |ls| == |s|
  {
    seq(|s|, i requires 0 <= i < |s| => Letter(s[i] == '"' || s[i] == '\\', s[i]))
  }

  lemma {:induction false} RawJoin(a: seq<Letter>, b: seq<Letter>)
    ensures Raw(a + b) == Raw(a) + Raw(b)
  {
    if a == [] {
      assert a + b == b;
    } else {
      assert (a + b)[1..] == a[1..] + b;
      RawJoin(a[1..], b);
      Regroup(a[0].Raw(), Raw(a[1..]), Raw(b));
    }
  }

  lemma {:induction false} QuoteIs(s: string)
    ensures Quote(s) == "\"" + Raw(Written(s)) + "\""
  {
    if s == "" {
      assert Written(s) == [];
    } else {
      var n := |s| - 1;
      QuoteIs(s[..n]);
      var l := Written(s)[n];
      assert Written(s) == Written(s[..n]) + [l];
      RawJoin(Written(s[..n]), [l]);
      assert [l][1..] == [] && Raw([l]) == l.Raw() + Raw([]);
      var e := "\"" + Escaped(s[..n]) + "\"";
      assert Escaped(s[..n]) == e[1..|e| - 1];
      var r := "\"" + Raw(Written(s[..n])) + "\"";
      assert Raw(Written(s[..n])) == r[1..|r| - 1];
    }
  }

  /** A word, a name and a value without quotes, or a name and a quoted value. */
  datatype Item =
    | Word(name: string)
    | Plain(name: string, value: string)
    | Quoted(name: string, letters: seq<Letter>)
  {
    predicate Proper() {
      && Parsable(name)
      && match this
         case Word(_) => name != ""
         case Plain(_, v) => StartsValue(v) && v[0] != '"' && forall i :: 0 <= i < |v| ==> !IsSpace(v[i]) && v[i] != ','
         case Quoted(_, ls) => forall i :: 0 <= i < |ls| ==> ls[i].Proper()
    }

    function Text(): string {
      match this
      case Word(n) => n
      case Plain(n, v) => n + "=" + v
      case Quoted(n, ls) => n + "=" + ("\"" + Raw(ls) + "\"")
    }

    function Meaning(): Attribute {
      match this
      case Word(n) => Attribute(n, "")
      case Plain(n, v) => Attribute(n, v)
      case Quoted(n, ls) => Attribute(n, Read(ls))
    }

    /** A word is ended by a blank; a comma would become part of it. */
    function Separator(): string {
      if Word? then " " else ", "
    }
  }

  function Text(items: seq<Item>): string {
    if items == [] then ""
    else items[0].Text() + (if |items| == 1 then "" else items[0].Separator() + Text(items[1..]))
  }

  function Meaning(items: seq<Item>): seq<Attribute> {
    if items == [] then [] else [items[0].Meaning()] + Meaning(items[1..])
  }

  lemma {:induction false} PlainReads(v: string, s: string)
    requires (forall i :: 0 <= i < |v| ==> !IsSpace(v[i]) && v[i] != ',') && (s != "" ==> s[0] == ',')
    ensures PlainValue(v + s) == Value(v, s)
  {
    if v == "" {
      assert v + s == s;
    } else {
      PlainReads(v[1..], s);
      assert (v + s)[1..] == v[1..] + s;
    }
  }

  lemma ValueReads(x: Item, s: string)
    requires x.Proper() && !x.Word? && (s != "" ==> s[0] == ',')
    ensures var v := x.Text()[|x.name| + 1..];
            x.Text() == x.name + "=" + v && StartsValue(v) && ValueAfter("=" + v + s) == Value(x.Meaning().value, s)
  {
    hide PlainValue, QuotedValue, ValueAfter, Raw, Read, Parsable;
    var v := x.Text()[|x.name| + 1..];
    if x.Plain? {
      assert v == x.value;
      PlainReads(v, s);
      PlainBehind(v, s);
    } else {
      assert v == "\"" + Raw(x.letters) + "\"";
      RawReads(x.letters, "\"" + s);
      RawBehind(Raw(x.letters), s);
    }
  }

  lemma PlainBehind(v: string, s: string)
    requires StartsValue(v) && v[0] != '"'
    ensures ValueAfter("=" + v + s) == PlainValue(v + s)
  {
    var t := "=" + v + s;
    assert t[1..] == v + s && t[1] == v[0];
  }

  lemma RawBehind(raw: string, s: string)
    ensures ValueAfter("=" + ("\"" + raw + "\"") + s) == QuotedValue(raw + ("\"" + s)) && ("\"" + s)[1..] == s
  {
    var t := "=" + ("\"" + raw + "\"") + s;
    assert t[2..] == raw + ("\"" + s);
  }

  lemma WordEnds(name: string, s: string)
    requires Parsable(name) && (s != "" ==> s[0] == ' ')
    ensures NameLength(name + s) == |name|
  {
    var t := name + s;
    forall i | 0 <= i < |name| ensures !EndsName(t[i..]) {
      assert t[i..][0] == name[i];
      if i + 1 < |name| {
        assert t[i..][1] == name[i + 1];
      } else if s != "" {
        assert t[i..][1] == s[0];
      }
    }
    assert t[|name|..] == s;
    NameLengthUnique(t, |name|);
  }

  lemma WordReads(name: string, s: string)
    requires Parsable(name) && name != "" && (s != "" ==> s[0] == ' ')
    ensures ParseAttributes(name + s) == [Attribute(name, "")] + ParseAttributes(SkipComma(s))
  {
    hide NameLength, ValueAfter, SpacePrefix, ParseAttributes, Parsable;
    var t, n := name + s, |name|;
    WordEnds(name, s);
    WordStarts(name, s);
    ValueOfNone(s);
    assert t[..n] == name && t[0..] == t && t[n..] == s;
    ParseTurn(t);
  }

  lemma PairReads(name: string, v: string, value: string, s: string)
    requires Parsable(name) && StartsValue(v) && ValueAfter("=" + v + s) == Value(value, s)
    ensures ParseAttributes(name + "=" + v + s) == [Attribute(name, value)] + ParseAttributes(SkipComma(s))
  {
    hide NameLength, ValueAfter, SpacePrefix, ParseAttributes, Parsable;
    var t, n := name + "=" + (v + s), |name|;
    NameReads(name, v + s);
    SpacesInName(name, v + s);
    assert t[..n] == name && t[0..] == t && t[n..] == "=" + v + s;
    assert t == name + "=" + v + s;
    ParseTurn(t);
  }

  /** One item, and what follows it. */
  lemma ItemReads(x: Item, s: string)
    requires x.Proper() && (s != "" ==> s[0] == x.Separator()[0])
    ensures ParseAttributes(x.Text() + s) == [x.Meaning()] + ParseAttributes(SkipComma(s))
  {
    hide ParseAttributes, ValueAfter, Parsable, Raw, Read, StartsValue;
    if x.Word? {
      WordReads(x.name, s);
    } else {
      ValueReads(x, s);
      PairReads(x.name, x.Text()[|x.name| + 1..], x.Meaning().value, s);
    }
  }

  lemma ValueOfNone(s: string)
    requires s != "" ==> s[0] == ' '
    ensures ValueAfter(s) == Value("", s)
  {
  }

  lemma WordStarts(name: string, s: string)
    requires Parsable(name) && name != ""
    ensures SpacePrefix(name + s) == 0
  {
  }

  lemma CommaOf(x: Item, s: string)
    ensures SkipComma(x.Separator() + s) == " " + s && SkipComma("") == ""
  {
  }

  /** A list of words, plain values and quoted values in any order is read as what it says. */
  lemma {:induction false} ListReads(items: seq<Item>)
    requires forall i :: 0 <= i < |items| ==> items[i].Proper()
    ensures ParseAttributes(Text(items)) == Meaning(items)
    decreases |items|
  {
    hide ParseAttributes, Raw, Read, Parsable, StartsValue, SkipComma;
    if items == [] {
      ParseTurn("");
    } else {
      var x, rest := items[0], items[1..];
      var s := if |items| == 1 then "" else x.Separator() + Text(rest);
      ItemReads(x, s);
      ListReads(rest);
      CommaOf(x, Text(rest));
      if rest == [] {
        assert Text(rest) == "";
      } else {
        LeadingSpace(Text(rest));
      }
    }
  }

  lemma TwoItems(x: Item, y: Item)
    ensures Text([x, y]) == x.Text() + x.Separator() + y.Text() && Meaning([x, y]) == [x.Meaning(), y.Meaning()]
  {
    var items := [x, y];
    assert items[1..] == [y] && [y][1..] == [];
    assert Text([y]) == y.Text() + "" && Meaning([y]) == [y.Meaning()] + Meaning([]);
    Regroup(x.Text(), x.Separator(), y.Text());
  }

  lemma PlainProper()
    ensures Plain("stale", "false").Proper() && Plain("qop", "auth").Proper()
  {
  }

  /** For example, values without quotes. */
  lemma PlainListReads()
    ensures ParseAttributes("stale=false, qop=auth") == [Attribute("stale", "false"), Attribute("qop", "auth")]
  {
    hide ParseAttributes, Text, Meaning, Parsable, StartsValue;
    var x, y := Plain("stale", "false"), Plain("qop", "auth");
    PlainProper();
    TwoItems(x, y);
    hide Item.Proper;
    ListReads([x, y]);
    assert x.Text() + x.Separator() + y.Text() == "stale=false, qop=auth";
  }
}
