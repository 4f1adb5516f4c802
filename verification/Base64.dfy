/** Base64 of webrtc/base/base64.cc.  Bytes and six-bit groups are numbers; a shift and a mask are
    a quotient and a remainder. */
module Base64 {

  import opened ByteOrders
  type Sextet = v: int | 0 <= v < 64

  const PAD := '='
  const PD: Byte := 0xFD
  const SP: Byte := 0xFE
  const IL: Byte := 0xFF

  /** The decode table, by its ranges; only characters below 256 have an entry, the others are no
      characters of the source. */
  function DecodeTable(c: char): Byte {
    if 'A' <= c <= 'Z' then c as int - 'A' as int
    else if 'a' <= c <= 'z' then c as int - 'a' as int + 26
    else if '0' <= c <= '9' then c as int - '0' as int + 52
    else if c == '+' then 62
    else if c == '/' then 63
    else if c == PAD then PD
    else if c == ' ' || '\t' <= c <= '\r' then SP
    else IL
  }

  /** The encode table, by its ranges. */
  function EncodeTable(v: Sextet): char {
    if v < 26 then ('A' as int + v) as char
    else if v < 52 then ('a' as int + v - 26) as char
    else if v < 62 then ('0' as int + v - 52) as char
    else if v == 62 then '+' else '/'
  }

  /** The two tables are inverse to each other. */
  lemma TablesAgree(c: char, v: Sextet)
    ensures DecodeTable(c) == v <==> c == EncodeTable(v)
    ensures DecodeTable(EncodeTable(v)) == v
  {
  }

  // ----- Encoding

  /** The characters of one, two or three bytes. */
  function EncodeGroup(x: seq<Byte>): (s: string)
    requires 1 <= |x| <= 3
    ensures |s| == 4
  {
    var b1: Byte := if |x| > 1 then x[1] else 0;
    var b2: Byte := if |x| > 2 then x[2] else 0;
    [EncodeTable(x[0] / 4), EncodeTable(x[0] % 4 * 16 + b1 / 16),
     if |x| > 1 then EncodeTable(b1 % 16 * 4 + b2 / 64) else PAD,
     if |x| > 2 then EncodeTable(b2 % 64) else PAD]
  }

  function Encode(x: seq<Byte>): string {
    if x == [] then ""
    else if |x| <= 3 then EncodeGroup(x)
    else EncodeGroup(x[..3]) + Encode(x[3..])
  }

  /** Base64::EncodeFromArray. */
  method EncodeFromArray(data: seq<Byte>) returns (result: string)
    ensures result == Encode(data) && |result| == (|data| + 2) / 3 * 4
  {
    hide Encode, EncodeGroup;
    var len := |data|;
    var buffer := new char[(len + 2) / 3 * 4];
    var i, dest := 0, 0;
    assert data[0..] == data && buffer[..0] == "";
    while i < len
      invariant 0 <= i <= len && dest == (i + 2) / 3 * 4 && (i % 3 == 0 || i == len)
      invariant buffer[..dest] + Encode(data[i..]) == Encode(data)
    {
      ghost var before, first := buffer[..dest], i;
      i := EncodeTurn(data, buffer, i, dest);
      dest := dest + 4;
      EncodeTakes(data, first);
      assert buffer[..dest] == before + EncodeGroup(data[first..i]);
      Associate(before, EncodeGroup(data[first..i]), Encode(data[i..]));
    }
    EncodeEmpty();
    assert data[i..] == [] && buffer[..dest] + "" == buffer[..];
    return buffer[..];
  }

  /** One turn of its loop: four characters from the next one, two or three bytes. */
  method EncodeTurn(data: seq<Byte>, buffer: array<char>, start: nat, dest: nat) returns (i: nat)
    requires start < |data| && dest + 4 <= buffer.Length
    modifies buffer
    ensures i == if start + 3 <= |data| then start + 3 else |data|
    ensures buffer[..dest] == old(buffer[..dest]) && buffer[dest..dest + 4] == EncodeGroup(data[start..i])
  {
    hide EncodeTable;
    var len := |data|;
    i := start;
    var c: int := data[i] / 4;
    buffer[dest] := EncodeTable(c);
    c := data[i] % 4 * 16;
    i := i + 1;
    if i < len {
      c := c + data[i] / 16;
    }
    buffer[dest + 1] := EncodeTable(c);
    if i < len {
      c := data[i] % 16 * 4;
      i := i + 1;
      if i < len {
        c := c + data[i] / 64;
      }
      buffer[dest + 2] := EncodeTable(c);
    } else {
      buffer[dest + 2] := PAD;
    }
    if i < len {
      c := data[i] % 64;
      buffer[dest + 3] := EncodeTable(c);
      i := i + 1;
    } else {
      buffer[dest + 3] := PAD;
    }
    ghost var x := data[start..i];
    assert x[0] == data[start] && (|x| > 1 ==> x[1] == data[start + 1]) && (|x| > 2 ==> x[2] == data[start + 2]);
    assert buffer[dest..dest + 4] == [buffer[dest], buffer[dest + 1], buffer[dest + 2], buffer[dest + 3]];
  }

  lemma EncodeEmpty()
    ensures Encode([]) == ""
  {
  }

  lemma EncodeTakes(data: seq<Byte>, first: nat)
    requires first < |data|
    ensures var i := if first + 3 <= |data| then first + 3 else |data|;
            Encode(data[first..]) == EncodeGroup(data[first..i]) + Encode(data[i..])
  {
    hide EncodeGroup;
    var x := data[first..];
    if |x| <= 3 {
      assert data[first..|data|] == x && data[|data|..] == [];
      assert EncodeGroup(x) + "" == EncodeGroup(x);
    } else {
      assert x[..3] == data[first..first + 3] && x[3..] == data[first + 3..];
    }
  }

  lemma Associate(a: string, b: string, c: string)
    ensures (a + b) + c == a + (b + c)
  {
  }

  // ----- Decoding

  datatype Parse = DO_PARSE_STRICT | DO_PARSE_WHITE | DO_PARSE_ANY
  datatype Padding = DO_PAD_YES | DO_PAD_ANY | DO_PAD_NO
  datatype Term = DO_TERM_BUFFER | DO_TERM_CHAR | DO_TERM_ANY
  datatype Flags = Flags(parse: Parse, pad: Padding, term: Term)

  const DO_STRICT := Flags(DO_PARSE_STRICT, DO_PAD_YES, DO_TERM_BUFFER)

  /** What GetNextQuantum finds: up to four groups, whether they are padded to four, and where it stops. */
  datatype Quantum = Quantum(groups: seq<Sextet>, padded: bool, rest: string)

  datatype Move = Stop | Skip | AddPad | AddGroup(v: Sextet)

  /** What one character does to a scan that has found `n` groups and `pads` pads. */
  function NextMove(f: Flags, c: char, n: nat, pads: nat): (m: Move)
    ensures m.AddGroup? ==> DecodeTable(c) == m.v && (pads > 0 ==> f.parse.DO_PARSE_ANY?)
    ensures m.AddPad? ==> DecodeTable(c) == PD && !f.pad.DO_PAD_NO? && 2 <= n && n + pads < 4
  {
    var code := DecodeTable(c);
    var pass := if f.parse.DO_PARSE_ANY? then Skip else Stop;
    if code == IL || (f.pad.DO_PAD_NO? && code == PD) then pass
    else if code == SP then if f.parse.DO_PARSE_STRICT? then Stop else Skip
    else if code == PD then if n < 2 || n + pads >= 4 then pass else AddPad
    else if pads > 0 && !f.parse.DO_PARSE_ANY? then Stop
    else AddGroup(code)
  }

  /** The scan of one quantum.  `groups` and `pads` have been found so far; `mark` is the input
      from the first of the pads on. */
  function Scan(f: Flags, s: string, groups: seq<Sextet>, pads: nat, mark: string): (r: Quantum)
    requires |groups| <= 4
    ensures |r.groups| <= 4
    decreases |s|
  {
    if |groups| == 4 || s == "" then Finish(s, groups, pads, mark)
    else
      match NextMove(f, s[0], |groups|, pads)
      case Stop => Finish(s, groups, pads, mark)
      case Skip => Scan(f, s[1..], groups, pads, mark)
      case AddPad => Scan(f, s[1..], groups, pads + 1, if pads == 0 then s else mark)
      case AddGroup(v) => Scan(f, s[1..], groups + [v], 0, mark)
  }

  function Finish(s: string, groups: seq<Sextet>, pads: nat, mark: string): Quantum {
    if |groups| + pads == 4 then Quantum(groups, true, s)
    else Quantum(groups, false, if pads > 0 then mark else s)
  }

  function Byte0(a: int, b: int): int { a * 4 + b / 16 }

  function Byte1(b: int, c: int): int { b % 16 * 16 + c / 4 }

  function Byte2(c: int, d: int): int { c % 4 * 64 + d }

  /** The whole bytes of a quantum. */
  function QuantumBytes(q: seq<Sextet>): seq<Byte>
    requires |q| <= 4
  {
    (if |q| >= 2 then [Byte0(q[0], q[1])] else []) +
    (if |q| >= 3 then [Byte1(q[1], q[2])] else []) +
    (if |q| >= 4 then [Byte2(q[2], q[3])] else [])
  }

  /** The bits of a quantum that make up no whole byte, as they stand at the top of a byte. */
  function LeftoverBits(q: seq<Sextet>): int
    requires |q| <= 4
  {
    if |q| == 1 then Byte0(q[0], 0)
    else if |q| == 2 then Byte1(q[1], 0)
    else if |q| == 3 then Byte2(q[2], 0)
    else 0
  }

  datatype Decoded = Decoded(bytes: seq<Byte>, success: bool, rest: string)

  predicate QuantumOk(f: Flags, q: Quantum)
    requires |q.groups| <= 4
  {
    |q.groups| == 4 || ((f.term.DO_TERM_ANY? || LeftoverBits(q.groups) == 0) && (f.pad.DO_PAD_YES? ==> q.padded))
  }

  lemma {:induction false} ScanProgress(f: Flags, s: string, groups: seq<Sextet>, pads: nat, mark: string)
    requires |groups| <= 4 && (pads > 0 ==> |mark| >= |s| && |groups| < 4)
    ensures var r := Scan(f, s, groups, pads, mark);
            |r.groups| == 4 ==> |r.rest| + 4 <= |s| + |groups|
    decreases |s|
  {
    if |groups| < 4 && s != "" {
      hide NextMove;
      match NextMove(f, s[0], |groups|, pads)
      case Stop =>
      case Skip => ScanProgress(f, s[1..], groups, pads, mark);
      case AddPad => ScanProgress(f, s[1..], groups, pads + 1, if pads == 0 then s else mark);
      case AddGroup(v) => ScanProgress(f, s[1..], groups + [v], 0, mark);
    }
  }

  function DecodeQuanta(f: Flags, s: string): Decoded
    decreases |s|
  {
    if s == "" then Decoded([], true, "")
    else
      var q := Scan(f, s, [], 0, s);
      if |q.groups| < 4 then Decoded(QuantumBytes(q.groups), QuantumOk(f, q), q.rest)
      else
        ScanProgress(f, s, [], 0, s);
        var d := DecodeQuanta(f, q.rest);
        d.(bytes := QuantumBytes(q.groups) + d.bytes)
  }

  function Decode(f: Flags, s: string): Decoded {
    var d := DecodeQuanta(f, s);
    d.(success := d.success && (f.term.DO_TERM_BUFFER? ==> d.rest == ""))
  }

  lemma FinishMeans(s: string, groups: seq<Sextet>, pads: nat, mark: string)
    ensures Finish(s, groups, pads, mark) ==
            Quantum(groups, |groups| + pads == 4, if |groups| + pads != 4 && pads > 0 then mark else s)
  {
  }

  lemma ScanStep(f: Flags, s: string, groups: seq<Sextet>, pads: nat, mark: string)
    requires |groups| <= 4
    ensures Scan(f, s, groups, pads, mark) ==
            if |groups| == 4 || s == "" then Finish(s, groups, pads, mark)
            else
              match NextMove(f, s[0], |groups|, pads)
              case Stop => Finish(s, groups, pads, mark)
              case Skip => Scan(f, s[1..], groups, pads, mark)
              case AddPad => Scan(f, s[1..], groups, pads + 1, if pads == 0 then s else mark)
              case AddGroup(v) => Scan(f, s[1..], groups + [v], 0, mark)
  {
    hide NextMove;
  }

  /** Base64::GetNextQuantum.  The groups found so far are the first entries of `qbuf`. */
  method GetNextQuantum(f: Flags, data: string, start: nat)
    returns (byteLen: nat, qbuf: seq<Byte>, padded: bool, dpos: nat)
    requires start <= |data|
    ensures |qbuf| == 4 && dpos <= |data| && byteLen <= 4
    ensures var q := Scan(f, data[start..], [], 0, data[start..]);
            qbuf[..byteLen] == q.groups && padded == q.padded && data[dpos..] == q.rest
    ensures forall i :: byteLen <= i < 4 ==> qbuf[i] == 0
  {
    hide Scan, Finish, DecodeTable;
    var illegalPads := f.pad.DO_PAD_NO?;
    var padLen, padStart := 0, start;
    byteLen, qbuf, dpos := 0, [0, 0, 0, 0], start;
    ghost var whole := Scan(f, data[start..], [], 0, data[start..]);
    while byteLen < 4 && dpos < |data|
      invariant start <= padStart <= dpos <= |data| && byteLen <= 4 && |qbuf| == 4
      invariant forall i :: 0 <= i < byteLen ==> qbuf[i] < 64
      invariant whole == Scan(f, data[dpos..], qbuf[..byteLen], padLen, data[padStart..])
      decreases |data| - dpos
    {
      var code := DecodeTable(data[dpos]);
      ghost var groups := qbuf[..byteLen];
      qbuf := qbuf[byteLen := code];
      assert qbuf[..byteLen] == groups && qbuf[..byteLen + 1] == groups + [code];
      ghost var s := data[dpos..];
      assert s[0] == data[dpos] && s[1..] == data[dpos + 1..];
      ScanStep(f, s, groups, padLen, data[padStart..]);
      if code == IL || (illegalPads && code == PD) {
        if !f.parse.DO_PARSE_ANY? {
          break;
        }
      } else if code == SP {
        if f.parse.DO_PARSE_STRICT? {
          break;
        }
      } else if code == PD {
        if byteLen < 2 {
          if !f.parse.DO_PARSE_ANY? {
            break;
          }
        } else if byteLen + padLen >= 4 {
          if !f.parse.DO_PARSE_ANY? {
            break;
          }
        } else {
          padLen := padLen + 1;
          if padLen == 1 {
            padStart := dpos;
          }
        }
      } else {
        if padLen > 0 {
          if !f.parse.DO_PARSE_ANY? {
            break;
          }
          padLen := 0;
        }
        byteLen := byteLen + 1;
      }
      dpos := dpos + 1;
    }
    ghost var groups := qbuf[..byteLen];
    ScanStep(f, data[dpos..], groups, padLen, data[padStart..]);
    assert whole == Finish(data[dpos..], groups, padLen, data[padStart..]);
    for i := byteLen to 4
      invariant |qbuf| == 4 && qbuf[..byteLen] == groups
      invariant forall j :: byteLen <= j < i ==> qbuf[j] == 0
    {
      qbuf := qbuf[i := 0];
    }
    FinishMeans(data[dpos..], groups, padLen, data[padStart..]);
    padded := byteLen + padLen == 4;
    if !padded && padLen > 0 {
      dpos := padStart;
    }
  }

  /** The bytes of one quantum, and the bits `c` left over behind them. */
  method TakeBytes(qlen: nat, qbuf: seq<Byte>) returns (c: int, bytes: seq<Byte>)
    requires qlen <= 4 && |qbuf| == 4 && forall i :: 0 <= i < 4 ==> qbuf[i] < 64 && (qlen <= i ==> qbuf[i] == 0)
    ensures bytes == QuantumBytes(qbuf[..qlen]) && c == LeftoverBits(qbuf[..qlen])
  {
    bytes := [];
    c := Byte0(qbuf[0], qbuf[1]);
    if qlen >= 2 {
      bytes := bytes + [c];
      c := Byte1(qbuf[1], qbuf[2]);
      if qlen >= 3 {
        bytes := bytes + [c];
        c := Byte2(qbuf[2], qbuf[3]);
        if qlen >= 4 {
          bytes := bytes + [c];
          c := 0;
        }
      }
    }
  }

  /** Base64::DecodeFromArrayTemplate. */
  method DecodeFromArray(data: string, f: Flags) returns (success: bool, result: seq<Byte>, used: nat)
    ensures used <= |data| && Decoded(result, success, data[used..]) == Decode(f, data)
  {
    hide Scan, QuantumBytes, LeftoverBits;
    result, success := [], true;
    var dpos := 0;
    assert data[0..] == data;
    ghost var whole := DecodeQuanta(f, data);
    while dpos < |data|
      invariant dpos <= |data| && success
      invariant whole == DecodeQuanta(f, data[dpos..]).(bytes := result + DecodeQuanta(f, data[dpos..]).bytes)
      decreases |data| - dpos
    {
      ghost var s, before := data[dpos..], result;
      ghost var q := Scan(f, s, [], 0, s);
      ScanProgress(f, s, [], 0, s);
      var qlen, qbuf, padded;
      qlen, qbuf, padded, dpos := GetNextQuantum(f, data, dpos);
      assert forall i :: 0 <= i < qlen ==> qbuf[i] == qbuf[..qlen][i] == q.groups[i];
      var c, bytes;
      c, bytes := TakeBytes(qlen, qbuf);
      result := result + bytes;
      if qlen < 4 {
        if !f.term.DO_TERM_ANY? && c != 0 {
          success := false;
        }
        if f.pad.DO_PAD_YES? && !padded {
          success := false;
        }
        break;
      }
      assert before + (QuantumBytes(q.groups) + DecodeQuanta(f, q.rest).bytes) ==
             result + DecodeQuanta(f, q.rest).bytes;
    }
    assert whole == Decoded(result, success, data[dpos..]);
    if f.term.DO_TERM_BUFFER? && dpos != |data| {
      success := false;
    }
    used := dpos;
  }

  // ----- Strict decoding accepts exactly the encodings

  function Chars(groups: seq<Sextet>): (s: string)
    ensures |s| == |groups| && forall i :: 0 <= i < |s| ==> s[i] == EncodeTable(groups[i])
  {
    seq(|groups|, i requires 0 <= i < |groups| => EncodeTable(groups[i]))
  }

  function Pads(n: nat): (s: string)
    ensures |s| == n && forall i :: 0 <= i < n ==> s[i] == PAD
  {
    seq(n, _ => PAD)
  }

  /** The text of groups and pads. */
  function Seen(groups: seq<Sextet>, pads: nat): string {
    Chars(groups) + Pads(pads)
  }

  lemma SeenPad(groups: seq<Sextet>, pads: nat, s: string)
    requires s != "" && s[0] == PAD
    ensures Seen(groups, pads) + s == Seen(groups, pads + 1) + s[1..]
  {
    hide Chars;
    assert Pads(pads + 1) == Pads(pads) + [PAD] && s == [PAD] + s[1..];
  }

  lemma SeenGroup(groups: seq<Sextet>, v: Sextet, s: string)
    requires s != "" && s[0] == EncodeTable(v)
    ensures Seen(groups, 0) + s == Seen(groups + [v], 0) + s[1..]
  {
    hide EncodeTable;
    assert Chars(groups + [v]) == Chars(groups) + [EncodeTable(v)] && s == [EncodeTable(v)] + s[1..];
  }

  lemma OnlyPad(c: char)
    requires DecodeTable(c) == PD
    ensures c == PAD
  {
  }

  /** A strict scan that ends up padded has seen its groups, then its pads, and nothing else. */
  lemma {:induction false} StrictScanTrace(f: Flags, s: string, groups: seq<Sextet>, pads: nat, mark: string)
    requires f.parse.DO_PARSE_STRICT? && |groups| <= 4 && |groups| + pads <= 4 && (pads > 0 ==> |groups| >= 2)
    ensures var r := Scan(f, s, groups, pads, mark);
            r.padded ==> |r.groups| >= 2 && Seen(groups, pads) + s == Seen(r.groups, 4 - |r.groups|) + r.rest
    decreases |s|
  {
    hide NextMove, Seen, DecodeTable;
    if |groups| < 4 && s != "" {
      StrictNeverSkips(f, s[0], |groups|, pads);
      match NextMove(f, s[0], |groups|, pads)
      case Stop =>
      case AddPad =>
        StrictScanTrace(f, s[1..], groups, pads + 1, if pads == 0 then s else mark);
        OnlyPad(s[0]);
        SeenPad(groups, pads, s);
      case AddGroup(v) =>
        StrictScanTrace(f, s[1..], groups + [v], 0, mark);
        TablesAgree(s[0], v);
        SeenGroup(groups, v, s);
    }
  }

  lemma StrictNeverSkips(f: Flags, c: char, n: nat, pads: nat)
    requires f.parse.DO_PARSE_STRICT?
    ensures NextMove(f, c, n, pads) != Skip
  {
  }

  lemma SplitBytes(a: Sextet, b: Sextet)
    ensures Byte0(a, b) / 4 == a && Byte0(a, b) % 4 == b / 16
    ensures Byte1(a, b) / 16 == a % 16 && Byte1(a, b) % 16 == b / 4
    ensures Byte2(a, b) / 64 == a % 4 && Byte2(a, b) % 64 == b
    ensures 0 <= Byte0(a, b) < 256 && 0 <= Byte1(a, b) < 256 && 0 <= Byte2(a, b) < 256
    ensures b / 16 * 16 + b % 16 == b && b / 4 * 4 + b % 4 == b
    ensures (Byte1(a, 0) == 0 <==> a % 16 == 0) && (Byte2(a, 0) == 0 <==> a % 4 == 0)
  {
  }

  /** Two to four groups without leftover bits are the groups of their bytes. */
  lemma GroupsAreEncoding(q: seq<Sextet>)
    requires 2 <= |q| <= 4 && LeftoverBits(q) == 0
    ensures var x := QuantumBytes(q);
            |x| == |q| - 1 && EncodeGroup(x) == Chars(q) + Pads(4 - |q|)
  {
    hide Byte0, Byte1, Byte2, EncodeTable;
    SplitBytes(q[0], q[1]);
    if |q| == 2 {
      SplitBytes(q[1], 0);
    } else {
      SplitBytes(q[1], q[2]);
      if |q| == 3 {
        SplitBytes(q[2], 0);
      } else {
        SplitBytes(q[2], q[3]);
      }
    }
  }

  /** Whatever a strict decoder accepts is the encoding of what it returns. */
  lemma {:induction false} StrictAcceptsOnlyEncodings(s: string)
    requires Decode(DO_STRICT, s).success
    ensures s == Encode(Decode(DO_STRICT, s).bytes)
    decreases |s|
  {
    hide Scan, QuantumBytes, LeftoverBits, EncodeGroup;
    if s != "" {
      var q := Scan(DO_STRICT, s, [], 0, s);
      StrictScanTrace(DO_STRICT, s, [], 0, s);
      ScanProgress(DO_STRICT, s, [], 0, s);
      FullIsPadded(DO_STRICT, s, [], 0, s);
      assert Seen([], 0) + s == s;
      FullHasNoLeftover(q.groups);
      GroupsAreEncoding(q.groups);
      var x := QuantumBytes(q.groups);
      if |q.groups| == 4 {
        StrictAcceptsOnlyEncodings(q.rest);
        var y := Decode(DO_STRICT, q.rest).bytes;
        assert (x + y)[..3] == x && (x + y)[3..] == y;
        EncodeConcat(x, y);
        assert Pads(0) == "";
      } else {
        assert q.rest == "";
        EncodeConcat(x, []);
      }
    }
  }

  lemma FullHasNoLeftover(q: seq<Sextet>)
    requires |q| <= 4
    ensures |q| == 4 ==> LeftoverBits(q) == 0
  {
  }

  lemma {:induction false} FullIsPadded(f: Flags, s: string, groups: seq<Sextet>, pads: nat, mark: string)
    requires |groups| <= 4 && (pads > 0 ==> |groups| < 4)
    ensures var r := Scan(f, s, groups, pads, mark); |r.groups| == 4 ==> r.padded
    decreases |s|
  {
    if |groups| < 4 && s != "" {
      hide NextMove;
      match NextMove(f, s[0], |groups|, pads)
      case Stop =>
      case Skip => FullIsPadded(f, s[1..], groups, pads, mark);
      case AddPad => FullIsPadded(f, s[1..], groups, pads + 1, if pads == 0 then s else mark);
      case AddGroup(v) => FullIsPadded(f, s[1..], groups + [v], 0, mark);
    }
  }

  lemma EncodeConcat(x: seq<Byte>, y: seq<Byte>)
    requires 1 <= |x| <= 3 && (|x| == 3 || y == [])
    ensures Encode(x + y) == EncodeGroup(x) + Encode(y)
  {
    hide EncodeGroup;
    if y == [] {
      assert x + y == x && EncodeGroup(x) + "" == EncodeGroup(x);
    } else {
      assert (x + y)[..3] == x && (x + y)[3..] == y;
    }
  }

  // ----- Every encoding is accepted

  function GroupsOf(x: seq<Byte>): (q: seq<Sextet>)
    requires 1 <= |x| <= 3
    ensures |q| == |x| + 1
  {
    var b1: Byte := if |x| > 1 then x[1] else 0;
    var b2: Byte := if |x| > 2 then x[2] else 0;
    [x[0] / 4, x[0] % 4 * 16 + b1 / 16] + (if |x| > 1 then [b1 % 16 * 4 + b2 / 64] else []) + (if |x| > 2 then [b2 % 64] else [])
  }

  lemma GroupsOfEncoding(x: seq<Byte>)
    requires 1 <= |x| <= 3
    ensures var q := GroupsOf(x);
            EncodeGroup(x) == Chars(q) + Pads(4 - |q|) && QuantumBytes(q) == x && LeftoverBits(q) == 0
  {
    hide EncodeTable, Byte0, Byte1, Byte2;
    var q := GroupsOf(x);
    JoinBytes(x[0], if |x| > 1 then x[1] else 0, if |x| > 2 then x[2] else 0);
  }

  lemma JoinBytes(x: Byte, y: Byte, z: Byte)
    ensures Byte0(x / 4, x % 4 * 16 + y / 16) == x
    ensures Byte1(x % 4 * 16 + y / 16, y % 16 * 4 + z / 64) == y
    ensures Byte2(y % 16 * 4 + z / 64, z % 64) == z
    ensures y == 0 ==> Byte1(x % 4 * 16 + y / 16, 0) == 0
    ensures z == 0 ==> Byte2(y % 16 * 4 + z / 64, 0) == 0
  {
    var a: int, b: int := x, y;
    assert a % 4 * 16 + b / 16 == (a % 4) * 16 + b / 16;
  }

  lemma {:induction false} ScanChars(f: Flags, q: seq<Sextet>, s: string, mark: string)
    requires |q| <= 4
    ensures Scan(f, Chars(q) + s, [], 0, mark) == Scan(f, s, q, 0, mark)
    decreases |q|
  {
    if q == [] {
      assert Chars(q) + s == s;
    } else {
      var n := |q| - 1;
      var t := [EncodeTable(q[n])] + s;
      assert Chars(q) + s == Chars(q[..n]) + t;
      ScanChars(f, q[..n], t, mark);
      TablesAgree(t[0], q[n]);
      assert t[1..] == s && q[..n] + [q[n]] == q;
    }
  }

  lemma ScanPads(f: Flags, q: seq<Sextet>, mark: string)
    requires 2 <= |q| < 4 && !f.pad.DO_PAD_NO?
    ensures Scan(f, Pads(4 - |q|), q, 0, mark) == Quantum(q, true, "")
  {
    var s := Pads(4 - |q|);
    assert s[1..] == Pads(3 - |q|);
    if |q| == 2 {
      assert s[1..][1..] == "";
      assert Scan(f, "", q, 2, s) == Quantum(q, true, "");
      assert Scan(f, s[1..], q, 1, s) == Scan(f, "", q, 2, s);
    } else {
      assert s[1..] == "";
    }
    assert Scan(f, s, q, 0, mark) == Scan(f, s[1..], q, 1, s);
  }

  lemma ScanGroup(f: Flags, x: seq<Byte>, s: string)
    requires 1 <= |x| <= 3 && (|x| == 3 || s == "") && !f.pad.DO_PAD_NO?
    ensures var t := EncodeGroup(x) + s;
            Scan(f, t, [], 0, t) == Quantum(GroupsOf(x), true, s)
  {
    hide GroupsOf, EncodeGroup;
    var q, t := GroupsOf(x), EncodeGroup(x) + s;
    GroupsOfEncoding(x);
    Associate(Chars(q), Pads(4 - |q|), s);
    ScanChars(f, q, Pads(4 - |q|) + s, t);
    if |x| == 3 {
      assert Pads(0) + s == s;
    } else {
      assert Pads(4 - |q|) + s == Pads(4 - |q|);
      ScanPads(f, q, t);
    }
  }

  /** Under every flag that allows pads, an encoding decodes to what was encoded, and is used up. */
  lemma {:induction false} EncodingsDecode(f: Flags, x: seq<Byte>)
    requires !f.pad.DO_PAD_NO?
    ensures Decode(f, Encode(x)) == Decoded(x, true, "")
    decreases |x|
  {
    hide Scan, QuantumBytes, LeftoverBits, EncodeGroup, GroupsOf;
    if x != [] {
      var n := if |x| <= 3 then |x| else 3;
      var first, rest := x[..n], x[n..];
      assert first + rest == x;
      EncodeConcat(first, rest);
      ScanGroup(f, first, Encode(rest));
      GroupsOfEncoding(first);
      EncodingsDecode(f, rest);
      assert Encode(x) != "";
    }
  }

  /** Strict decoding succeeds with x exactly on the encoding of x: it is total on encodings,
      injective, and refuses leftover bits and missing, extra or misplaced pads. */
  lemma StrictIffEncoding(s: string, x: seq<Byte>)
    ensures Decode(DO_STRICT, s).success && Decode(DO_STRICT, s).bytes == x <==> s == Encode(x)
  {
    EncodingsDecode(DO_STRICT, x);
    if Decode(DO_STRICT, s).success {
      StrictAcceptsOnlyEncodings(s);
    }
  }

  // ----- Lenient decoding ignores noise

  /** The characters that a scan passes over wherever they stand. */
  predicate Noise(f: Flags, c: char) {
    var code := DecodeTable(c);
    match f.parse
    case DO_PARSE_STRICT => false
    case DO_PARSE_WHITE => code == SP
    case DO_PARSE_ANY => code == SP || code == IL || (f.pad.DO_PAD_NO? && code == PD)
  }

  /** Noise is skipped, and nothing that stops a scan is noise. */
  lemma MoveOnNoise(f: Flags, c: char, n: nat, pads: nat)
    ensures Noise(f, c) ==> NextMove(f, c, n, pads) == Skip
    ensures NextMove(f, c, n, pads) == Stop ==> !Noise(f, c)
  {
  }

  lemma NoPadNoise(f: Flags, s: string)
    ensures s != "" && DecodeTable(s[0]) == PD && !f.pad.DO_PAD_NO? ==> !Noise(f, s[0])
  {
  }

  function Denoised(f: Flags, s: string): string {
    if s == "" then "" else (if Noise(f, s[0]) then "" else [s[0]]) + Denoised(f, s[1..])
  }

  function DenoisedQuantum(f: Flags, q: Quantum): Quantum {
    q.(rest := Denoised(f, q.rest))
  }

  /** A scan finds the same in the input without its noise. */
  lemma {:induction false} ScanIgnoresNoise(f: Flags, s: string, groups: seq<Sextet>, pads: nat, mark: string)
    requires |groups| <= 4
    ensures Scan(f, Denoised(f, s), groups, pads, Denoised(f, mark)) ==
            DenoisedQuantum(f, Scan(f, s, groups, pads, mark))
    decreases |s|
  {
    if |groups| < 4 && s != "" {
      var d := Denoised(f, s);
      MoveOnNoise(f, s[0], |groups|, pads);
      hide NextMove, Noise;
      if Noise(f, s[0]) {
        assert d == Denoised(f, s[1..]);
        ScanIgnoresNoise(f, s[1..], groups, pads, mark);
      } else {
        assert d[0] == s[0] && d[1..] == Denoised(f, s[1..]);
        match NextMove(f, s[0], |groups|, pads)
        case Stop =>
        case Skip => ScanIgnoresNoise(f, s[1..], groups, pads, mark);
        case AddPad => ScanIgnoresNoise(f, s[1..], groups, pads + 1, if pads == 0 then s else mark);
        case AddGroup(v) => ScanIgnoresNoise(f, s[1..], groups + [v], 0, mark);
      }
    }
  }

  /** A quantum that is not full stops at the end or in front of a character that is no noise. */
  lemma {:induction false} StopsAtSignal(f: Flags, s: string, groups: seq<Sextet>, pads: nat, mark: string)
    requires |groups| <= 4 && (pads > 0 ==> mark != "" && DecodeTable(mark[0]) == PD && !f.pad.DO_PAD_NO?)
    ensures var r := Scan(f, s, groups, pads, mark);
            |r.groups| < 4 ==> r.rest == "" || !Noise(f, r.rest[0])
    decreases |s|
  {
    if |groups| < 4 && s != "" {
      MoveOnNoise(f, s[0], |groups|, pads);
      hide NextMove, Noise;
      match NextMove(f, s[0], |groups|, pads)
      case Stop => NoPadNoise(f, mark);
      case Skip => StopsAtSignal(f, s[1..], groups, pads, mark);
      case AddPad => StopsAtSignal(f, s[1..], groups, pads + 1, if pads == 0 then s else mark);
      case AddGroup(v) => StopsAtSignal(f, s[1..], groups + [v], 0, mark);
    } else {
      NoPadNoise(f, mark);
    }
  }

  lemma DenoisedEmpty(f: Flags, s: string)
    requires s != "" && !Noise(f, s[0])
    ensures Denoised(f, s) != ""
  {
  }

  /** Noise after a full last quantum: it starts another quantum, which has no pads. */
  predicate TrailingNoise(f: Flags, s: string, bytes: nat) {
    s != "" && Noise(f, s[|s| - 1]) && bytes % 3 == 0
  }

  /** A full quantum ends right behind its fourth group. */
  lemma {:induction false} FullEndsAtGroup(f: Flags, s: string, groups: seq<Sextet>, pads: nat, mark: string) returns (n: nat)
    requires |groups| < 4 && (pads > 0 ==> f.pad != DO_PAD_NO)
    ensures var r := Scan(f, s, groups, pads, mark);
            |r.groups| == 4 ==> 0 < n <= |s| && r.rest == s[n..] && DecodeTable(s[n - 1]) < 64
    decreases |s|
  {
    n := 0;
    if s != "" {
      hide NextMove, DecodeTable;
      match NextMove(f, s[0], |groups|, pads)
      case Stop =>
      case Skip =>
        n := FullEndsAtGroup(f, s[1..], groups, pads, mark);
        n := n + 1;
      case AddPad =>
        n := FullEndsAtGroup(f, s[1..], groups, pads + 1, if pads == 0 then s else mark);
        n := n + 1;
      case AddGroup(v) =>
        if |groups| < 3 {
          n := FullEndsAtGroup(f, s[1..], groups + [v], 0, mark);
        }
        n := n + 1;
    }
  }

  lemma {:induction false} PaddedHasTwo(f: Flags, s: string, groups: seq<Sextet>, pads: nat, mark: string)
    requires |groups| <= 4 && (pads > 0 ==> 2 <= |groups|) && |groups| + pads <= 4
    ensures var r := Scan(f, s, groups, pads, mark); r.padded ==> |r.groups| >= 2
    decreases |s|
  {
    if |groups| < 4 && s != "" {
      hide NextMove;
      match NextMove(f, s[0], |groups|, pads)
      case Stop =>
      case Skip => PaddedHasTwo(f, s[1..], groups, pads, mark);
      case AddPad => PaddedHasTwo(f, s[1..], groups, pads + 1, if pads == 0 then s else mark);
      case AddGroup(v) => PaddedHasTwo(f, s[1..], groups + [v], 0, mark);
    }
  }

  lemma {:induction false} AllNoise(f: Flags, s: string)
    requires Denoised(f, s) == "" && s != ""
    ensures Noise(f, s[|s| - 1])
  {
    if |s| > 1 {
      AllNoise(f, s[1..]);
    }
  }

  ghost predicate SameButForNoise(f: Flags, s: string, a: Decoded, b: Decoded) {
    && a.bytes == b.bytes && b.rest == Denoised(f, a.rest) && (a.rest == "" <==> b.rest == "")
    && (a.success <==> b.success && !(f.pad.DO_PAD_YES? && TrailingNoise(f, s, |b.bytes|)))
  }

  lemma PartialIgnoresNoise(f: Flags, s: string)
    requires s != "" && |Scan(f, s, [], 0, s).groups| < 4
    ensures SameButForNoise(f, s, DecodeQuanta(f, s), DecodeQuanta(f, Denoised(f, s)))
  {
    hide Scan, Noise, LeftoverBits, DecodeQuanta, QuantumBytes, Denoised;
    var d, q := Denoised(f, s), Scan(f, s, [], 0, s);
    DenoisedNothing(f);
    ScanIgnoresNoise(f, s, [], 0, s);
    StopsAtSignal(f, s, [], 0, s);
    PaddedHasTwo(f, s, [], 0, s);
    if q.rest != "" {
      DenoisedEmpty(f, q.rest);
    }
    DecodePartial(f, s);
    BytesOfGroups(q.groups);
    if d == "" {
      AllNoise(f, s);
      ScanNothing(f);
    } else {
      DecodePartial(f, d);
    }
  }

  lemma DenoisedNothing(f: Flags)
    ensures Denoised(f, "") == ""
  {
  }

  lemma DecodePartial(f: Flags, s: string)
    requires s != "" && |Scan(f, s, [], 0, s).groups| < 4
    ensures var q := Scan(f, s, [], 0, s);
            DecodeQuanta(f, s) == Decoded(QuantumBytes(q.groups), QuantumOk(f, q), q.rest)
  {
    hide Scan, QuantumBytes, QuantumOk;
  }

  lemma BytesOfGroups(q: seq<Sextet>)
    requires |q| <= 4
    ensures |QuantumBytes(q)| == if q == [] then 0 else |q| - 1
  {
  }

  lemma ScanNothing(f: Flags)
    ensures Scan(f, "", [], 0, "") == Quantum([], false, "") && LeftoverBits([]) == 0
    ensures DecodeQuanta(f, "") == Decoded([], true, "")
  {
  }

  lemma {:induction false} QuantaIgnoreNoise(f: Flags, s: string)
    ensures SameButForNoise(f, s, DecodeQuanta(f, s), DecodeQuanta(f, Denoised(f, s)))
    decreases |s|
  {
    hide Scan, QuantumBytes, LeftoverBits, Noise, QuantumOk;
    if s != "" {
      var q := Scan(f, s, [], 0, s);
      if |q.groups| < 4 {
        PartialIgnoresNoise(f, s);
      } else {
        var n := FullEndsAtGroup(f, s, [], 0, s);
        GroupIsSignal(f, s[n - 1]);
        ScanIgnoresNoise(f, s, [], 0, s);
        QuantaIgnoreNoise(f, q.rest);
        if Denoised(f, s) == "" {
          ScanNothing(f);
        }
        assert |QuantumBytes(q.groups)| == 3 by {
          FullHasThreeBytes(q.groups);
        }
      }
    }
  }

  lemma GroupIsSignal(f: Flags, c: char)
    requires DecodeTable(c) < 64
    ensures !Noise(f, c)
  {
  }

  lemma FullHasThreeBytes(q: seq<Sextet>)
    requires |q| == 4
    ensures |QuantumBytes(q)| == 3
  {
  }

  /** Under every flag, noise changes neither the bytes nor whether the input is used up; and it
      changes the success only in one case: where pads are required, noise behind a last quantum
      that is full makes the decoder fail. */
  lemma NoiseIsIgnored(f: Flags, s: string)
    ensures var a, b := Decode(f, s), Decode(f, Denoised(f, s));
            && a.bytes == b.bytes && (a.rest == "" <==> b.rest == "")
            && (a.success <==> b.success && !(f.pad.DO_PAD_YES? && TrailingNoise(f, s, |b.bytes|)))
  {
    QuantaIgnoreNoise(f, s);
  }

  // Where the last quantum is full, as the text shows it.

  ghost predicate NoNoise(f: Flags, s: string) {
    forall c :: c in s ==> !Noise(f, c)
  }

  lemma {:induction false} DenoisedHasNone(f: Flags, s: string)
    ensures NoNoise(f, Denoised(f, s))
  {
    hide Noise;
    if s != "" {
      DenoisedHasNone(f, s[1..]);
    }
  }

  lemma SkipsOnlyPads(f: Flags, c: char, n: nat, pads: nat)
    requires !f.pad.DO_PAD_NO? && !Noise(f, c)
    ensures NextMove(f, c, n, pads) == Skip || NextMove(f, c, n, pads) == AddPad ==> DecodeTable(c) == PD
  {
  }

  /** If a padded quantum is all there is, the text ends in a pad. */
  lemma {:induction false} PaddedEndsInPad(f: Flags, s: string, groups: seq<Sextet>, pads: nat, mark: string)
    requires !f.pad.DO_PAD_NO? && NoNoise(f, s) && |groups| < 4
    requires var r := Scan(f, s, groups, pads, mark); r.padded && |r.groups| < 4 && r.rest == ""
    ensures if s == "" then |groups| + pads == 4 else DecodeTable(s[|s| - 1]) == PD
    decreases |s|
  {
    hide NextMove, Noise, DecodeTable;
    if s != "" {
      assert s[0] in s && forall c :: c in s[1..] ==> c in s;
      SkipsOnlyPads(f, s[0], |groups|, pads);
      match NextMove(f, s[0], |groups|, pads)
      case Stop =>
      case Skip => PaddedEndsInPad(f, s[1..], groups, pads, mark);
      case AddPad => PaddedEndsInPad(f, s[1..], groups, pads + 1, if pads == 0 then s else mark);
      case AddGroup(v) =>
        if |groups| < 3 {
          PaddedEndsInPad(f, s[1..], groups + [v], 0, mark);
        }
    }
  }

  lemma {:induction false} FullUnlessPadded(f: Flags, s: string)
    requires f.pad.DO_PAD_YES? && NoNoise(f, s)
    requires DecodeQuanta(f, s).success && DecodeQuanta(f, s).rest == ""
    ensures |DecodeQuanta(f, s).bytes| % 3 == 0 <==> s == "" || DecodeTable(s[|s| - 1]) != PD
    decreases |s|
  {
    hide Scan, QuantumBytes, LeftoverBits, Noise, DecodeTable;
    if s != "" {
      var q := Scan(f, s, [], 0, s);
      BytesOfGroups(q.groups);
      if |q.groups| < 4 {
        PaddedHasTwo(f, s, [], 0, s);
        PaddedEndsInPad(f, s, [], 0, s);
      } else {
        var n := FullEndsAtGroup(f, s, [], 0, s);
        assert forall c :: c in q.rest ==> c in s;
        FullUnlessPadded(f, q.rest);
      }
    }
  }

  /** Noise at the end of a text that does not end in a pad otherwise. */
  predicate EndsInNoise(f: Flags, s: string) {
    var d := Denoised(f, s);
    s != "" && Noise(f, s[|s| - 1]) && (d == "" || DecodeTable(d[|d| - 1]) != PD)
  }

  /** When the whole buffer has to be used up, the text itself tells where noise does harm. */
  lemma NoiseInBuffer(f: Flags, s: string)
    requires f.term.DO_TERM_BUFFER?
    ensures Decode(f, s).success <==> Decode(f, Denoised(f, s)).success && !(f.pad.DO_PAD_YES? && EndsInNoise(f, s))
  {
    hide DecodeQuanta, Noise, Denoised, DecodeTable;
    var d := Denoised(f, s);
    NoiseIsIgnored(f, s);
    DenoisedHasNone(f, s);
    if f.pad.DO_PAD_YES? && Decode(f, d).success {
      FullUnlessPadded(f, d);
    }
  }

  /** An encoding with noise put in anywhere decodes to what was encoded, and is used up, if pads
      are optional; if they are required, exactly if no noise follows a full last quantum. */
  lemma NoisyEncodingsDecode(f: Flags, s: string, x: seq<Byte>)
    requires !f.pad.DO_PAD_NO? && Denoised(f, s) == Encode(x)
    ensures Decode(f, s).bytes == x && Decode(f, s).rest == ""
    ensures Decode(f, s).success <==> f.pad.DO_PAD_ANY? || !TrailingNoise(f, s, |x|)
  {
    EncodingsDecode(f, x);
    NoiseIsIgnored(f, s);
  }

  /** The smallest input on which required pads and permitted white space do not go together. */
  lemma TrailingSpaceFails()
    ensures Decode(Flags(DO_PARSE_WHITE, DO_PAD_YES, DO_TERM_BUFFER), "AAAA").success
    ensures !Decode(Flags(DO_PARSE_WHITE, DO_PAD_YES, DO_TERM_BUFFER), "AAAA ").success
  {
    var f := Flags(DO_PARSE_WHITE, DO_PAD_YES, DO_TERM_BUFFER);
    var x: seq<Byte> := [0, 0, 0];
    assert Encode(x) == "AAAA";
    EncodingsDecode(f, x);
    var s := "AAAA ";
    NoiseFree(f, "AAAA");
    DenoisedLast(f, "AAAA", ' ');
    assert "AAAA" + [' '] == s;
    NoisyEncodingsDecode(f, s, x);
  }

  lemma {:induction false} NoiseFree(f: Flags, s: string)
    requires forall i :: 0 <= i < |s| ==> !Noise(f, s[i])
    ensures Denoised(f, s) == s
  {
    if s != "" {
      NoiseFree(f, s[1..]);
    }
  }

  lemma {:induction false} DenoisedLast(f: Flags, s: string, c: char)
    requires Noise(f, c)
    ensures Denoised(f, s + [c]) == Denoised(f, s)
  {
    if s == "" {
      assert Denoised(f, [c]) == "" + Denoised(f, [c][1..]);
    } else {
      assert (s + [c])[1..] == s[1..] + [c];
      DenoisedLast(f, s[1..], c);
    }
  }
}
