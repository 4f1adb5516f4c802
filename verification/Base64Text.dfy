/** What the Base64 decoder returns for a text, read off the text.  The groups of bits are those of
    section 4 of RFC 4648, and the alphabet is its table 1; the decoder's scan is not mentioned. */
module Base64Text {

  import opened ByteOrders
  import opened Base64

  const UPPER := "ABCDEFGHIJKLMNOPQRSTUVWXYZ"
  const LOWER := "abcdefghijklmnopqrstuvwxyz"
  const DIGITS := "0123456789"
  const ALPHABET := UPPER + LOWER + DIGITS + "+/"

  /** The two tables are the standard alphabet, the pad and white space. */
  lemma TablesAreStandard(v: Sextet, c: char)
    ensures |ALPHABET| == 64 && EncodeTable(v) == ALPHABET[v]
    ensures DecodeTable(c) < 64 <==> c in ALPHABET
    ensures DecodeTable(c) < 64 ==> ALPHABET[DecodeTable(c)] == c
    ensures DecodeTable(c) == 0xFD <==> c == '='
    ensures DecodeTable(c) == 0xFE <==> c == ' ' || 9 <= c as int <= 13
    ensures DecodeTable(c) in {0xFD, 0xFE, 0xFF} || c in ALPHABET
  {
    AlphabetIs(v);
    if DecodeTable(c) < 64 {
      AlphabetIs(DecodeTable(c));
      TablesAgree(c, DecodeTable(c));
    }
    if c in ALPHABET {
      var i :| 0 <= i < 64 && ALPHABET[i] == c;
      AlphabetIs(i);
      TablesAgree(c, i);
    }
  }

  lemma UpperIs(v: nat)
    ensures |UPPER| == 26 && (v < 26 ==> UPPER[v] as int == 'A' as int + v)
  {
  }

  lemma LowerIs(v: nat)
    ensures |LOWER| == 26 && (v < 26 ==> LOWER[v] as int == 'a' as int + v)
  {
  }

  lemma DigitsAre(v: nat)
    ensures |DIGITS| == 10 && (v < 10 ==> DIGITS[v] as int == '0' as int + v)
  {
  }

  lemma AlphabetIs(v: Sextet)
    ensures |ALPHABET| == 64 && EncodeTable(v) == ALPHABET[v]
  {
    UpperIs(v);
    LowerIs(if v < 26 then 0 else v - 26);
    DigitsAre(if v < 52 then 0 else v - 52);
    hide UPPER, LOWER, DIGITS;
    assert ALPHABET[v] == if v < 26 then UPPER[v] else if v < 52 then LOWER[v - 26]
                          else if v < 62 then DIGITS[v - 52] else "+/"[v - 62];
  }

  // ----- Bits

  /** The lowest n bits of v, the highest of them first. */
  function Bits(v: nat, n: nat): (b: seq<int>)
    ensures |b| == n
  {
    if n == 0 then [] else Bits(v / 2, n - 1) + [v % 2]
  }

  /** The bits of a sequence of n-bit groups. */
  function AllBits(s: seq<nat>, n: nat): (b: seq<int>)
    ensures |b| == n * |s|
  {
    if s == [] then [] else Bits(s[0], n) + AllBits(s[1..], n)
  }

  predicate AllZero(b: seq<int>) {
    forall i :: 0 <= i < |b| ==> b[i] == 0
  }

  function Two(n: nat): (p: nat)
    ensures p > 0
  {
    if n == 0 then 1 else 2 * Two(n - 1)
  }

  /** Bits put side by side. */
  lemma {:induction false} BitsSide(a: nat, b: nat, n: nat, m: nat)
    requires b < Two(m)
    ensures Bits(a * Two(m) + b, n + m) == Bits(a, n) + Bits(b, m)
    decreases m
  {
    if m == 0 {
      assert Bits(b, 0) == [];
    } else {
      var h := a * Two(m - 1);
      assert a * Two(m) == 2 * h;
      assert (2 * h + b) / 2 == h + b / 2 && (2 * h + b) % 2 == b % 2;
      BitsSide(a, b / 2, n, m - 1);
      assert Bits(a, n) + Bits(b / 2, m - 1) + [b % 2] == Bits(a, n) + (Bits(b / 2, m - 1) + [b % 2]);
    }
  }

  lemma {:induction false} ZeroBits(v: nat, n: nat)
    requires v < Two(n)
    ensures AllZero(Bits(v, n)) <==> v == 0
  {
    if n > 0 {
      ZeroBits(v / 2, n - 1);
      var b := Bits(v / 2, n - 1);
      assert Bits(v, n) == b + [v % 2];
      if AllZero(b + [v % 2]) {
        assert forall i :: 0 <= i < |b| ==> b[i] == (b + [v % 2])[i];
        assert (b + [v % 2])[|b|] == v % 2;
      }
    }
  }

  lemma PowersOfTwo()
    ensures Two(2) == 4 && Two(4) == 16 && Two(6) == 64 && Two(8) == 256
  {
    assert Two(3) == 8 && Two(5) == 32 && Two(7) == 128;
  }

  /** The bits of two adjacent groups on both sides of a byte boundary. */
  lemma CutBits(a: Sextet, b: Sextet)
    ensures Bits(Byte0(a, b), 8) == Bits(a, 6) + Bits(b / 16, 2) && Bits(b, 6) == Bits(b / 16, 2) + Bits(b % 16, 4)
    ensures Bits(Byte1(a, b), 8) == Bits(a % 16, 4) + Bits(b / 4, 4) && Bits(b, 6) == Bits(b / 4, 4) + Bits(b % 4, 2)
    ensures Bits(Byte2(a, b), 8) == Bits(a % 4, 2) + Bits(b, 6)
  {
    hide Bits;
    PowersOfTwo();
    BitsSide(a, b / 16, 6, 2);
    BitsSide(b / 16, b % 16, 2, 4);
    BitsSide(a % 16, b / 4, 4, 4);
    BitsSide(b / 4, b % 4, 4, 2);
    BitsSide(a % 4, b, 2, 6);
  }

  lemma {:induction false} AllBitsJoin(s: seq<nat>, t: seq<nat>, n: nat)
    ensures AllBits(s + t, n) == AllBits(s, n) + AllBits(t, n)
  {
    hide Bits;
    if s == [] {
      assert s + t == t;
    } else {
      assert (s + t)[1..] == s[1..] + t;
      AllBitsJoin(s[1..], t, n);
    }
  }

  lemma BitsOfOne(v: nat, n: nat)
    ensures AllBits([v], n) == Bits(v, n)
  {
    hide Bits;
    assert AllBits([v][1..], n) == [];
    assert Bits(v, n) + [] == Bits(v, n);
  }

  lemma BitsOfTwo(v: nat, w: nat, n: nat)
    ensures AllBits([v, w], n) == Bits(v, n) + Bits(w, n)
  {
    hide Bits;
    BitsOfOne(v, n);
    BitsOfOne(w, n);
    AllBitsJoin([v], [w], n);
    assert [v] + [w] == [v, w];
  }

  lemma BitsOfThree(v: nat, w: nat, x: nat, n: nat)
    ensures AllBits([v, w, x], n) == Bits(v, n) + Bits(w, n) + Bits(x, n)
  {
    hide Bits;
    BitsOfTwo(v, w, n);
    BitsOfOne(x, n);
    AllBitsJoin([v, w], [x], n);
    assert [v, w] + [x] == [v, w, x];
  }

  /** The bits of a quantum that fill no byte: a group of them, or the end of the last group. */
  function Unused(q: seq<Sextet>): seq<int>
    requires |q| <= 4
  {
    if |q| == 1 then Bits(q[0], 6)
    else if |q| == 2 then Bits(q[1] % 16, 4)
    else if |q| == 3 then Bits(q[2] % 4, 2)
    else []
  }

  lemma QuantumBits(q: seq<Sextet>)
    requires |q| <= 4
    ensures AllBits(q, 6) == AllBits(QuantumBytes(q), 8) + Unused(q)
  {
    hide Bits, QuantumBytes, AllBits;
    if |q| <= 1 {
      FewGroups(q);
    } else if |q| == 2 {
      TwoGroups(q[0], q[1]);
      assert q == [q[0], q[1]];
    } else if |q| == 3 {
      ThreeGroups(q[0], q[1], q[2]);
      assert q == [q[0], q[1], q[2]];
    } else {
      FourGroups(q[0], q[1], q[2], q[3]);
      assert q == [q[0], q[1], q[2], q[3]];
    }
  }

  lemma FewGroups(q: seq<Sextet>)
    requires |q| <= 1
    ensures AllBits(q, 6) == AllBits(QuantumBytes(q), 8) + Unused(q)
  {
    hide Bits;
    if q != [] {
      BitsOfOne(q[0], 6);
      assert q == [q[0]];
    }
  }

  lemma TwoGroups(a: Sextet, b: Sextet)
    ensures AllBits([a, b], 6) == AllBits(QuantumBytes([a, b]), 8) + Bits(b % 16, 4)
  {
    hide Bits, Byte0, Byte1, Byte2;
    SplitBytes(a, b);
    CutBits(a, b);
    BitsOfTwo(a, b, 6);
    BitsOfOne(Byte0(a, b), 8);
    assert QuantumBytes([a, b]) == [Byte0(a, b)];
  }

  lemma ThreeGroups(a: Sextet, b: Sextet, c: Sextet)
    ensures AllBits([a, b, c], 6) == AllBits(QuantumBytes([a, b, c]), 8) + Bits(c % 4, 2)
  {
    hide Bits, Byte0, Byte1, Byte2;
    SplitBytes(a, b);
    SplitBytes(b, c);
    CutBits(a, b);
    CutBits(b, c);
    BitsOfThree(a, b, c, 6);
    BitsOfTwo(Byte0(a, b), Byte1(b, c), 8);
    assert QuantumBytes([a, b, c]) == [Byte0(a, b), Byte1(b, c)];
  }

  lemma FourGroups(a: Sextet, b: Sextet, c: Sextet, d: Sextet)
    ensures AllBits([a, b, c, d], 6) == AllBits(QuantumBytes([a, b, c, d]), 8)
  {
    hide Bits, Byte0, Byte1, Byte2;
    SplitBytes(a, b);
    SplitBytes(b, c);
    SplitBytes(c, d);
    CutBits(a, b);
    CutBits(b, c);
    CutBits(c, d);
    BitsOfTwo(a, b, 6);
    BitsOfTwo(c, d, 6);
    AllBitsJoin([a, b], [c, d], 6);
    assert [a, b] + [c, d] == [a, b, c, d];
    BitsOfThree(Byte0(a, b), Byte1(b, c), Byte2(c, d), 8);
    assert QuantumBytes([a, b, c, d]) == [Byte0(a, b), Byte1(b, c), Byte2(c, d)];
  }

  lemma UnusedMeans(q: seq<Sextet>)
    requires |q| <= 4
    ensures LeftoverBits(q) == 0 <==> AllZero(Unused(q))
  {
    hide Bits;
    PowersOfTwo();
    if 1 <= |q| <= 3 {
      var v := q[|q| - 1];
      SplitBytes(v, 0);
      ZeroBits(v, 6);
      ZeroBits(v % 16, 4);
      ZeroBits(v % 4, 2);
    }
  }

  // ----- Encoding

  /** The characters of groups. */
  function Spelling(q: seq<Sextet>): (s: string)
    ensures |s| == |q|
  {
    seq(|q|, i requires 0 <= i < |q| => ALPHABET[q[i]])
  }

  lemma SpellingIs(q: seq<Sextet>)
    ensures Spelling(q) == Chars(q)
  {
    hide UPPER, LOWER, DIGITS, EncodeTable;
    AlphabetIs(0);
    forall i | 0 <= i < |q| ensures EncodeTable(q[i]) == ALPHABET[q[i]] {
      AlphabetIs(q[i]);
    }
  }

  lemma SpellingJoin(q: seq<Sextet>, r: seq<Sextet>)
    ensures Spelling(q + r) == Spelling(q) + Spelling(r)
  {
    hide ALPHABET;
  }

  /** Groups whose bits are those of the bytes, filled up with zeros to whole groups. */
  ghost predicate SameBits(q: seq<Sextet>, x: seq<Byte>) {
    && 8 * |x| <= |AllBits(q, 6)| < 8 * |x| + 6
    && AllBits(q, 6)[..8 * |x|] == AllBits(x, 8) && AllZero(AllBits(q, 6)[8 * |x|..])
  }

  lemma SameBitsOfOne(x: seq<Byte>)
    requires 1 <= |x| <= 3
    ensures SameBits(GroupsOf(x), x)
  {
    hide GroupsOf, QuantumBytes, LeftoverBits, AllBits, Unused;
    var g := GroupsOf(x);
    GroupsOfEncoding(x);
    QuantumBits(g);
    UnusedMeans(g);
    assert AllBits(g, 6)[..8 * |x|] == AllBits(x, 8) && AllBits(g, 6)[8 * |x|..] == Unused(g);
  }

  lemma SameBitsJoin(g: seq<Sextet>, x: seq<Byte>, q: seq<Sextet>, y: seq<Byte>)
    requires SameBits(g, x) && SameBits(q, y) && |x| == 3
    ensures SameBits(g + q, x + y)
  {
    hide AllBits;
    assert |AllBits(g, 6)| == 24;
    AllBitsJoin(g, q, 6);
    AllBitsJoin(x, y, 8);
    var n := 8 * |x + y|;
    assert AllBits(g + q, 6)[n..] == AllBits(q, 6)[8 * |y|..];
    assert AllBits(g + q, 6)[..n] == AllBits(x, 8) + AllBits(q, 6)[..8 * |y|];
  }

  /** An encoding spells the bits of the bytes, filled up with zeros to whole groups, and is filled
      up with pads to a multiple of four. */
  lemma {:induction false} EncodingIs(x: seq<Byte>) returns (q: seq<Sextet>)
    ensures Encode(x) == Spelling(q) + Pads(if |x| % 3 == 0 then 0 else 3 - |x| % 3)
    ensures SameBits(q, x)
    decreases |x|
  {
    hide Encode, EncodeGroup, GroupsOf, SameBits, Spelling, Pads;
    EmptyEncoding();
    if x == [] {
      q := [];
    } else {
      var n := if |x| <= 3 then |x| else 3;
      var first, rest := x[..n], x[n..];
      assert first + rest == x;
      SameBitsOfOne(first);
      EncodeConcat(first, rest);
      EncodeOne(first);
      q := GroupsOf(first);
      if rest == [] {
        assert first == x;
      } else {
        var r := EncodingIs(rest);
        SameBitsJoin(q, first, r, rest);
        SpellingJoin(q, r);
        Associate(Spelling(q), Spelling(r), Pads(if |x| % 3 == 0 then 0 else 3 - |x| % 3));
        q := q + r;
      }
    }
  }

  lemma EncodeOne(x: seq<Byte>)
    requires 1 <= |x| <= 3
    ensures EncodeGroup(x) + "" == EncodeGroup(x) == Spelling(GroupsOf(x)) + Pads(3 - |x|)
    ensures |x| == 3 ==> EncodeGroup(x) == Spelling(GroupsOf(x))
  {
    hide EncodeGroup, GroupsOf, Spelling;
    GroupsOfEncoding(x);
    SpellingIs(GroupsOf(x));
  }

  lemma EmptyEncoding()
    ensures Encode([]) == "" && Spelling([]) == "" && Pads(0) == "" && SameBits([], [])
  {
  }

  lemma UnusedLength(q: seq<Sextet>)
    requires |q| <= 4
    ensures |q| == 4 ==> Unused(q) == []
  {
  }

  // ----- Decoding

  /** What decoding returns when it reads the groups q, `padded` or not, and leaves `rest`.  `whole`
      says that the text ends with a full quantum. */
  ghost predicate Reads(f: Flags, d: Decoded, q: seq<Sextet>, whole: bool, padded: bool, rest: string) {
    var n := |q| * 3 / 4;
    && d.rest == rest && |d.bytes| == n && 8 * n <= |AllBits(q, 6)|
    && AllBits(d.bytes, 8) == AllBits(q, 6)[..8 * n]
    && (d.success <==> whole || (&& (f.pad.DO_PAD_YES? ==> padded)
                                 && (f.term.DO_TERM_ANY? || AllZero(AllBits(q, 6)[8 * n..]))
                                 && (f.term.DO_TERM_BUFFER? ==> rest == "")))
  }

  lemma ReadsMore(f: Flags, s: string, q: seq<Sextet>, whole: bool, padded: bool, rest: string)
    requires s != ""
    requires var g := Scan(f, s, [], 0, s); |g.groups| == 4 && Reads(f, Decode(f, g.rest), q, whole, padded, rest)
    ensures Reads(f, Decode(f, s), Scan(f, s, [], 0, s).groups + q, whole, padded, rest)
  {
    hide Scan, AllBits, QuantumBytes;
    var g, d := Scan(f, s, [], 0, s), Decode(f, s);
    BytesOfGroups(g.groups);
    assert d.bytes == QuantumBytes(g.groups) + Decode(f, g.rest).bytes;
    BitsMore(g.groups, q, Decode(f, g.rest).bytes);
  }

  lemma BitsMore(g: seq<Sextet>, q: seq<Sextet>, x: seq<Byte>)
    requires |g| == 4 && |x| == |q| * 3 / 4 && 8 * |x| <= |AllBits(q, 6)|
    ensures |QuantumBytes(g)| == 3
    ensures AllBits(g + q, 6) == AllBits(QuantumBytes(g), 8) + AllBits(q, 6)
    ensures AllBits(QuantumBytes(g) + x, 8) == AllBits(QuantumBytes(g), 8) + AllBits(x, 8)
    ensures var n := 8 * |x|;
            AllBits(g + q, 6)[n + 24..] == AllBits(q, 6)[n..] &&
            AllBits(g + q, 6)[..n + 24] == AllBits(QuantumBytes(g), 8) + AllBits(q, 6)[..n]
  {
    hide AllBits, QuantumBytes, Unused;
    QuantumBits(g);
    UnusedLength(g);
    BytesOfGroups(g);
    AllBitsJoin(g, q, 6);
    AllBitsJoin(QuantumBytes(g), x, 8);
  }

  lemma ReadsLast(f: Flags, s: string)
    requires s != "" && |Scan(f, s, [], 0, s).groups| < 4
    ensures var q := Scan(f, s, [], 0, s); Reads(f, Decode(f, s), q.groups, false, q.padded, q.rest)
  {
    hide Scan, AllBits, QuantumBytes, Unused, LeftoverBits;
    var q := Scan(f, s, [], 0, s).groups;
    QuantumBits(q);
    UnusedMeans(q);
    BytesOfGroups(q);
    assert AllBits(q, 6)[8 * |QuantumBytes(q)|..] == Unused(q);
  }

  lemma ReadsNothing(f: Flags)
    ensures Reads(f, Decode(f, ""), [], true, false, "")
  {
  }

  /** No white space in a text that a decoder would skip it in. */
  ghost predicate Dense(f: Flags, t: string) {
    f.parse.DO_PARSE_WHITE? ==> forall c :: c in t ==> c != ' ' && !(9 <= c as int <= 13)
  }

  /** What a decoder that does not skip makes of a character that is no group, or that follows a pad. */
  lemma MoveIs(f: Flags, t: string, n: nat, pads: nat)
    requires !f.parse.DO_PARSE_ANY? && Dense(f, t) && t != "" && (pads > 0 || t[0] !in ALPHABET)
    ensures NextMove(f, t[0], n, pads) ==
            if t[0] == '=' && !f.pad.DO_PAD_NO? && 2 <= n && n + pads < 4 then AddPad else Stop
  {
    TablesAreStandard(0, t[0]);
    hide ALPHABET, DecodeTable;
    assert t[0] in t;
  }

  lemma PadsAhead(t: string, n: nat)
    ensures Pads(n + 1) <= t <==> t != "" && t[0] == '=' && Pads(n) <= t[1..]
  {
    if Pads(n + 1) <= t {
      assert Pads(n + 1)[0] == '=' && forall i :: 0 <= i < n ==> t[1..][i] == t[i + 1] == Pads(n + 1)[i + 1];
    }
  }

  /** The pads of a partial quantum count only if there are enough of them. */
  lemma {:induction false} ScanRest(f: Flags, t: string, q: seq<Sextet>, pads: nat, mark: string)
    requires !f.parse.DO_PARSE_ANY? && Dense(f, t) && |q| + pads <= 4 && |q| < 4
    requires if pads == 0 then t == "" || t[0] !in ALPHABET else 2 <= |q| && !f.pad.DO_PAD_NO?
    ensures var n := 4 - |q| - pads;
            var padded := 2 <= |q| && !f.pad.DO_PAD_NO? && Pads(n) <= t;
            Scan(f, t, q, pads, mark) ==
            Quantum(q, padded, if padded then t[n..] else if pads == 0 then t else mark)
    decreases |t|
  {
    hide Scan, Finish, NextMove, Dense, ALPHABET, Pads;
    ScanStep(f, t, q, pads, mark);
    FinishMeans(t, q, pads, mark);
    var n := 4 - |q| - pads;
    if t != "" {
      MoveIs(f, t, |q|, pads);
    }
    if n == 0 {
      assert Pads(0) == "";
    } else {
      PadsAhead(t, n - 1);
      if t != "" && NextMove(f, t[0], |q|, pads) == AddPad {
        DenseTail(f, t);
        ScanRest(f, t[1..], q, pads + 1, if pads == 0 then t else mark);
      }
    }
  }

  lemma DenseTail(f: Flags, t: string)
    requires Dense(f, t) && t != ""
    ensures Dense(f, t[1..])
  {
    assert forall c :: c in t[1..] ==> c in t;
  }

  /** A text of a decoder that skips nothing: groups, then something that starts with no group. */
  lemma {:induction false} DecodeIs(f: Flags, q: seq<Sextet>, t: string)
    requires !f.parse.DO_PARSE_ANY? && (t == "" || t[0] !in ALPHABET) && Dense(f, t)
    ensures var n := |q| % 4;
            var padded := 2 <= n && !f.pad.DO_PAD_NO? && Pads(4 - n) <= t;
            Reads(f, Decode(f, Spelling(q) + t), q, n == 0 && t == "", padded, if padded then t[4 - n..] else t)
    decreases |q|
  {
    hide Scan, Decode, Reads, Spelling, ALPHABET;
    var s := Spelling(q) + t;
    if |q| >= 4 {
      var g, r := q[..4], q[4..];
      var n := |q| % 4;
      var padded := 2 <= n && !f.pad.DO_PAD_NO? && Pads(4 - n) <= t;
      assert g + r == q;
      SpellingJoin(g, r);
      SpellingIs(g);
      Associate(Chars(g), Spelling(r), t);
      ScanChars(f, g, Spelling(r) + t, s);
      ScanStep(f, Spelling(r) + t, g, 0, s);
      DecodeIs(f, r, t);
      ReadsMore(f, s, r, n == 0 && t == "", padded, if padded then t[4 - n..] else t);
    } else if s == "" {
      ReadsNothing(f);
    } else {
      SpellingIs(q);
      ScanChars(f, q, t, s);
      ScanRest(f, t, q, 0, s);
      ReadsLast(f, s);
    }
  }

  /** The characters of the alphabet in a text. */
  function Kept(s: string): string {
    if s == "" then "" else (if s[0] in ALPHABET then [s[0]] else "") + Kept(s[1..])
  }

  /** The text from its first pad on. */
  function FromPad(t: string): string {
    if t == "" || t[0] == '=' then t else FromPad(t[1..])
  }

  lemma MoveAny(f: Flags, c: char, n: nat, pads: nat)
    requires f.parse.DO_PARSE_ANY?
    ensures c in ALPHABET ==> DecodeTable(c) < 64 && NextMove(f, c, n, pads) == AddGroup(DecodeTable(c))
    ensures c !in ALPHABET ==> NextMove(f, c, n, pads) ==
                               if c == '=' && !f.pad.DO_PAD_NO? && 2 <= n && n + pads < 4 then AddPad else Skip
  {
    TablesAreStandard(0, c);
    hide ALPHABET, DecodeTable;
  }

  lemma {:induction false} LetterIsKept(m: string)
    requires m != "" && m[|m| - 1] in ALPHABET
    ensures Kept(m) != ""
  {
    hide ALPHABET;
    if m[0] !in ALPHABET {
      LetterIsKept(m[1..]);
    }
  }

  lemma SpellingHead(q: seq<Sextet>, s: string)
    requires s != "" && Spelling(q) == s
    ensures q != [] && s[0] in ALPHABET && DecodeTable(s[0]) == q[0] && Spelling(q[1..]) == s[1..]
  {
    hide UPPER, LOWER, DIGITS, DecodeTable;
    AlphabetIs(q[0]);
    TablesAgree(s[0], q[0]);
  }

  /** A scan that skips everything else collects the letters, whatever pads it saw among them. */
  lemma {:induction false} ScanLetters(f: Flags, m: string, t: string, q: seq<Sextet>, groups: seq<Sextet>, pads: nat, mark: string)
    returns (last: string)
    requires f.parse.DO_PARSE_ANY? && m != "" && m[|m| - 1] in ALPHABET && Kept(m) == Spelling(q)
    requires |groups| + |q| <= 4
    ensures Scan(f, m + t, groups, pads, mark) == Scan(f, t, groups + q, 0, last)
    decreases |m|
  {
    hide Scan, NextMove, ALPHABET, Spelling, DecodeTable;
    LetterIsKept(m);
    SpellingHead(q, Kept(m));
    MoveAny(f, m[0], |groups|, pads);
    ScanStep(f, m + t, groups, pads, mark);
    assert (m + t)[0] == m[0] && (m + t)[1..] == m[1..] + t;
    if m[0] in ALPHABET {
      assert Kept(m)[1..] == Kept(m[1..]);
      if |m| == 1 {
        SpellingEmpty(q[1..]);
        assert m[1..] + t == t && q == [q[0]];
        return mark;
      }
      last := ScanLetters(f, m[1..], t, q[1..], groups + [q[0]], 0, mark);
      assert groups + [q[0]] + q[1..] == groups + q;
    } else {
      assert Kept(m) == Kept(m[1..]);
      match NextMove(f, m[0], |groups|, pads)
      case Skip => last := ScanLetters(f, m[1..], t, q, groups, pads, mark);
      case AddPad => last := ScanLetters(f, m[1..], t, q, groups, pads + 1, if pads == 0 then m + t else mark);
    }
  }

  lemma SpellingEmpty(q: seq<Sextet>)
    requires Spelling(q) == ""
    ensures q == []
  {
  }

  /** The number of pads in a text, for a decoder that allows them. */
  function PadsIn(f: Flags, t: string): nat {
    if f.pad.DO_PAD_NO? then 0 else multiset(t)['=']
  }

  lemma PadsInStep(f: Flags, t: string)
    requires t != ""
    ensures PadsIn(f, t) == PadsIn(f, t[1..]) + if t[0] == '=' && !f.pad.DO_PAD_NO? then 1 else 0
  {
    assert t == [t[0]] + t[1..];
  }

  lemma {:induction false} ScanTail(f: Flags, t: string, q: seq<Sextet>, pads: nat, mark: string)
    requires f.parse.DO_PARSE_ANY? && |q| < 4 && |q| + pads <= 4 && (forall c :: c in t ==> c !in ALPHABET)
    requires pads > 0 ==> 2 <= |q| && !f.pad.DO_PAD_NO?
    ensures var p := pads + PadsIn(f, t);
            var padded := 2 <= |q| && p >= 4 - |q|;
            Scan(f, t, q, pads, mark) ==
            Quantum(q, padded, if padded || |q| < 2 || p == 0 then "" else if pads > 0 then mark else FromPad(t))
    decreases |t|
  {
    hide Scan, NextMove, ALPHABET;
    ScanStep(f, t, q, pads, mark);
    if t != "" {
      PadsInStep(f, t);
      assert t[0] in t && forall c :: c in t[1..] ==> c in t;
      MoveAny(f, t[0], |q|, pads);
      match NextMove(f, t[0], |q|, pads)
      case Skip => ScanTail(f, t[1..], q, pads, mark);
      case AddPad => ScanTail(f, t[1..], q, pads + 1, if pads == 0 then t else mark);
    }
  }

  lemma SpellingOne(v: Sextet, c: char)
    requires c in ALPHABET && DecodeTable(c) == v
    ensures Spelling([v]) == [c] && Spelling([]) == ""
  {
    hide UPPER, LOWER, DIGITS, DecodeTable;
    TablesAgree(c, v);
    AlphabetIs(v);
  }

  lemma {:induction false} CutLetters(m: string, q: seq<Sextet>, k: nat) returns (j: nat)
    requires Kept(m) == Spelling(q) && 0 < k <= |q|
    ensures 0 < j <= |m| && m[j - 1] in ALPHABET
    ensures Kept(m[..j]) == Spelling(q[..k]) && Kept(m[j..]) == Spelling(q[k..])
    decreases |m|
  {
    hide ALPHABET, Spelling, DecodeTable;
    SpellingHead(q, Kept(m));
    if m[0] !in ALPHABET {
      j := CutLetters(m[1..], q, k);
      j := j + 1;
      assert m[..j][1..] == m[1..][..j - 1];
    } else {
      assert Kept(m)[1..] == Kept(m[1..]);
      SpellingJoin([q[0]], q[1..k]);
      SpellingOne(q[0], m[0]);
      assert [q[0]] + q[1..k] == q[..k];
      if k == 1 {
        j := 1;
        assert m[..1][1..] == "";
      } else {
        j := CutLetters(m[1..], q[1..], k - 1);
        j := j + 1;
        assert m[..j][1..] == m[1..][..j - 1] && q[1..][..k - 1] == q[1..k];
      }
    }
  }

  lemma AnyTakes(f: Flags, q: seq<Sextet>, m: string, t: string) returns (j: nat)
    requires f.parse.DO_PARSE_ANY? && |q| >= 4 && Kept(m) == Spelling(q) && (m != "" ==> m[|m| - 1] in ALPHABET)
    ensures j <= |m| && m != "" && Scan(f, m + t, [], 0, m + t) == Quantum(q[..4], true, m[j..] + t)
    ensures Kept(m[j..]) == Spelling(q[4..]) && (m[j..] != "" ==> m[j..][|m[j..]| - 1] in ALPHABET)
  {
    hide Scan, NextMove, Spelling, ALPHABET;
    j := CutLetters(m, q, 4);
    assert m[..j] + (m[j..] + t) == m + t && [] + q[..4] == q[..4];
    var last := ScanLetters(f, m[..j], m[j..] + t, q[..4], [], 0, m + t);
    ScanStep(f, m[j..] + t, q[..4], 0, last);
  }

  /** A text of a decoder that skips everything that it does not know: m up to the last letter, and
      the rest, in which only the pads matter. */
  lemma {:induction false} DecodeAnyIs(f: Flags, q: seq<Sextet>, m: string, t: string)
    requires f.parse.DO_PARSE_ANY? && Kept(m) == Spelling(q) && (m != "" ==> m[|m| - 1] in ALPHABET)
    requires forall c :: c in t ==> c !in ALPHABET
    ensures var n, p := |q| % 4, PadsIn(f, t);
            Reads(f, Decode(f, m + t), q, n == 0 && t == "", 2 <= n && p >= 4 - n,
                  if n == 2 && p == 1 then FromPad(t) else "")
    decreases |q|
  {
    hide *;
    if |q| >= 4 {
      var n, p := |q| % 4, PadsIn(f, t);
      var j := AnyTakes(f, q, m, t);
      var g, r := q[..4], q[4..];
      assert g + r == q;
      DecodeAnyIs(f, r, m[j..], t);
      ReadsMore(f, m + t, r, n == 0 && t == "", 2 <= n && p >= 4 - n, if n == 2 && p == 1 then FromPad(t) else "");
    } else {
      DecodeAnyFew(f, q, m, t);
    }
  }

  lemma DecodeAnyFew(f: Flags, q: seq<Sextet>, m: string, t: string)
    requires f.parse.DO_PARSE_ANY? && Kept(m) == Spelling(q) && (m != "" ==> m[|m| - 1] in ALPHABET)
    requires |q| < 4 && forall c :: c in t ==> c !in ALPHABET
    ensures var n, p := |q|, PadsIn(f, t);
            Reads(f, Decode(f, m + t), q, n == 0 && t == "", 2 <= n && p >= 4 - n,
                  if n == 2 && p == 1 then FromPad(t) else "")
  {
    hide Scan, Decode, Reads, Spelling, ALPHABET, PadsIn, FromPad, QuantumOk;
    var s := m + t;
    if s == "" {
      SpellingEmpty(q);
      ReadsNothing(f);
    } else {
      if m == "" {
        SpellingEmpty(q);
        assert s == t;
        ScanTail(f, t, [], 0, s);
      } else {
        LetterIsKept(m);
        var last := ScanLetters(f, m, t, q, [], 0, s);
        assert [] + q == q;
        ScanTail(f, t, q, 0, last);
      }
      ReadsLast(f, s);
    }
  }

  /** The characters that a decoder passes over wherever they stand. */
  lemma NoiseIs(f: Flags, c: char)
    ensures f.parse.DO_PARSE_STRICT? ==> !Noise(f, c)
    ensures f.parse.DO_PARSE_WHITE? ==> (Noise(f, c) <==> c == ' ' || 9 <= c as int <= 13)
    ensures f.parse.DO_PARSE_ANY? ==> (Noise(f, c) <==> c !in ALPHABET && (c == '=' ==> f.pad.DO_PAD_NO?))
  {
    TablesAreStandard(0, c);
    hide ALPHABET, DecodeTable;
  }

  // ----- Texts without pads

  lemma {:induction false} BitsDiffer(v: nat, w: nat, n: nat)
    requires v < Two(n) && w < Two(n) && Bits(v, n) == Bits(w, n)
    ensures v == w
  {
    if n > 0 {
      var b, c := Bits(v / 2, n - 1), Bits(w / 2, n - 1);
      assert b == Bits(v, n)[..n - 1] == Bits(w, n)[..n - 1] == c;
      assert v % 2 == Bits(v, n)[n - 1] == Bits(w, n)[n - 1] == w % 2;
      BitsDiffer(v / 2, w / 2, n - 1);
    }
  }

  lemma {:induction false} BytesDiffer(x: seq<Byte>, y: seq<Byte>)
    requires |x| == |y| && AllBits(x, 8) == AllBits(y, 8)
    ensures x == y
  {
    if x != [] {
      hide Bits;
      PowersOfTwo();
      assert Bits(x[0], 8) == AllBits(x, 8)[..8] == AllBits(y, 8)[..8] == Bits(y[0], 8);
      BitsDiffer(x[0], y[0], 8);
      assert AllBits(x[1..], 8) == AllBits(x, 8)[8..] == AllBits(y, 8)[8..] == AllBits(y[1..], 8);
      BytesDiffer(x[1..], y[1..]);
    }
  }

  lemma {:induction false} SpellingIsKept(q: seq<Sextet>)
    ensures Kept(Spelling(q)) == Spelling(q) && forall c :: c in Spelling(q) ==> c in ALPHABET
  {
    hide UPPER, LOWER, DIGITS;
    AlphabetIs(0);
    if q != [] {
      var s := Spelling(q);
      assert s[1..] == Spelling(q[1..]) && s == [s[0]] + s[1..];
      SpellingIsKept(q[1..]);
      assert s[0] == ALPHABET[q[0]];
    }
  }

  /** The characters of any groups are read as these groups, under every flag. */
  lemma SpellingReads(f: Flags, q: seq<Sextet>)
    ensures Reads(f, Decode(f, Spelling(q)), q, |q| % 4 == 0, false, "")
  {
    hide Decode, Reads, Spelling, Scan, ALPHABET;
    var s := Spelling(q);
    assert s + "" == s;
    if f.parse.DO_PARSE_ANY? {
      SpellingIsKept(q);
      assert s != "" ==> s[|s| - 1] in s;
      DecodeAnyIs(f, q, s, "");
    } else {
      DecodeIs(f, q, "");
      assert |q| % 4 < 4 && (|q| % 4 != 0 ==> |Pads(4 - |q| % 4)| > 0);
    }
  }

  /** An encoding without its pads decodes to what was encoded, and is used up; under every flag
      that does not require pads with success, and under the others exactly if it has none. */
  lemma UnpaddedDecodes(f: Flags, x: seq<Byte>)
    ensures var pads := if |x| % 3 == 0 then 0 else 3 - |x| % 3;
            |Encode(x)| >= pads
            && Decode(f, Encode(x)[..|Encode(x)| - pads]) == Decoded(x, !f.pad.DO_PAD_YES? || |x| % 3 == 0, "")
  {
    hide Encode, Decode, Reads, AllBits, Spelling;
    var pads := if |x| % 3 == 0 then 0 else 3 - |x| % 3;
    var q := EncodingIs(x);
    assert Encode(x)[..|Encode(x)| - pads] == Spelling(q);
    SpellingReads(f, q);
    ReadsSame(f, Decode(f, Spelling(q)), q, x);
  }

  lemma ReadsSame(f: Flags, d: Decoded, q: seq<Sextet>, x: seq<Byte>)
    requires Reads(f, d, q, |q| % 4 == 0, false, "") && SameBits(q, x)
    ensures d == Decoded(x, !f.pad.DO_PAD_YES? || |x| % 3 == 0, "")
  {
    GroupCount(|q|, |x|);
    hide AllBits;
    BytesDiffer(d.bytes, x);
  }

  lemma GroupCount(n: nat, k: nat)
    requires 8 * k <= 6 * n < 8 * k + 6
    ensures n * 3 / 4 == k && (n % 4 == 0 <==> k % 3 == 0)
  {
    var a, b := k / 3, k % 3;
    assert k == 3 * a + b && n == 4 * a + (if b == 0 then 0 else b + 1);
  }

  /** One to three groups alone: which bytes they make, and when the decoder accepts them. */
  lemma FewGroupsDecode(f: Flags, q: seq<Sextet>)
    requires 1 <= |q| <= 3
    ensures var d := Decode(f, Spelling(q));
            && d.rest == ""
            && |d.bytes| == |q| - 1
            && (|q| >= 2 ==> d.bytes[0] as int == q[0] as int * 4 + q[1] as int / 16)
            && (|q| == 3 ==> d.bytes[1] as int == q[1] as int % 16 * 16 + q[2] as int / 4)
            && (d.success <==> !f.pad.DO_PAD_YES? && (f.term.DO_TERM_ANY? ||
                               (if |q| == 1 then q[0] == 0 else if |q| == 2 then q[1] % 16 == 0 else q[2] % 4 == 0)))
  {
    hide Scan;
    var s := Spelling(q);
    SpellingIs(q);
    assert s + "" == s;
    ScanChars(f, q, "", s);
    ScanStep(f, "", q, 0, s);
    DecodePartial(f, s);
    SplitBytes(q[|q| - 1], 0);
  }
}
