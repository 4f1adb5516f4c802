/** Bytes, and the byte orders of webrtc/base/byteorder.h. */
module ByteOrders {
  import opened Arithmetic

  type Byte = b: int | 0 <= b < 256

  function Pow256(k: nat): (p: nat)
    ensures p > 0
  {
    if k == 0 then 1 else 256 * Pow256(k - 1)
  }

  /** SetBE* and SetLE*: the low k bytes of a number. */
  function SetBE(v: nat, k: nat): (s: seq<Byte>)
    ensures |s| == k
  {
    if k == 0 then [] else SetBE(v / 256, k - 1) + [v % 256]
  }

  function SetLE(v: nat, k: nat): (s: seq<Byte>)
    ensures |s| == k
  {
    if k == 0 then [] else [v % 256] + SetLE(v / 256, k - 1)
  }

  function GetBE(s: seq<Byte>): nat {
    if s == [] then 0 else
    var low: int := s[|s| - 1];
    256 * GetBE(s[..|s| - 1]) + low
  }

  function GetLE(s: seq<Byte>): nat {
    if s == [] then 0 else
    var low: int := s[0];
    256 * GetLE(s[1..]) + low
  }

  lemma LowBytes(v: nat, p: nat)
    requires p > 0
    ensures 256 * (v / 256 % p) + v % 256 == v % (256 * p)
  {
    var w := v / 256;
    var q, r := w / p, w % p;
    assert w == q * p + r && v == 256 * w + v % 256;
    assert 256 * (q * p) == q * (256 * p);
    QuotientUnique(v, 256 * p, q, 256 * r + v % 256);
  }

  /** Both orders give back the number, cut off to the width. */
  lemma {:induction false} BERoundTrip(v: nat, k: nat)
    ensures GetBE(SetBE(v, k)) == v % Pow256(k)
  {
    if k > 0 {
      BERoundTrip(v / 256, k - 1);
      assert SetBE(v, k)[..k - 1] == SetBE(v / 256, k - 1);
      LowBytes(v, Pow256(k - 1));
    }
  }

  lemma {:induction false} LERoundTrip(v: nat, k: nat)
    ensures GetLE(SetLE(v, k)) == v % Pow256(k)
  {
    if k > 0 {
      LERoundTrip(v / 256, k - 1);
      assert SetLE(v, k)[1..] == SetLE(v / 256, k - 1);
      LowBytes(v, Pow256(k - 1));
    }
  }

  /** The two orders are mirror images. */
  lemma {:induction false} OrdersMirror(v: nat, k: nat, i: nat)
    requires i < k
    ensures SetBE(v, k)[i] == SetLE(v, k)[k - 1 - i]
  {
    if i < k - 1 {
      OrdersMirror(v / 256, k - 1, i);
    }
  }

  /** Which byte stands where: the highest of the k bytes comes first. */
  lemma {:induction false} SetBEByte(v: nat, k: nat, i: nat)
    requires i < k
    ensures SetBE(v, k)[i] as int == v / Pow256(k - 1 - i) % 256
    decreases k
  {
    if i < k - 1 {
      SetBEByte(v / 256, k - 1, i);
      QuotientOfQuotient(v, 256, Pow256(k - 2 - i));
    }
  }

  lemma SetLEByte(v: nat, k: nat, i: nat)
    requires i < k
    ensures SetLE(v, k)[i] as int == v / Pow256(i) % 256
  {
    OrdersMirror(v, k, k - 1 - i);
    SetBEByte(v, k, k - 1 - i);
  }

  /** And so for reading. */
  lemma GetBEByte(s: seq<Byte>, i: nat)
    requires i < |s|
    ensures s[i] as int == GetBE(s) / Pow256(|s| - 1 - i) % 256 && GetBE(s) < Pow256(|s|)
  {
    hide GetBE, SetBE, Pow256;
    BytesRoundTripBE(s);
    BERoundTrip(GetBE(s), |s|);
    SetBEByte(GetBE(s), |s|, i);
  }

  lemma GetLEByte(s: seq<Byte>, i: nat)
    requires i < |s|
    ensures s[i] as int == GetLE(s) / Pow256(i) % 256 && GetLE(s) < Pow256(|s|)
  {
    hide GetLE, SetLE, Pow256;
    BytesRoundTripLE(s);
    LERoundTrip(GetLE(s), |s|);
    SetLEByte(GetLE(s), |s|, i);
  }

  lemma {:induction false} LowBytesBE(v: nat, k: nat)
    requires k > 0
    ensures SetBE(v, k)[1..] == SetBE(v, k - 1)
  {
    if k > 1 {
      LowBytesBE(v / 256, k - 1);
      assert SetBE(v, k)[1..] == SetBE(v / 256, k - 1)[1..] + [v % 256];
    }
  }

  lemma {:induction false} LowBytesLE(v: nat, k: nat)
    requires k > 0
    ensures SetLE(v, k)[..k - 1] == SetLE(v, k - 1)
  {
    if k > 1 {
      LowBytesLE(v / 256, k - 1);
      assert SetLE(v, k)[..k - 1] == [v % 256] + SetLE(v / 256, k - 1)[..k - 2];
    }
  }

  /** The bytes of a k-byte variable of the host, and the variable with given bytes. */
  function HostBytes(bigEndianHost: bool, v: nat, k: nat): (s: seq<Byte>)
    ensures |s| == k
  {
    if bigEndianHost then SetBE(v, k) else SetLE(v, k)
  }

  function FromHostBytes(bigEndianHost: bool, s: seq<Byte>): nat {
    if bigEndianHost then GetBE(s) else GetLE(s)
  }

  function HostToNetwork(bigEndianHost: bool, v: nat, k: nat): nat {
    FromHostBytes(bigEndianHost, SetBE(v, k))
  }

  function NetworkToHost(bigEndianHost: bool, v: nat, k: nat): nat {
    GetBE(HostBytes(bigEndianHost, v, k))
  }

  lemma LowByte(n: nat, b: Byte)
    ensures var low: int := b; (256 * n + low) / 256 == n && (256 * n + low) % 256 == low
  {
  }

  lemma {:induction false} BytesRoundTripBE(s: seq<Byte>)
    ensures SetBE(GetBE(s), |s|) == s
  {
    if s != [] {
      BytesRoundTripBE(s[..|s| - 1]);
      LowByte(GetBE(s[..|s| - 1]), s[|s| - 1]);
      assert s == s[..|s| - 1] + [s[|s| - 1]];
    }
  }

  lemma {:induction false} BytesRoundTripLE(s: seq<Byte>)
    ensures SetLE(GetLE(s), |s|) == s
  {
    if s != [] {
      BytesRoundTripLE(s[1..]);
      LowByte(GetLE(s[1..]), s[0]);
      assert s == [s[0]] + s[1..];
    }
  }

  /** The variable HostToNetwork* returns has the bytes of the number in network order. */
  lemma NetworkImage(bigEndianHost: bool, v: nat, k: nat)
    ensures HostBytes(bigEndianHost, HostToNetwork(bigEndianHost, v, k), k) == SetBE(v, k)
  {
    BytesRoundTripBE(SetBE(v, k));
    BytesRoundTripLE(SetBE(v, k));
  }
}
