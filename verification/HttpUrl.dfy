/** Printing and parsing of URLs: the class Url of webrtc/base/httpcommon-inl.h. */
module HttpUrls {
  import opened HttpParsing

  type Port = n: int | 0 <= n < 0x1_0000

  const HTTP_DEFAULT_PORT: Port := 80
  const HTTP_SECURE_PORT: Port := 443

  function HttpDefaultPort(secure: bool): Port {
    if secure then HTTP_SECURE_PORT else HTTP_DEFAULT_PORT
  }

  datatype UrlParts = UrlParts(secure: bool, host: string, port: Port, path: string, query: string)

  const CLEARED := UrlParts(false, "", HTTP_DEFAULT_PORT, "/", "")

  // ----- Numbers

  predicate IsDigit(c: char) {
    '0' <= c <= '9'
  }

  function DigitPrefix(s: string): (i: nat)
    ensures i <= |s|
    ensures forall j :: 0 <= j < i ==> IsDigit(s[j])
    ensures i < |s| ==> !IsDigit(s[i])
  {
    if s == "" || !IsDigit(s[0]) then 0 else 1 + DigitPrefix(s[1..])
  }

  function DecimalValue(s: string): nat
    requires forall j :: 0 <= j < |s| ==> IsDigit(s[j])
  {
    if s == "" then 0
    else
      assert IsDigit(s[|s| - 1]);
      10 * DecimalValue(s[..|s| - 1]) + (s[|s| - 1] as int - '0' as int)
  }

  /** The value of strtoul(s, NULL, 10). */
  function StrToUL10(s: string): SizeT {
    var i := SpacePrefix(s);
    var signed := i < |s| && (s[i] == '-' || s[i] == '+');
    var t := if signed then s[i + 1..] else s[i..];
    var v := DecimalValue(t[..DigitPrefix(t)]);
    if v >= ULONG_MODULUS then ULONG_MODULUS - 1
    else if signed && s[i] == '-' then (ULONG_MODULUS - v) % ULONG_MODULUS
    else v
  }

  /** "%hu" */
  function Decimal(n: nat): (s: string)
    ensures s != "" && forall j :: 0 <= j < |s| ==> IsDigit(s[j])
  {
    (if n < 10 then "" else Decimal(n / 10)) + [('0' as int + n % 10) as char]
  }

  lemma {:induction false} DecimalRoundTrip(n: nat)
    ensures DecimalValue(Decimal(n)) == n
  {
    var s := Decimal(n);
    assert s[..|s| - 1] == if n < 10 then "" else Decimal(n / 10);
    if n >= 10 {
      DecimalRoundTrip(n / 10);
    }
  }

  lemma {:induction false} DigitsThen(a: string, b: string)
    requires forall j :: 0 <= j < |a| ==> IsDigit(a[j])
    requires b == "" || !IsDigit(b[0])
    ensures DigitPrefix(a + b) == |a|
  {
    if a == "" {
      assert a + b == b;
    } else {
      assert (a + b)[1..] == a[1..] + b;
      DigitsThen(a[1..], b);
    }
  }

  lemma PortReadsBack(port: Port, s: string)
    requires s == "" || !IsDigit(s[0])
    ensures StrToUL10(Decimal(port) + s) == port
  {
    hide Decimal, DecimalValue, DigitPrefix;
    var d := Decimal(port);
    var t := d + s;
    assert IsDigit(d[0]) && t[0] == d[0] && SpacePrefix(t) == 0 && t[0..] == t;
    DigitsThen(d, s);
    DecimalRoundTrip(port);
    assert t[..|d|] == d;
  }

  // ----- Parsing and printing

  /** do_set_address.  `behind` is what follows the address in memory, where strtoul reads on. */
  function ParseAddress(u: UrlParts, address: string, behind: string): UrlParts {
    var at := IndexOf(address, '@');
    var a := if at < |address| then address[at + 1..] else address;
    var colon := IndexOf(a, ':');
    if colon < |a| then u.(host := a[..colon], port := StrToUL10(a[colon + 1..] + behind) % 0x1_0000)
    else u.(host := a, port := HttpDefaultPort(u.secure))
  }

  /** do_set_full_path */
  function ParseFullPath(u: UrlParts, s: string): UrlParts {
    var q := IndexOf(s, '?');
    u.(path := if q == 0 then "/" else s[..q], query := s[q..])
  }

  function ParseRest(u: UrlParts, s: string): UrlParts {
    var k := IndexOf(s, '/');
    ParseFullPath(ParseAddress(u, s[..k], s[k..]), s[k..])
  }

  /** do_set_url */
  function Parse(u: UrlParts, s: string): UrlParts {
    if |s| >= 7 && EqualIgnoringCase(s[..7], "http://") then ParseRest(u.(secure := false), s[7..])
    else if |s| >= 8 && EqualIgnoringCase(s[..8], "https://") then ParseRest(u.(secure := true), s[8..])
    else CLEARED
  }

  function PortText(u: UrlParts): string {
    if u.port == HttpDefaultPort(u.secure) then "" else ":" + Decimal(u.port)
  }

  function Print(u: UrlParts): string {
    (if u.secure then "https://" else "http://") + u.host + PortText(u) + u.path + u.query
  }

  class Url {
    var host_: string
    var path_: string
    var query_: string
    var port_: Port
    var secure_: bool

    function Parts(): UrlParts
      reads this
    {
      UrlParts(secure_, host_, port_, path_, query_)
    }

    constructor (url: string)
      ensures exists u :: Parts() == Parse(u, url)
    {
      host_, path_, query_, port_, secure_ := "", "/", "", HTTP_DEFAULT_PORT, false;
      new;
      ghost var before := Parts();
      DoSetUrl(url);
      assert Parts() == Parse(before, url);
    }

    method DoSetUrl(url: string)
      modifies this
      ensures Parts() == Parse(old(Parts()), url)
    {
      var val := url;
      if |val| >= 7 && EqualIgnoringCase(val[..7], "http://") {
        val := val[7..];
        secure_ := false;
      } else if |val| >= 8 && EqualIgnoringCase(val[..8], "https://") {
        val := val[8..];
        secure_ := true;
      } else {
        host_, port_, secure_, path_, query_ := "", HTTP_DEFAULT_PORT, false, "/", "";
        return;
      }
      var slash := FindChar(val, '/');
      DoSetAddress(val[..slash], val[slash..]);
      DoSetFullPath(val[slash..]);
    }

    method DoSetAddress(address: string, behind: string)
      modifies this`host_, this`port_
      ensures Parts() == ParseAddress(old(Parts()), address, behind)
    {
      hide StrToUL10, IndexOf;
      var val := address;
      var at := FindChar(val, '@');
      if at < |val| {
        val := val[at + 1..];
      }
      var colon := FindChar(val, ':');
      host_ := val[..colon];
      if colon < |val| {
        port_ := StrToUL10(val[colon + 1..] + behind) % 0x1_0000;
      } else {
        assert val[..colon] == val;
        port_ := HttpDefaultPort(secure_);
      }
    }

    method DoSetFullPath(val: string)
      modifies this`path_, this`query_
      ensures Parts() == ParseFullPath(old(Parts()), val)
    {
      var mark := FindChar(val, '?');
      path_ := if mark == 0 then "/" else val[..mark];
      query_ := val[mark..];
    }

    method DoGetUrl() returns (val: string)
      ensures val == Print(Parts())
    {
      val := if secure_ then "https://" else "http://";
      val := val + host_;
      if port_ != HttpDefaultPort(secure_) {
        val := val + (":" + Decimal(port_));
      }
      val := val + path_;
      val := val + query_;
    }
  }

  /** strchrn, with the length for "none". */
  method FindChar(s: string, c: char) returns (i: nat)
    ensures i == IndexOf(s, c)
  {
    i := 0;
    while i < |s| && s[i] != c
      invariant i <= |s| && forall j :: 0 <= j < i ==> s[j] != c
    {
      i := i + 1;
    }
    IndexOfUnique(s, c, i);
  }

  // ----- Round trip

  /** The components that survive: a host without '@', ':' and '/', a path that starts with '/' and
      has no '?', and a query that is empty or starts with '?'. */
  predicate Printable(u: UrlParts) {
    && '@' !in u.host && ':' !in u.host && '/' !in u.host
    && u.path != "" && u.path[0] == '/' && '?' !in u.path
    && (u.query != "" ==> u.query[0] == '?')
  }

  lemma SchemeReads(u: UrlParts, before: UrlParts)
    ensures Parse(before, Print(u)) ==
            ParseRest(before.(secure := u.secure), u.host + PortText(u) + u.path + u.query)
  {
    hide ParseRest, PortText;
    var rest := u.host + PortText(u) + u.path + u.query;
    if u.secure {
      var s := "https://" + rest;
      assert Print(u) == s && s[..8] == "https://" && s[8..] == rest;
      assert s[..7][4] == 's' && "http://"[4] == ':';
    } else {
      var s := "http://" + rest;
      assert Print(u) == s && s[..7] == "http://" && s[7..] == rest;
    }
  }

  lemma PortTextPlain(u: UrlParts, c: char)
    requires c == '@' || c == '/'
    ensures c !in PortText(u)
  {
  }

  /** The address and the path are told apart. */
  lemma RestSplits(u: UrlParts)
    requires '/' !in u.host && u.path != "" && u.path[0] == '/'
    ensures var s := u.host + PortText(u) + u.path + u.query;
            var k := IndexOf(s, '/');
            s[..k] == u.host + PortText(u) && s[k..] == u.path + u.query
  {
    hide PortText;
    var s, address := u.host + PortText(u) + u.path + u.query, u.host + PortText(u);
    PortTextPlain(u, '/');
    assert s == address + (u.path + u.query);
    IndexOfUnique(s, '/', |address|);
  }

  lemma AddressReads(u: UrlParts, v: UrlParts, behind: string)
    requires '@' !in u.host && ':' !in u.host && v.secure == u.secure
    requires behind == "" || !IsDigit(behind[0])
    ensures ParseAddress(v, u.host + PortText(u), behind) == v.(host := u.host, port := u.port)
  {
    hide StrToUL10, Decimal, IndexOf;
    var address := u.host + PortText(u);
    PortTextPlain(u, '@');
    IndexOfUnique(address, '@', |address|);
    IndexOfUnique(address, ':', |u.host|);
    assert address[..|u.host|] == u.host;
    if PortText(u) != "" {
      assert address[|u.host| + 1..] == Decimal(u.port);
      PortReadsBack(u.port, behind);
    }
  }

  lemma FullPathReads(u: UrlParts, v: UrlParts)
    requires u.path != "" && '?' !in u.path && (u.query != "" ==> u.query[0] == '?')
    ensures ParseFullPath(v, u.path + u.query) == v.(path := u.path, query := u.query)
  {
    var s := u.path + u.query;
    IndexOfUnique(s, '?', |u.path|);
    assert s[..|u.path|] == u.path && s[|u.path|..] == u.query;
  }

  /** What any address gives as a host. */
  lemma HostOf(v: UrlParts, address: string, behind: string)
    requires '/' !in address
    ensures ':' !in ParseAddress(v, address, behind).host && '/' !in ParseAddress(v, address, behind).host
  {
    hide StrToUL10;
  }

  /** A host with an '@' comes back shorter. */
  lemma HostCut(u: UrlParts, v: UrlParts, behind: string)
    requires '@' in u.host && ':' !in u.host
    ensures ParseAddress(v, u.host + PortText(u), behind).host != u.host
  {
    hide StrToUL10, Decimal;
    var address := u.host + PortText(u);
    var at := IndexOf(address, '@');
    assert at < |u.host| by {
      var i :| 0 <= i < |u.host| && u.host[i] == '@';
      assert address[i] == '@';
    }
    var a := address[at + 1..];
    assert PortText(u) != "" ==> a[|u.host| - at - 1] == ':';
  }

  /** Parsing a printed URL gives back its components exactly if they are printable. */
  lemma RoundTrip(u: UrlParts, before: UrlParts)
    ensures Parse(before, Print(u)) == u <==> Printable(u)
  {
    hide StrToUL10, Decimal, Print, PortText, ParseAddress;
    SchemeReads(u, before);
    var s := u.host + PortText(u) + u.path + u.query;
    var k := IndexOf(s, '/');
    var v := before.(secure := u.secure);
    HostOf(v, s[..k], s[k..]);
    if Printable(u) {
      RestSplits(u);
      AddressReads(u, v, u.path + u.query);
      FullPathReads(u, v.(host := u.host, port := u.port));
    } else if Parse(before, Print(u)) == u {
      RestSplits(u);
      HostCut(u, v, s[k..]);
    }
  }

  // ----- Any URL

  function Ten(k: nat): nat {
    if k == 0 then 1 else 10 * Ten(k - 1)
  }

  predicate AllDigits(s: string) {
    forall i :: 0 <= i < |s| ==> IsDigit(s[i])
  }

  /** The number that digits write: each counts for its place. */
  function Number(s: string): nat
    requires AllDigits(s)
  {
    if s == "" then 0 else (s[0] as int - 48) * Ten(|s| - 1) + Number(s[1..])
  }

  lemma {:induction false} NumberIs(s: string)
    requires AllDigits(s)
    ensures DecimalValue(s) == Number(s)
    decreases |s|
  {
    if |s| == 1 {
      assert s[..0] == "" && s[1..] == "";
    } else if s != "" {
      var n := |s| - 1;
      NumberIs(s[..n]);
      NumberIs(s[1..]);
      NumberIs(s[1..n]);
      assert s[..n][1..] == s[1..n] && s[1..][..n - 1] == s[1..n];
      TenTimes(s[0] as int - 48, Ten(n - 1));
    }
  }

  lemma TenTimes(d: nat, p: nat)
    ensures d * (10 * p) == 10 * (d * p)
  {
  }

  /** The parts of a URL as a user may write it; credentials, port, path and query may be missing. */
  datatype UrlText = UrlText(scheme: string, user: Option<string>, host: string, port: Option<string>, path: string, query: string) {
    predicate Proper() {
      && (EqualIgnoringCase(scheme, "http://") || EqualIgnoringCase(scheme, "https://"))
      && (user.Some? ==> '@' !in user.value && '/' !in user.value)
      && '@' !in host && ':' !in host && '/' !in host
      && (port.Some? ==> port.value != "" && AllDigits(port.value) && Number(port.value) < 0x1_0000)
      && (path == "" ==> query == "") && (path != "" ==> path[0] == '/') && '?' !in path
      && (query != "" ==> query[0] == '?')
    }

    function Address(): string {
      (if user.Some? then user.value + "@" else "") + Server()
    }

    function Server(): string {
      host + (if port.Some? then ":" + port.value else "")
    }

    function Text(): string {
      scheme + (Address() + (path + query))
    }
  }

  lemma SchemeIs(x: UrlText, before: UrlParts)
    requires x.Proper()
    ensures EqualIgnoringCase(x.scheme, "https://") <==> |x.scheme| == 8
    ensures Parse(before, x.Text()) == ParseRest(before.(secure := |x.scheme| == 8), x.Address() + (x.path + x.query))
  {
    hide ParseRest, UrlText.Address;
    var s, rest := x.Text(), x.Address() + (x.path + x.query);
    assert s == x.scheme + rest;
    assert s[..|x.scheme|] == x.scheme && s[|x.scheme|..] == rest;
    if |x.scheme| == 8 {
      assert s[..7][4] == x.scheme[4] && "https://"[4] == 's' && "http://"[4] == ':';
      assert ToLower(x.scheme[4]) == ToLower('s') && ToLower('s') != ToLower(':');
    }
  }

  lemma DigitsAhead(d: string, s: string)
    requires AllDigits(d) && d != "" && (s == "" || !IsDigit(s[0])) && Number(d) < 0x1_0000
    ensures StrToUL10(d + s) == Number(d)
  {
    hide DecimalValue, DigitPrefix, Number;
    var t := d + s;
    assert IsDigit(d[0]) && t[0] == d[0] && SpacePrefix(t) == 0 && t[0..] == t;
    DigitsThen(d, s);
    NumberIs(d);
    assert t[..|d|] == d;
  }

  /** Credentials are skipped. */
  lemma UserIs(x: UrlText, v: UrlParts, behind: string)
    requires x.Proper()
    ensures '@' !in x.Server()
    ensures ParseAddress(v, x.Address(), behind) == ParseAddress(v, x.Server(), behind)
  {
    hide StrToUL10, IndexOf, Number, EqualIgnoringCase;
    var address, server := x.Address(), x.Server();
    DigitsPlain(if x.port.Some? then x.port.value else "");
    assert '@' !in server;
    IndexOfUnique(server, '@', |server|);
    if x.user.Some? {
      var u := x.user.value;
      assert forall i :: 0 <= i < |u| ==> address[i] == u[i];
      IndexOfUnique(address, '@', |u|);
      assert address[|u| + 1..] == server;
    } else {
      assert address == server;
    }
  }

  lemma ServerIs(x: UrlText, v: UrlParts, behind: string)
    requires x.Proper() && '@' !in x.Server() && (behind == "" || !IsDigit(behind[0]))
    ensures ParseAddress(v, x.Server(), behind) ==
            v.(host := x.host, port := if x.port.Some? then Number(x.port.value) else if v.secure then 443 else 80)
  {
    hide StrToUL10, Number, EqualIgnoringCase, ParseAddress, AllDigits;
    if x.port.Some? {
      WithPort(v, x.host, x.port.value, behind);
      DigitsAhead(x.port.value, behind);
    } else {
      WithoutPort(v, x.host, behind);
      assert x.host + "" == x.host;
    }
  }

  lemma WithPort(v: UrlParts, host: string, port: string, behind: string)
    requires '@' !in host + (":" + port) && ':' !in host
    ensures ParseAddress(v, host + (":" + port), behind) == v.(host := host, port := StrToUL10(port + behind) % 0x1_0000)
  {
    hide StrToUL10, IndexOf;
    var server := host + (":" + port);
    IndexOfUnique(server, '@', |server|);
    IndexOfUnique(server, ':', |host|);
    assert server[..|host|] == host && server[|host| + 1..] == port;
  }

  lemma WithoutPort(v: UrlParts, host: string, behind: string)
    requires '@' !in host && ':' !in host
    ensures ParseAddress(v, host, behind) == v.(host := host, port := if v.secure then 443 else 80)
  {
    hide StrToUL10, IndexOf;
    IndexOfUnique(host, '@', |host|);
    IndexOfUnique(host, ':', |host|);
  }

  lemma DigitsPlain(d: string)
    requires AllDigits(d)
    ensures '@' !in d && '/' !in d
  {
  }

  lemma PathIs(v: UrlParts, path: string, query: string)
    requires '?' !in path && (query != "" ==> query[0] == '?')
    ensures ParseFullPath(v, path + query) == v.(path := if path == "" then "/" else path, query := query)
  {
    var s := path + query;
    IndexOfUnique(s, '?', |path|);
    assert s[..|path|] == path && s[|path|..] == query;
  }

  /** Any URL is taken apart: credentials are dropped, a missing port is 80 for http and 443 for https,
      and a missing path is "/". */
  lemma UrlReads(x: UrlText, before: UrlParts)
    requires x.Proper()
    ensures Parse(before, x.Text()) ==
            UrlParts(|x.scheme| == 8, x.host,
                     if x.port.Some? then Number(x.port.value) else if |x.scheme| == 8 then 443 else 80,
                     if x.path == "" then "/" else x.path, x.query)
  {
    hide ParseAddress, ParseFullPath, IndexOf, EqualIgnoringCase, Number;
    SchemeIs(x, before);
    var address, behind := x.Address(), x.path + x.query;
    var s := address + behind;
    assert '/' !in address by {
      DigitsPlain(if x.port.Some? then x.port.value else "");
    }
    IndexOfUnique(s, '/', |address|);
    assert s[..|address|] == address && s[|address|..] == behind;
    UserIs(x, before.(secure := |x.scheme| == 8), behind);
    ServerIs(x, before.(secure := |x.scheme| == 8), behind);
    PathIs(ParseAddress(before.(secure := |x.scheme| == 8), address, behind), x.path, x.query);
  }

  /** A text with another scheme clears the URL. */
  lemma OtherScheme(s: string, before: UrlParts)
    requires forall x: UrlText :: x.Proper() ==> !(x.scheme <= s)
    ensures Parse(before, s) == UrlParts(false, "", 80, "/", "")
  {
    if |s| >= 7 && EqualIgnoringCase(s[..7], "http://") {
      BareScheme(s[..7]);
      assert false;
    }
    if |s| >= 8 && EqualIgnoringCase(s[..8], "https://") {
      BareScheme(s[..8]);
      assert false;
    }
  }

  lemma BareScheme(scheme: string)
    requires EqualIgnoringCase(scheme, "http://") || EqualIgnoringCase(scheme, "https://")
    ensures UrlText(scheme, None, "", None, "", "").Proper()
  {
  }
}
