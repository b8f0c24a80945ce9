/**
  Outbound network rules: their text form, its parser and its printer
  (crates/oxidhome-manifest/src/network.rs).  IP addresses and networks come from a
  library, taken as a record of functions with the laws it is relied on for.
 */
module Network {
  import opened Prelude
  import opened Text

  datatype IpLib<!Ip, !Net> = IpLib(
    parseIp: string -> Option<Ip>, showIp: Ip -> string, ipIsV6: Ip -> bool,
    parseNet: string -> Option<Net>, showNet: Net -> string, netIsV6: Net -> bool)

  datatype Proto = Tcp | Udp | Https | Any

  datatype HostMatch<Net> = Exact(text: string) | SuffixWildcard(suffix: string) | Cidr(net: Net)

  datatype PortMatch = ExactPort(port: nat) | PortRange(lo: nat, hi: nat) | AnyPort

  datatype NetworkRule<Net> = NetworkRule(proto: Proto, host: HostMatch<Net>, port: PortMatch)

  datatype ParseError =
    | MissingScheme | UnknownProto | EmptyHost | InvalidCidr | InvalidWildcard
    | InvalidPort | InvalidPortRange | MissingPort | InvalidHost | WhitespaceInToken

  const U16_MAX: nat := 0xFFFF

  // ---- Parsing ----

  function ParseProto(s: string): Option<Proto> {
    if s == "tcp" then Some(Tcp) else if s == "udp" then Some(Udp)
    else if s == "https" then Some(Https) else if s == "any" then Some(Any) else None
  }

  /** A trailing `:port` of an unbracketed authority, unless the colon belongs to an
      address or a mask follows it. */
  function SplitHostPort(rest: string): (string, Option<string>) {
    var last := LastIndexOf(rest, ':');
    if last.None? then (rest, None)
    else
      var host, port := rest[..last.value], rest[last.value + 1..];
      if ':' in host || '/' in port then (rest, None) else (host, Some(port))
  }

  datatype Authority = Authority(host: string, port: Option<string>, bracketed: bool)

  function SplitAuthority(rest: string): Result<Authority, ParseError> {
    if StartsWith(rest, "[") then
      var afterOpen := rest[1..];
      var close := IndexOf(afterOpen, ']');
      if close.None? then Err(InvalidHost)
      else
        var afterClose := afterOpen[close.value + 1..];
        if afterClose == [] then Ok(Authority(afterOpen[..close.value], None, true))
        else if StartsWith(afterClose, ":") then Ok(Authority(afterOpen[..close.value], Some(afterClose[1..]), true))
        else Err(InvalidHost)
    else
      var (host, port) := SplitHostPort(rest);
      Ok(Authority(host, port, false))
  }

  function ParseBracketedHost<Ip, Net>(lib: IpLib<Ip, Net>, s: string): Result<HostMatch<Net>, ParseError> {
    if '/' in s then
      var net := lib.parseNet(s);
      if net.None? then Err(InvalidCidr)
      else if !lib.netIsV6(net.value) then Err(InvalidHost) else Ok(Cidr(net.value))
    else
      var ip := lib.parseIp(s);
      if ip.None? || !lib.ipIsV6(ip.value) then Err(InvalidHost) else Ok(Exact(lib.showIp(ip.value)))
  }

  function ParseHost<Ip, Net>(lib: IpLib<Ip, Net>, s: string, bracketed: bool): Result<HostMatch<Net>, ParseError> {
    if s == [] then Err(EmptyHost)
    else if bracketed then ParseBracketedHost(lib, s)
    else if StartsWith(s, "*.") then
      var suffix := s[2..];
      if suffix == [] || StartsWith(suffix, ".") then Err(InvalidWildcard) else Ok(SuffixWildcard("." + suffix))
    else if '/' in s then
      var net := lib.parseNet(s);
      if net.None? then Err(InvalidCidr) else Ok(Cidr(net.value))
    else
      var ip := lib.parseIp(s);
      if ip.Some? then Ok(Exact(lib.showIp(ip.value)))
      else if ':' in s then Err(InvalidHost)
      else Ok(Exact(s))
  }

  function ParsePort(s: string): Result<PortMatch, ParseError> {
    if s == "*" then Ok(AnyPort)
    else
      var parts := SplitOnce(s, "-");
      if parts.Some? then
        var lo := ParseUnsigned(parts.value.0, U16_MAX);
        var hi := ParseUnsigned(parts.value.1, U16_MAX);
        if lo.None? || hi.None? then Err(InvalidPort)
        else if lo.value > hi.value then Err(InvalidPortRange)
        else Ok(PortRange(lo.value, hi.value))
      else
        var p := ParseUnsigned(s, U16_MAX);
        if p.None? then Err(InvalidPort) else Ok(ExactPort(p.value))
  }

  function DefaultPort(proto: Proto): Result<PortMatch, ParseError> {
    if proto == Https then Ok(ExactPort(443)) else Err(MissingPort)
  }

  function ParseRest<Ip, Net>(lib: IpLib<Ip, Net>, proto: Proto, rest: string): Result<NetworkRule<Net>, ParseError> {
    var authority := SplitAuthority(rest);
    if authority.Err? then Err(authority.error)
    else
      var Authority(hostText, portText, bracketed) := authority.value;
      if HasWhitespace(hostText) || (portText.Some? && HasWhitespace(portText.value)) then Err(WhitespaceInToken)
      else
        var host := ParseHost(lib, hostText, bracketed);
        var port := if portText.Some? then ParsePort(portText.value) else DefaultPort(proto);
        if host.Err? then Err(host.error)
        else if port.Err? then Err(port.error)
        else Ok(NetworkRule(proto, host.value, port.value))
  }

  function Parse<Ip, Net>(lib: IpLib<Ip, Net>, raw: string): Result<NetworkRule<Net>, ParseError> {
    var parts := SplitOnce(Trim(raw), "://");
    if parts.None? then Err(MissingScheme)
    else
      var proto := ParseProto(parts.value.0);
      if proto.None? then Err(UnknownProto) else ParseRest(lib, proto.value, parts.value.1)
  }

  // ---- Printing ----

  function ProtoText(p: Proto): string {
    match p
    case Tcp => "tcp"
    case Udp => "udp"
    case Https => "https"
    case Any => "any"
  }

  function HostText<Ip, Net>(lib: IpLib<Ip, Net>, host: HostMatch<Net>): string {
    match host
    case Exact(s) => s
    case SuffixWildcard(suffix) => "*" + suffix
    case Cidr(net) => lib.showNet(net)
  }

  function PortText(port: PortMatch): string {
    match port
    case AnyPort => "*"
    case ExactPort(p) => Decimal(p)
    case PortRange(lo, hi) => Decimal(lo) + "-" + Decimal(hi)
  }

  predicate OnDefaultPort<Net>(r: NetworkRule<Net>) {
    r.proto == Https && r.port == ExactPort(443)
  }

  function RestText<Ip, Net>(lib: IpLib<Ip, Net>, r: NetworkRule<Net>): string {
    var h := HostText(lib, r.host);
    if OnDefaultPort(r) then h
    else if ':' in h then "[" + h + "]:" + PortText(r.port)
    else h + ":" + PortText(r.port)
  }

  function Print<Ip, Net>(lib: IpLib<Ip, Net>, r: NetworkRule<Net>): string {
    ProtoText(r.proto) + "://" + RestText(lib, r)
  }

  // ---- What the address library is relied on for ----

  predicate AddressChar(c: char) {
    '0' <= c <= '9' || 'a' <= c <= 'f' || c == ':' || c == '.' || c == '/'
  }

  predicate TwoColons(s: string) {
    exists i, j :: 0 <= i < j < |s| && s[i] == ':' && s[j] == ':'
  }

  /** Address text: nonempty, of address characters, with a slash exactly for networks
      and colons (at least two) exactly for version 6. */
  predicate AddressText(s: string, v6: bool, slash: bool) {
    && s != [] && (forall i :: 0 <= i < |s| ==> AddressChar(s[i]))
    && ('/' in s <==> slash) && (':' in s <==> v6) && (v6 ==> TwoColons(s))
  }

  /** Parsing undoes printing, and printed text has the shape of an address. */
  ghost predicate Lawful<Ip(!new), Net(!new)>(lib: IpLib<Ip, Net>) {
    && (forall ip :: lib.parseIp(lib.showIp(ip)) == Some(ip) && AddressText(lib.showIp(ip), lib.ipIsV6(ip), false))
    && (forall net :: lib.parseNet(lib.showNet(net)) == Some(net))
    && (forall net :: AddressText(lib.showNet(net), lib.netIsV6(net), true))
  }

  // ---- Which rules survive printing and parsing ----

  predicate IsAddress<Ip, Net>(lib: IpLib<Ip, Net>, s: string) {
    lib.parseIp(s).Some? && lib.showIp(lib.parseIp(s).value) == s
  }

  /** Not an address, and nothing the parser would take for something else. */
  predicate IsPlainName<Ip, Net>(lib: IpLib<Ip, Net>, s: string) {
    && s != [] && !HasWhitespace(s) && ':' !in s && '/' !in s
    && s[0] != '[' && !StartsWith(s, "*.") && lib.parseIp(s).None?
  }

  predicate HostOnly(s: string) {
    SplitHostPort(s) == (s, None)
  }

  predicate GoodHost<Ip, Net>(lib: IpLib<Ip, Net>, host: HostMatch<Net>, onDefaultPort: bool) {
    match host
    case Exact(s) => IsAddress(lib, s) || IsPlainName(lib, s)
    case SuffixWildcard(t) =>
      && |t| >= 2 && t[0] == '.' && t[1] != '.' && !HasWhitespace(t)
      && (':' in t ==> onDefaultPort && HostOnly("*" + t))
    case Cidr(_) => true
  }

  predicate GoodPort(port: PortMatch) {
    match port
    case AnyPort => true
    case ExactPort(p) => p <= U16_MAX
    case PortRange(lo, hi) => lo <= hi <= U16_MAX
  }

  predicate WellFormed<Ip, Net>(lib: IpLib<Ip, Net>, r: NetworkRule<Net>) {
    GoodHost(lib, r.host, OnDefaultPort(r)) && GoodPort(r.port)
  }

  // ---- Ports ----

  /** Digits, dashes and a star: nothing a splitter looks for. */
  predicate PortChars(s: string) {
    s != [] && forall i :: 0 <= i < |s| ==> IsDigit(s[i]) || s[i] == '-' || s[i] == '*'
  }

  lemma RangeRoundTrip(lo: nat, hi: nat)
    requires lo <= hi <= U16_MAX
    ensures ParsePort(Decimal(lo) + "-" + Decimal(hi)) == Ok(PortRange(lo, hi))
  {
    hide Decimal, ParseUnsigned;
    ParseDecimal(lo, U16_MAX);
    ParseDecimal(hi, U16_MAX);
    var s := Decimal(lo) + "-" + Decimal(hi);
    assert s[0] == Decimal(lo)[0] && IsDigit(s[0]);
    forall i | 0 <= i < |Decimal(lo)|
      ensures !StartsWith(s[i..], "-")
    {
      assert s[i..][0] == Decimal(lo)[i] && IsDigit(Decimal(lo)[i]);
    }
    SplitOnceAt(Decimal(lo), "-", Decimal(hi));
  }

  lemma ExactPortRoundTrip(p: nat)
    requires p <= U16_MAX
    ensures ParsePort(Decimal(p)) == Ok(ExactPort(p))
  {
    hide Decimal, ParseUnsigned;
    ParseDecimal(p, U16_MAX);
    NoSeparator(Decimal(p), '-');
    NotStar(Decimal(p));
  }

  lemma PortRoundTrip(port: PortMatch)
    requires GoodPort(port)
    ensures ParsePort(PortText(port)) == Ok(port)
    ensures PortChars(PortText(port))
  {
    match port
    case AnyPort =>
    case ExactPort(p) => ExactPortRoundTrip(p);
    case PortRange(lo, hi) =>
      RangeRoundTrip(lo, hi);
      hide ParsePort, Decimal;
  }

  lemma NotStar(s: string)
    requires s != [] && AllDigits(s)
    ensures s != "*"
  {
    assert IsDigit(s[0]);
  }

  lemma {:induction false} NoSeparator(s: string, c: char)
    requires c !in s
    ensures SplitOnce(s, [c]).None?
  {
    if s == [] {
    } else {
      assert s[0] in s;
      NoSeparator(s[1..], c);
    }
  }

  /** Whatever a port text parses to is a port or an ordered range of ports. */
  lemma ParsedPortIsGood(s: string)
    requires ParsePort(s).Ok?
    ensures GoodPort(ParsePort(s).value)
  {
  }

  // ---- Authorities ----

  lemma BracketedSplits(h: string, port: string)
    requires ']' !in h
    ensures SplitAuthority("[" + h + "]:" + port) == Ok(Authority(h, Some(port), true))
  {
    var rest := "[" + h + "]:" + port;
    assert rest[..1] == "[";
    assert rest[1..] == h + [']'] + (":" + port);
    IndexOfFirst(h, ']', ":" + port);
    assert rest[1..][..|h|] == h;
    assert rest[1..][|h| + 1..] == ":" + port;
    assert (":" + port)[..1] == ":" && (":" + port)[1..] == port;
  }

  lemma PortSplits(h: string, port: string)
    requires h != [] && h[0] != '[' && ':' !in h && ':' !in port && '/' !in port
    ensures SplitAuthority(h + ":" + port) == Ok(Authority(h, Some(port), false))
  {
    var rest := h + ":" + port;
    assert rest[0] == h[0] && !StartsWith(rest, "[");
    LastIndexOfLast(h, ':', port);
    assert rest == h + [':'] + port;
    assert rest[..|h|] == h && rest[|h| + 1..] == port;
  }

  /** Version-6 text, with or without a mask, is never taken apart at a colon. */
  lemma AddressIsHostOnly(s: string, v6: bool, slash: bool)
    requires AddressText(s, v6, slash)
    ensures HostOnly(s) && s[0] != '[' && !StartsWith(s, "*.") && !HasWhitespace(s) && ']' !in s
  {
    assert AddressChar(s[0]);
    if v6 {
      var i, j :| 0 <= i < j < |s| && s[i] == ':' && s[j] == ':';
      var last := LastIndexOf(s, ':').value;
      assert i < last;
      assert s[..last][i] == ':';
    }
  }

  lemma NoColonIsHostOnly(s: string)
    requires ':' !in s
    ensures HostOnly(s)
  {
  }

  // ---- Hosts ----

  /** What the printed host is read back as, with and without brackets. */
  ghost predicate HostReadsBack<Ip, Net>(lib: IpLib<Ip, Net>, host: HostMatch<Net>, onDefaultPort: bool) {
    var h := HostText(lib, host);
    && h != [] && !HasWhitespace(h) && h[0] != '['
    && (onDefaultPort ==> HostOnly(h))
    && (':' in h && !onDefaultPort ==> ']' !in h && ParseHost(lib, h, true) == Ok(host))
    && (':' !in h || onDefaultPort ==> ParseHost(lib, h, false) == Ok(host))
  }

  lemma AddressReadsBack<Ip(!new), Net(!new)>(lib: IpLib<Ip, Net>, s: string, onDefaultPort: bool)
    requires Lawful(lib) && IsAddress(lib, s)
    ensures HostReadsBack(lib, Exact(s), onDefaultPort)
  {
    var ip := lib.parseIp(s).value;
    assert AddressText(lib.showIp(ip), lib.ipIsV6(ip), false);
    AddressIsHostOnly(s, lib.ipIsV6(ip), false);
    hide Lawful, SplitHostPort;
  }

  lemma NetReadsBack<Ip(!new), Net(!new)>(lib: IpLib<Ip, Net>, net: Net, onDefaultPort: bool)
    requires Lawful(lib)
    ensures HostReadsBack(lib, Cidr(net), onDefaultPort)
  {
    assert AddressText(lib.showNet(net), lib.netIsV6(net), true) && lib.parseNet(lib.showNet(net)) == Some(net);
    AddressIsHostOnly(lib.showNet(net), lib.netIsV6(net), true);
    hide Lawful, SplitHostPort;
  }

  lemma WildcardReadsBack<Ip, Net>(lib: IpLib<Ip, Net>, t: string, onDefaultPort: bool)
    requires GoodHost(lib, SuffixWildcard(t), onDefaultPort)
    ensures HostReadsBack(lib, SuffixWildcard(t), onDefaultPort)
  {
    var h := "*" + t;
    assert h[..2] == "*." && h[2..] == t[1..] && "." + t[1..] == t;
    assert !HasWhitespace(h) by {
      assert forall i :: 0 < i < |h| ==> h[i] == t[i - 1];
    }
    assert ':' in h <==> ':' in t;
    if ':' !in h {
      NoColonIsHostOnly(h);
    }
  }

  lemma HostReads<Ip(!new), Net(!new)>(lib: IpLib<Ip, Net>, host: HostMatch<Net>, onDefaultPort: bool)
    requires Lawful(lib) && GoodHost(lib, host, onDefaultPort)
    ensures HostReadsBack(lib, host, onDefaultPort)
  {
    hide Lawful;
    match host
    case Exact(s) =>
      if IsAddress(lib, s) {
        AddressReadsBack(lib, s, onDefaultPort);
      } else {
        NoColonIsHostOnly(s);
      }
    case SuffixWildcard(t) => WildcardReadsBack(lib, t, onDefaultPort);
    case Cidr(net) => NetReadsBack(lib, net, onDefaultPort);
  }

  // ---- Rules ----

  lemma RestRoundTrip<Ip(!new), Net(!new)>(lib: IpLib<Ip, Net>, r: NetworkRule<Net>)
    requires Lawful(lib) && WellFormed(lib, r)
    ensures ParseRest(lib, r.proto, RestText(lib, r)) == Ok(r)
  {
    hide Lawful, GoodHost, ParseHost, ParsePort, SplitHostPort;
    var h, p := HostText(lib, r.host), PortText(r.port);
    HostReads(lib, r.host, OnDefaultPort(r));
    PortRoundTrip(r.port);
    PortCharsFacts(p);
    if OnDefaultPort(r) {
      assert SplitAuthority(h) == Ok(Authority(h, None, false));
    } else if ':' in h {
      BracketedSplits(h, p);
    } else {
      PortSplits(h, p);
    }
  }

  lemma PortCharsFacts(s: string)
    requires PortChars(s)
    ensures ':' !in s && '/' !in s && !HasWhitespace(s) && !IsWhitespace(s[|s| - 1])
  {
  }

  lemma TrimKeeps(s: string)
    requires s != [] && !IsWhitespace(s[0]) && !IsWhitespace(s[|s| - 1])
    ensures Trim(s) == s
  {
  }

  lemma PrintedSplits(proto: Proto, rest: string)
    ensures SplitOnce(ProtoText(proto) + "://" + rest, "://") == Some((ProtoText(proto), rest))
    ensures ParseProto(ProtoText(proto)) == Some(proto)
    ensures ProtoText(proto) != [] && !IsWhitespace(ProtoText(proto)[0])
  {
    var a := ProtoText(proto);
    forall i | 0 <= i < |a|
      ensures !StartsWith((a + "://" + rest)[i..], "://")
    {
      assert (a + "://" + rest)[i..][0] == a[i];
    }
    SplitOnceAt(a, "://", rest);
  }

  lemma PrintedEnds<Ip(!new), Net(!new)>(lib: IpLib<Ip, Net>, r: NetworkRule<Net>)
    requires Lawful(lib) && WellFormed(lib, r)
    ensures RestText(lib, r) != [] && !IsWhitespace(RestText(lib, r)[|RestText(lib, r)| - 1])
  {
    hide Lawful, GoodHost;
    HostReads(lib, r.host, OnDefaultPort(r));
    PortRoundTrip(r.port);
    PortCharsFacts(PortText(r.port));
    hide ParsePort, PortText, ParseHost;
    var h := HostText(lib, r.host);
    assert !IsWhitespace(h[|h| - 1]);
  }

  lemma WellFormedRoundTrips<Ip(!new), Net(!new)>(lib: IpLib<Ip, Net>, r: NetworkRule<Net>)
    requires Lawful(lib) && WellFormed(lib, r)
    ensures Parse(lib, Print(lib, r)) == Ok(r)
  {
    RestRoundTrip(lib, r);
    PrintedEnds(lib, r);
    PrintedSplits(r.proto, RestText(lib, r));
    hide Lawful, WellFormed, RestText, ParseRest, ProtoText, SplitOnce;
    TrimKeeps(Print(lib, r));
  }

  /** Whatever the parser accepts is well formed. */
  lemma ParsedIsWellFormed<Ip(!new), Net(!new)>(lib: IpLib<Ip, Net>, s: string)
    requires Lawful(lib) && Parse(lib, s).Ok?
    ensures WellFormed(lib, Parse(lib, s).value)
  {
    var parts := SplitOnce(Trim(s), "://").value;
    ParsedRestIsWellFormed(lib, ParseProto(parts.0).value, parts.1);
  }

  lemma ParsedRestIsWellFormed<Ip(!new), Net(!new)>(lib: IpLib<Ip, Net>, proto: Proto, rest: string)
    requires Lawful(lib) && ParseRest(lib, proto, rest).Ok?
    ensures WellFormed(lib, ParseRest(lib, proto, rest).value)
  {
    var a := SplitAuthority(rest).value;
    var r := ParseRest(lib, proto, rest).value;
    if a.port.Some? {
      ParsedPortIsGood(a.port.value);
    }
    if a.bracketed {
      assert forall ip :: IsAddress(lib, lib.showIp(ip));
    } else {
      hide Lawful, ParsePort;
      UnbracketedAuthority(rest);
      ParsedHostIsGood(lib, a.host, a.port.None?, OnDefaultPort(r));
    }
  }

  lemma UnbracketedAuthority(rest: string)
    requires !StartsWith(rest, "[")
    ensures SplitAuthority(rest).Ok?
    ensures var a := SplitAuthority(rest).value;
      && !a.bracketed && (a.host != [] ==> a.host[0] != '[')
      && (a.port.Some? ==> ':' !in a.host) && (a.port.None? ==> HostOnly(a.host))
  {
  }

  lemma ParsedHostIsGood<Ip(!new), Net(!new)>(lib: IpLib<Ip, Net>, s: string, noPort: bool, onDefaultPort: bool)
    requires Lawful(lib) && !HasWhitespace(s) && (s != [] ==> s[0] != '[') && ParseHost(lib, s, false).Ok?
    requires if noPort then HostOnly(s) && onDefaultPort else ':' !in s
    ensures GoodHost(lib, ParseHost(lib, s, false).value, onDefaultPort)
  {
    if StartsWith(s, "*.") {
      var t := "." + s[2..];
      assert s == "*" + t;
      assert forall i :: 0 <= i < |t| ==> t[i] == s[i + 1];
    }
  }

  /** For every string the parser accepts, printing the rule and parsing again gives the
      same rule; and a rule survives printing and parsing exactly when it is well formed. */
  lemma PrintParseRoundTrip<Ip(!new), Net(!new)>(lib: IpLib<Ip, Net>, s: string, r: NetworkRule<Net>)
    requires Lawful(lib)
    ensures Parse(lib, s).Ok? ==> Parse(lib, Print(lib, Parse(lib, s).value)) == Parse(lib, s)
    ensures Parse(lib, Print(lib, r)) == Ok(r) <==> WellFormed(lib, r)
  {
    hide WellFormed, Parse, Print, Lawful;
    if Parse(lib, s).Ok? {
      ParsedIsWellFormed(lib, s);
      WellFormedRoundTrips(lib, Parse(lib, s).value);
    }
    if WellFormed(lib, r) {
      WellFormedRoundTrips(lib, r);
    } else if Parse(lib, Print(lib, r)).Ok? {
      ParsedIsWellFormed(lib, Print(lib, r));
    }
  }

  // ---- Exactly which texts are accepted, and why the others are not ----

  /** `rest` is a host with or without a port.  In brackets the host ends at the first
      closing one; outside them a port follows the only colon unless a slash does. */
  ghost predicate IsAuthority(rest: string, host: string, port: Option<string>, bracketed: bool) {
    && rest == (if bracketed then "[" + host + "]" else host) + (if port.Some? then ":" + port.value else "")
    && if bracketed then ']' !in host
       else
         && !StartsWith(rest, "[")
         && (port.Some? ==> ':' !in host && ':' !in port.value && '/' !in port.value)
         && (port.None? && ':' in host ==>
               TwoColons(host) || exists i, j :: 0 <= i < j < |host| && host[i] == ':' && host[j] == '/')
  }

  lemma BracketPartsJoin(rest: string)
    requires StartsWith(rest, "[") && SplitAuthority(rest).Ok?
    ensures var a := SplitAuthority(rest).value; IsAuthority(rest, a.host, a.port, a.bracketed)
  {
    hide IndexOf;
    var afterOpen := rest[1..];
    var close := IndexOf(afterOpen, ']').value;
    var afterClose := afterOpen[close + 1..];
    assert rest == "[" + afterOpen[..close] + "]" + afterClose;
    if afterClose != [] {
      assert afterClose == ":" + afterClose[1..];
    }
  }

  lemma SplitPartsJoin(rest: string)
    requires SplitAuthority(rest).Ok?
    ensures var a := SplitAuthority(rest).value; IsAuthority(rest, a.host, a.port, a.bracketed)
  {
    if StartsWith(rest, "[") {
      BracketPartsJoin(rest);
      hide SplitAuthority, IsAuthority;
    } else {
      LastColonDecides(rest);
      hide SplitHostPort, IsAuthority;
    }
  }

  /** Without brackets: what stands before and after the last colon. */
  lemma LastColonDecides(rest: string)
    requires !StartsWith(rest, "[")
    ensures var (host, port) := SplitHostPort(rest); IsAuthority(rest, host, port, false)
  {
    hide LastIndexOf;
    var last := LastIndexOf(rest, ':');
    if last.Some? {
      var i := last.value;
      assert rest == rest[..i] + ":" + rest[i + 1..];
      if ':' in rest[..i] {
        var k :| 0 <= k < i && rest[..i][k] == ':';
        assert rest[k] == ':' && rest[i] == ':';
      } else if '/' in rest[i + 1..] {
        var k :| 0 <= k < |rest| - i - 1 && rest[i + 1..][k] == '/';
        assert rest[i + 1 + k] == '/';
      }
    }
  }

  lemma LoneHostSplits(host: string)
    requires IsAuthority(host, host, None, false)
    ensures HostOnly(host)
  {
    hide LastIndexOf;
    if ':' in host {
      var last := LastIndexOf(host, ':').value;
      if TwoColons(host) {
        var i, j :| 0 <= i < j < |host| && host[i] == ':' && host[j] == ':';
        assert host[..last][i] == ':';
      } else {
        var i, j :| 0 <= i < j < |host| && host[i] == ':' && host[j] == '/';
        assert i == last && host[last + 1..][j - last - 1] == '/';
      }
    }
  }

  lemma JoinedPartsSplit(rest: string, host: string, port: Option<string>, bracketed: bool)
    requires IsAuthority(rest, host, port, bracketed)
    ensures SplitAuthority(rest) == Ok(Authority(host, port, bracketed))
  {
    if bracketed {
      var tail := if port.Some? then ":" + port.value else "";
      assert rest[..1] == "[" && rest[1..] == host + [']'] + tail;
      IndexOfFirst(host, ']', tail);
      assert rest[1..][..|host|] == host && rest[1..][|host| + 1..] == tail;
    } else if port.Some? {
      LastIndexOfLast(host, ':', port.value);
      assert rest == host + [':'] + port.value;
      assert rest[..|host|] == host && rest[|host| + 1..] == port.value;
    } else {
      assert rest == host;
      LoneHostSplits(host);
    }
  }

  /** Every authority but a malformed bracket splits, into the parts it is made of. */
  lemma SplitsAuthority(rest: string)
    ensures forall host, port, bracketed ::
              SplitAuthority(rest) == Ok(Authority(host, port, bracketed)) <==>
              IsAuthority(rest, host, port, bracketed)
    ensures SplitAuthority(rest).Err? ==> SplitAuthority(rest) == Err(InvalidHost)
  {
    if SplitAuthority(rest).Ok? {
      SplitPartsJoin(rest);
    }
    forall host, port, bracketed | IsAuthority(rest, host, port, bracketed)
      ensures SplitAuthority(rest) == Ok(Authority(host, port, bracketed))
    {
      JoinedPartsSplit(rest, host, port, bracketed);
    }
  }

  /** What a host text stands for. */
  ghost predicate HostMeans<Ip, Net>(lib: IpLib<Ip, Net>, s: string, bracketed: bool, h: HostMatch<Net>) {
    match h
    case Cidr(net) =>
      '/' in s && lib.parseNet(s) == Some(net) && (if bracketed then lib.netIsV6(net) else !StartsWith(s, "*."))
    case SuffixWildcard(suffix) =>
      !bracketed && |s| > 2 && s[0] == '*' && s[1] == '.' && s[2] != '.' && suffix == s[1..]
    case Exact(text) =>
      && s != "" && '/' !in s && (!bracketed ==> !StartsWith(s, "*."))
      && if lib.parseIp(s).Some? then
           text == lib.showIp(lib.parseIp(s).value) && (bracketed ==> lib.ipIsV6(lib.parseIp(s).value))
         else text == s && !bracketed && ':' !in s
  }

  ghost predicate HostFails<Ip, Net>(lib: IpLib<Ip, Net>, s: string, bracketed: bool, e: ParseError) {
    if s == "" then e == EmptyHost
    else if !bracketed && StartsWith(s, "*.") then e == InvalidWildcard && (|s| == 2 || s[2] == '.')
    else if '/' in s then
      if lib.parseNet(s).None? then e == InvalidCidr
      else e == InvalidHost && bracketed && !lib.netIsV6(lib.parseNet(s).value)
    else
      && e == InvalidHost
      && if lib.parseIp(s).Some? then bracketed && !lib.ipIsV6(lib.parseIp(s).value) else bracketed || ':' in s
  }

  lemma HostsExactly<Ip, Net(!new)>(lib: IpLib<Ip, Net>, s: string, bracketed: bool)
    ensures forall h :: HostMeans(lib, s, bracketed, h) <==> ParseHost(lib, s, bracketed) == Ok(h)
    ensures forall e :: HostFails(lib, s, bracketed, e) <==> ParseHost(lib, s, bracketed) == Err(e)
  {
    if !bracketed && |s| >= 2 && s[0] == '*' && s[1] == '.' {
      WildcardsExactly(lib, s);
    } else {
      assert bracketed || !StartsWith(s, "*.");
    }
  }

  lemma WildcardsExactly<Ip, Net>(lib: IpLib<Ip, Net>, s: string)
    requires |s| >= 2 && s[0] == '*' && s[1] == '.'
    ensures StartsWith(s, "*.")
    ensures ParseHost(lib, s, false) ==
            if |s| == 2 || s[2] == '.' then Err(InvalidWildcard) else Ok(SuffixWildcard(s[1..]))
  {
    assert s[..2] == "*." && s[1..] == "." + s[2..];
    if |s| > 2 {
      assert s[2..][..1] == [s[2]];
    }
  }

  /** A star, a number, or two numbers around the first dash. */
  ghost predicate PortMeans(s: string, port: PortMatch) {
    match port
    case AnyPort => s == "*"
    case ExactPort(n) => Reads(s, n) && n <= 65535
    case PortRange(lo, hi) =>
      exists a, b :: s == a + "-" + b && Reads(a, lo) && Reads(b, hi) && lo <= hi <= 65535
  }

  ghost predicate IsPortNumber(s: string) {
    exists n: nat :: Reads(s, n) && n <= 65535
  }

  ghost predicate InOrder(a: string, b: string) {
    exists lo: nat, hi: nat :: Reads(a, lo) && Reads(b, hi) && lo <= hi <= 65535
  }

  ghost predicate PortFails(s: string, e: ParseError) {
    if '-' !in s then e == InvalidPort && s != "*" && !IsPortNumber(s)
    else
      exists a, b :: AroundDash(s, a, b)
                     && if !IsPortNumber(a) || !IsPortNumber(b) then e == InvalidPort
                        else e == InvalidPortRange && !InOrder(a, b)
  }

  ghost predicate AroundDash(s: string, a: string, b: string) {
    s == a + "-" + b && '-' !in a
  }

  lemma DashSplits(s: string)
    ensures forall a, b :: AroundDash(s, a, b) <==> SplitOnce(s, "-") == Some((a, b))
    ensures '-' in s <==> SplitOnce(s, "-").Some?
  {
    SplitOnceExactly(s, "-");
    forall i | 0 <= i < |s|
      ensures StartsWith(s[i..], "-") <==> s[i] == '-'
    {
      assert s[i..][..1] == [s[i]];
    }
    if SplitOnce(s, "-").Some? {
      var (a, b) := SplitOnce(s, "-").value;
      assert s[|a|] == '-' && forall i :: 0 <= i < |a| ==> a[i] == s[i];
    }
    forall a, b | AroundDash(s, a, b)
      ensures SplitOnce(s, "-") == Some((a, b))
    {
      assert forall i :: 0 <= i < |a| ==> s[i] == a[i];
      SplitOnceAt(a, "-", b);
    }
    assert '-' in s ==> exists i :: 0 <= i < |s| && s[i] == '-';
    hide SplitOnce, StartsWith;
  }

  lemma PortNumber(s: string)
    ensures IsPortNumber(s) <==> ParseUnsigned(s, U16_MAX).Some?
    ensures forall n: nat :: Reads(s, n) && n <= 65535 <==> ParseUnsigned(s, U16_MAX) == Some(n)
    ensures forall n: nat :: Reads(s, n) ==> '-' !in s && s != "*"
  {
    ParsesWhatItReads(s, U16_MAX);
    hide Reads, ParseUnsigned;
    assert s == "*" ==> s[0] in s;
    if ParseUnsigned(s, U16_MAX).Some? {
      assert Reads(s, ParseUnsigned(s, U16_MAX).value);
    }
  }

  lemma OnePortExactly(s: string)
    requires '-' !in s
    ensures forall port :: PortMeans(s, port) <==> ParsePort(s) == Ok(port)
    ensures forall e :: PortFails(s, e) <==> ParsePort(s) == Err(e)
  {
    DashSplits(s);
    PortNumber(s);
    hide Reads, ParseUnsigned, SplitOnce, IsPortNumber;
    forall a, b
      ensures s != a + "-" + b
    {
      assert (a + "-" + b)[|a|] == '-';
    }
  }

  lemma DashOnce(s: string, a: string, b: string, c: string, d: string)
    requires AroundDash(s, a, b) && AroundDash(s, c, d)
    ensures a == c && b == d
  {
    DashSplits(s);
  }

  lemma RangeMeans(s: string, a: string, b: string, port: PortMatch)
    requires AroundDash(s, a, b)
    ensures PortMeans(s, port) <==>
            port.PortRange? && Reads(a, port.lo) && Reads(b, port.hi) && port.lo <= port.hi <= 65535
  {
    assert s[|a|] == '-';
    PortNumber(s);
    if PortMeans(s, port) && port.PortRange? {
      var c, d :| s == c + "-" + d && Reads(c, port.lo) && Reads(d, port.hi) && port.lo <= port.hi <= 65535;
      PortNumber(c);
      DashOnce(s, a, b, c, d);
    }
    hide Reads;
  }

  lemma RangeFails(s: string, a: string, b: string, e: ParseError)
    requires AroundDash(s, a, b)
    ensures PortFails(s, e) <==>
            if !IsPortNumber(a) || !IsPortNumber(b) then e == InvalidPort
            else e == InvalidPortRange && !InOrder(a, b)
  {
    assert s[|a|] == '-';
    forall c, d | AroundDash(s, c, d)
      ensures c == a && d == b
    {
      DashOnce(s, a, b, c, d);
    }
    hide AroundDash, IsPortNumber, InOrder;
  }

  lemma TwoPortsExactly(s: string, a: string, b: string)
    requires AroundDash(s, a, b)
    ensures forall port :: PortMeans(s, port) <==> ParsePort(s) == Ok(port)
    ensures forall e :: PortFails(s, e) <==> ParsePort(s) == Err(e)
  {
    DashSplits(s);
    assert s[|a|] == '-' && s != "*";
    PortNumber(a);
    PortNumber(b);
    hide SplitOnce, Reads, ParseUnsigned, AroundDash, PortMeans, PortFails, IsPortNumber;
    forall port
      ensures PortMeans(s, port) <==>
              port.PortRange? && Reads(a, port.lo) && Reads(b, port.hi) && port.lo <= port.hi <= 65535
    {
      RangeMeans(s, a, b, port);
    }
    forall e
      ensures PortFails(s, e) <==>
              if !IsPortNumber(a) || !IsPortNumber(b) then e == InvalidPort
              else e == InvalidPortRange && !InOrder(a, b)
    {
      RangeFails(s, a, b, e);
    }
  }

  lemma PortsExactly(s: string)
    ensures forall port :: PortMeans(s, port) <==> ParsePort(s) == Ok(port)
    ensures forall e :: PortFails(s, e) <==> ParsePort(s) == Err(e)
  {
    hide PortMeans, PortFails, ParsePort;
    DashSplits(s);
    if '-' in s {
      var (a, b) := SplitOnce(s, "-").value;
      TwoPortsExactly(s, a, b);
    } else {
      OnePortExactly(s);
    }
  }

  // ---- Whole rules ----

  ghost predicate ProtoNamed(name: string, proto: Proto) {
    match proto
    case Tcp => name == "tcp"
    case Udp => name == "udp"
    case Https => name == "https"
    case Any => name == "any"
  }

  ghost predicate HasBlank(host: string, port: Option<string>) {
    HasWhitespace(host) || (port.Some? && HasWhitespace(port.value))
  }

  /** Without a port only https has one to fall back on. */
  ghost predicate PortTextMeans(proto: Proto, port: Option<string>, p: PortMatch) {
    if port.Some? then PortMeans(port.value, p) else proto == Https && p == ExactPort(443)
  }

  ghost predicate PortTextFails(proto: Proto, port: Option<string>, e: ParseError) {
    if port.Some? then PortFails(port.value, e) else proto != Https && e == MissingPort
  }

  /** After the scheme: an authority without blanks whose host and port mean the rule's. */
  ghost predicate RestMeans<Ip, Net(!new)>(lib: IpLib<Ip, Net>, rest: string, rule: NetworkRule<Net>) {
    exists host, port, bracketed ::
      && IsAuthority(rest, host, port, bracketed) && !HasBlank(host, port)
      && HostMeans(lib, host, bracketed, rule.host) && PortTextMeans(rule.proto, port, rule.port)
  }

  /** Not an authority; or a blank in it; or else the host is at fault, and only if it is
      not, the port. */
  ghost predicate RestFails<Ip, Net(!new)>(lib: IpLib<Ip, Net>, proto: Proto, rest: string, e: ParseError) {
    || (e == InvalidHost && forall host, port, bracketed :: !IsAuthority(rest, host, port, bracketed))
    || exists host, port, bracketed ::
         && IsAuthority(rest, host, port, bracketed)
         && if HasBlank(host, port) then e == WhitespaceInToken
            else
              || HostFails(lib, host, bracketed, e)
              || ((exists h :: HostMeans(lib, host, bracketed, h)) && PortTextFails(proto, port, e))
  }

  /** The rest splits in one way only. */
  ghost predicate SplitsOnlyAs(rest: string, host: string, port: Option<string>, bracketed: bool) {
    forall h, p, b :: IsAuthority(rest, h, p, b) <==> h == host && p == port && b == bracketed
  }

  lemma MeansAt<Ip, Net(!new)>(lib: IpLib<Ip, Net>, rest: string, host: string, port: Option<string>,
      bracketed: bool, rule: NetworkRule<Net>)
    requires SplitsOnlyAs(rest, host, port, bracketed)
    ensures RestMeans(lib, rest, rule) <==>
            && !HasBlank(host, port)
            && HostMeans(lib, host, bracketed, rule.host) && PortTextMeans(rule.proto, port, rule.port)
  {
    hide IsAuthority, HasBlank, HostMeans, PortTextMeans;
    assert IsAuthority(rest, host, port, bracketed);
  }

  lemma FailsAt<Ip, Net(!new)>(lib: IpLib<Ip, Net>, proto: Proto, rest: string, host: string, port: Option<string>,
      bracketed: bool, e: ParseError)
    requires SplitsOnlyAs(rest, host, port, bracketed)
    ensures RestFails(lib, proto, rest, e) <==>
            if HasBlank(host, port) then e == WhitespaceInToken
            else
              || HostFails(lib, host, bracketed, e)
              || ((exists h :: HostMeans(lib, host, bracketed, h)) && PortTextFails(proto, port, e))
  {
    hide IsAuthority, HasBlank, HostMeans, HostFails, PortTextFails;
    assert IsAuthority(rest, host, port, bracketed);
  }

  lemma PortTextsExactly(proto: Proto, port: Option<string>)
    ensures var r := if port.Some? then ParsePort(port.value) else DefaultPort(proto);
      && (forall p :: PortTextMeans(proto, port, p) <==> r == Ok(p))
      && (forall e :: PortTextFails(proto, port, e) <==> r == Err(e))
  {
    if port.Some? {
      PortsExactly(port.value);
      hide PortMeans, PortFails, ParsePort;
    }
  }

  function Combined<Net>(proto: Proto, host: Result<HostMatch<Net>, ParseError>, port: Result<PortMatch, ParseError>):
    Result<NetworkRule<Net>, ParseError>
  {
    if host.Err? then Err(host.error) else if port.Err? then Err(port.error)
    else Ok(NetworkRule(proto, host.value, port.value))
  }

  lemma ParsesAt<Ip, Net>(lib: IpLib<Ip, Net>, proto: Proto, rest: string, host: string, port: Option<string>,
      bracketed: bool)
    requires SplitAuthority(rest) == Ok(Authority(host, port, bracketed))
    ensures ParseRest(lib, proto, rest) ==
            if HasBlank(host, port) then Err(WhitespaceInToken)
            else Combined(proto, ParseHost(lib, host, bracketed),
                          if port.Some? then ParsePort(port.value) else DefaultPort(proto))
  {
    hide SplitAuthority, ParseHost, ParsePort, HasWhitespace, DefaultPort;
  }

  lemma SplitIsUnique(rest: string, a: Authority)
    requires SplitAuthority(rest) == Ok(a)
    ensures SplitsOnlyAs(rest, a.host, a.port, a.bracketed)
  {
    SplitsAuthority(rest);
    hide IsAuthority, SplitAuthority;
  }

  lemma RuleAt<Ip, Net(!new)>(lib: IpLib<Ip, Net>, rest: string, a: Authority, rule: NetworkRule<Net>)
    requires SplitAuthority(rest) == Ok(a)
    ensures RestMeans(lib, rest, rule) <==> ParseRest(lib, rule.proto, rest) == Ok(rule)
  {
    hide SplitAuthority, HostMeans, HostFails, ParseHost, PortTextMeans, PortTextFails, ParsePort, DefaultPort,
         HasBlank, RestMeans, SplitsOnlyAs, ParseRest;
    SplitIsUnique(rest, a);
    MeansAt(lib, rest, a.host, a.port, a.bracketed, rule);
    ParsesAt(lib, rule.proto, rest, a.host, a.port, a.bracketed);
    HostsExactly(lib, a.host, a.bracketed);
    PortTextsExactly(rule.proto, a.port);
  }

  lemma FaultAt<Ip, Net(!new)>(lib: IpLib<Ip, Net>, proto: Proto, rest: string, a: Authority, e: ParseError)
    requires SplitAuthority(rest) == Ok(a)
    ensures RestFails(lib, proto, rest, e) <==> ParseRest(lib, proto, rest) == Err(e)
  {
    hide SplitAuthority, HostMeans, HostFails, ParseHost, PortTextMeans, PortTextFails, ParsePort, DefaultPort,
         HasBlank, RestFails, SplitsOnlyAs, ParseRest;
    SplitIsUnique(rest, a);
    FailsAt(lib, proto, rest, a.host, a.port, a.bracketed, e);
    ParsesAt(lib, proto, rest, a.host, a.port, a.bracketed);
    HostsExactly(lib, a.host, a.bracketed);
    PortTextsExactly(proto, a.port);
    assert ParseHost(lib, a.host, a.bracketed).Ok? ==>
        HostMeans(lib, a.host, a.bracketed, ParseHost(lib, a.host, a.bracketed).value);
  }

  lemma RestExactly<Ip, Net(!new)>(lib: IpLib<Ip, Net>, proto: Proto, rest: string)
    ensures forall rule: NetworkRule<Net> :: rule.proto == proto ==>
                             (RestMeans(lib, rest, rule) <==> ParseRest(lib, proto, rest) == Ok(rule))
    ensures forall e :: RestFails(lib, proto, rest, e) <==> ParseRest(lib, proto, rest) == Err(e)
  {
    if SplitAuthority(rest).Ok? {
      var a := SplitAuthority(rest).value;
      forall rule: NetworkRule<Net> | rule.proto == proto
        ensures RestMeans(lib, rest, rule) <==> ParseRest(lib, proto, rest) == Ok(rule)
      {
        RuleAt(lib, rest, a, rule);
      }
      forall e
        ensures RestFails(lib, proto, rest, e) <==> ParseRest(lib, proto, rest) == Err(e)
      {
        FaultAt(lib, proto, rest, a, e);
      }
      hide SplitAuthority, RestMeans, RestFails, ParseRest;
    } else {
      SplitsAuthority(rest);
      hide IsAuthority, SplitAuthority, ParseHost, ParsePort, HasWhitespace, HostMeans, HostFails;
    }
  }

  lemma HostFaults<Ip, Net>(lib: IpLib<Ip, Net>, s: string, bracketed: bool)
    ensures ParseHost(lib, s, bracketed) != Err(MissingScheme) && ParseHost(lib, s, bracketed) != Err(UnknownProto)
  {
  }

  lemma PortFaults(s: string)
    ensures ParsePort(s) != Err(MissingScheme) && ParsePort(s) != Err(UnknownProto)
  {
    hide SplitOnce, ParseUnsigned;
  }

  lemma RestFaults<Ip, Net(!new)>(lib: IpLib<Ip, Net>, proto: Proto, rest: string)
    ensures ParseRest(lib, proto, rest).Ok? ==> ParseRest(lib, proto, rest).value.proto == proto
    ensures ParseRest(lib, proto, rest) != Err(MissingScheme) && ParseRest(lib, proto, rest) != Err(UnknownProto)
  {
    if SplitAuthority(rest).Ok? {
      var Authority(host, port, bracketed) := SplitAuthority(rest).value;
      ParsesAt(lib, proto, rest, host, port, bracketed);
      HostFaults(lib, host, bracketed);
      PortFaults(if port.Some? then port.value else "");
      hide SplitAuthority, HasBlank, ParseRest, ParseHost, ParsePort;
    } else {
      SplitsAuthority(rest);
      hide IsAuthority, SplitAuthority, ParseHost, ParsePort, HasWhitespace;
    }
  }

  /** `text` is a scheme's name, `://`, and the rest. */
  ghost predicate HasScheme(text: string, proto: Proto, rest: string) {
    exists name :: ProtoNamed(name, proto) && text == name + "://" + rest
  }

  ghost predicate HasSeparator(text: string) {
    exists i :: 0 <= i <= |text| && StartsWith(text[i..], "://")
  }

  lemma SeparatorsExactly(text: string)
    ensures HasSeparator(text) <==> SplitOnce(text, "://").Some?
  {
    SplitOnceExactly(text, "://");
    hide SplitOnce;
    if SplitOnce(text, "://").Some? {
      var (a, b) := SplitOnce(text, "://").value;
      assert text[|a|..] == "://" + b && ("://" + b)[..3] == "://";
    }
  }

  lemma NameOf(name: string, proto: Proto)
    ensures ProtoNamed(name, proto) <==> ParseProto(name) == Some(proto)
    ensures ProtoNamed(name, proto) <==> name == ProtoText(proto)
  {
  }

  lemma SchemesExactly(text: string, proto: Proto, rest: string)
    ensures HasScheme(text, proto, rest) <==>
            var parts := SplitOnce(text, "://");
            parts.Some? && ParseProto(parts.value.0) == Some(proto) && parts.value.1 == rest
  {
    SplitOnceExactly(text, "://");
    hide SplitOnce, StartsWith, ParseProto, ProtoNamed, ProtoText;
    var parts := SplitOnce(text, "://");
    if HasScheme(text, proto, rest) {
      var name :| ProtoNamed(name, proto) && text == name + "://" + rest;
      NameOf(name, proto);
      PrintedSplits(proto, rest);
    } else if parts.Some? {
      NameOf(parts.value.0, proto);
    }
  }

  /** Exactly the trimmed texts that are a known scheme, a host that means something and
      a port that does are accepted, and every other text for the first thing wrong. */
  lemma ParseExactly<Ip, Net(!new)>(lib: IpLib<Ip, Net>, s: string)
    ensures forall rule :: Parse(lib, s) == Ok(rule) <==>
              exists rest :: HasScheme(Trim(s), rule.proto, rest) && RestMeans(lib, rest, rule)
    ensures Parse(lib, s) == Err(MissingScheme) <==> !HasSeparator(Trim(s))
    ensures Parse(lib, s) == Err(UnknownProto) <==>
              HasSeparator(Trim(s)) && forall proto, rest :: !HasScheme(Trim(s), proto, rest)
    ensures forall e :: e != MissingScheme && e != UnknownProto ==>
              (Parse(lib, s) == Err(e) <==>
               exists proto, rest :: HasScheme(Trim(s), proto, rest) && RestFails(lib, proto, rest, e))
  {
    var text := Trim(s);
    SeparatorsExactly(text);
    var parts := SplitOnce(text, "://");
    hide Trim, SplitOnce, HasSeparator, HasScheme, RestMeans, RestFails, ParseRest, ParseProto;
    forall proto, rest
      ensures HasScheme(text, proto, rest) <==>
              parts.Some? && ParseProto(parts.value.0) == Some(proto) && parts.value.1 == rest
    {
      SchemesExactly(text, proto, rest);
    }
    if parts.Some? && ParseProto(parts.value.0).Some? {
      var proto, rest := ParseProto(parts.value.0).value, parts.value.1;
      assert HasScheme(text, proto, rest);
      RestExactly(lib, proto, rest);
      RestFaults(lib, proto, rest);
    }
  }

  lemma BracketedRest<Ip(!new), Net(!new)>(lib: IpLib<Ip, Net>, proto: Proto, ip: Ip)
    requires Lawful(lib) && lib.ipIsV6(ip)
    ensures var h := lib.showIp(ip);
      && ParseRest(lib, proto, "[" + h + "]") ==
         (if proto == Https then Ok(NetworkRule(proto, Exact(h), ExactPort(443))) else Err(MissingPort))
      && ParseRest(lib, proto, "[" + h + "]:*") == Ok(NetworkRule(proto, Exact(h), AnyPort))
  {
    var h := lib.showIp(ip);
    assert AddressText(h, true, false) && lib.parseIp(h) == Some(ip);
    AddressIsHostOnly(h, true, false);
    assert ParseHost(lib, h, true) == Ok(Exact(h));
    assert !HasBlank(h, None) && !HasBlank(h, Some("*"));
    hide Lawful, AddressText, ParseHost, SplitAuthority, HasBlank, ParseRest;
    BracketedSplits(h, "*");
    assert "[" + h + "]:" + "*" == "[" + h + "]:*" && "[" + h + "]" == "[" + h + "]" + "";
    JoinedPartsSplit("[" + h + "]", h, None, true);
    ParsesAt(lib, proto, "[" + h + "]", h, None, true);
    ParsesAt(lib, proto, "[" + h + "]:*", h, Some("*"), true);
  }

  lemma SchemeParses<Ip(!new), Net(!new)>(lib: IpLib<Ip, Net>, proto: Proto, rest: string)
    requires rest != [] && !IsWhitespace(rest[|rest| - 1])
    ensures Parse(lib, ProtoText(proto) + "://" + rest) == ParseRest(lib, proto, rest)
  {
    PrintedSplits(proto, rest);
    TrimKeeps(ProtoText(proto) + "://" + rest);
    hide Trim, SplitOnce, ProtoText, ParseProto, ParseRest;
  }

  /** So a version-6 address in brackets is accepted with or without a port: without one,
      for https, on its own port, and refused for want of one otherwise. */
  lemma BracketedAddress<Ip(!new), Net(!new)>(lib: IpLib<Ip, Net>, proto: Proto, ip: Ip)
    requires Lawful(lib) && lib.ipIsV6(ip)
    ensures var h := lib.showIp(ip);
      && Parse(lib, ProtoText(proto) + "://" + ("[" + h + "]")) ==
         (if proto == Https then Ok(NetworkRule(proto, Exact(h), ExactPort(443))) else Err(MissingPort))
      && Parse(lib, ProtoText(proto) + "://" + ("[" + h + "]:*")) == Ok(NetworkRule(proto, Exact(h), AnyPort))
  {
    hide Lawful, Parse, ParseRest, ProtoText;
    BracketedRest(lib, proto, ip);
    var h := lib.showIp(ip);
    SchemeParses(lib, proto, "[" + h + "]");
    SchemeParses(lib, proto, "[" + h + "]:*");
  }

  // ---- The laws can be met ----

  datatype Family = V4 | V6

  const TINY_LIB: IpLib<Family, Family> := IpLib(
    (s: string) => if s == "0.0.0.0" then Some(V4) else if s == "::" then Some(V6) else None,
    (f: Family) => if f == V4 then "0.0.0.0" else "::",
    (f: Family) => f == V6,
    (s: string) => if s == "0.0.0.0/0" then Some(V4) else if s == "::/0" then Some(V6) else None,
    (f: Family) => if f == V4 then "0.0.0.0/0" else "::/0",
    (f: Family) => f == V6)

  lemma TinyTexts()
    ensures AddressText("0.0.0.0", false, false) && AddressText("0.0.0.0/0", false, true)
    ensures AddressText("::", true, false) && AddressText("::/0", true, true)
  {
    assert "::"[0] == ':' && "::"[1] == ':';
    assert "::/0"[0] == ':' && "::/0"[1] == ':' && "::/0"[2] == '/';
    assert "0.0.0.0/0"[7] == '/';
  }

  lemma LawsCanBeMet()
    ensures Lawful(TINY_LIB)
  {
    TinyTexts();
    hide AddressText;
  }
}
