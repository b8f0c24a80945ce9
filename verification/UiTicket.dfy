/**
  Signed text tokens: the UI tickets of crates/oxidhome-core/src/api/ui_ticket.rs and the
  pagination cursors of crates/oxidhome-core/src/state/device_state.rs.  The keyed hash
  is an arbitrary function from payloads to 32 bytes.
 */
module SignedText {
  import opened Prelude
  import opened Text

  type Byte = bv8

  type Mac = string -> seq<Byte>

  const MAC_BYTES: nat := 16

  ghost predicate IsMac(mac: Mac) {
    forall s :: |mac(s)| == 32
  }

  // ---- Hexadecimal ----

  function HexDigit(d: nat): char
    requires d < 16
  {
    if d < 10 then '0' + d as char else 'a' + (d - 10) as char
  }

  /** Either case is accepted. */
  function HexValue(c: char): (r: Option<nat>)
    ensures r.Some? ==> r.value < 16
  {
    if '0' <= c <= '9' then Some(c as int - '0' as int)
    else if 'a' <= c <= 'f' then Some(c as int - 'a' as int + 10)
    else if 'A' <= c <= 'F' then Some(c as int - 'A' as int + 10)
    else None
  }

  predicate IsAscii(s: string) {
    forall i :: 0 <= i < |s| ==> s[i] as int < 0x80
  }

  function HexPair(n: nat): (s: string)
    requires n < 256
    ensures |s| == 2
  {
    [HexDigit(n / 16), HexDigit(n % 16)]
  }

  /** Two characters parsed as an 8-bit number in base 16; a plus sign may replace the
      first digit. */
  function ParsePair(c: char, d: char): (r: Option<nat>)
    ensures r.Some? ==> r.value < 256
  {
    var lo := HexValue(d);
    var hi := if c == '+' then Some(0) else HexValue(c);
    if hi.None? || lo.None? then None else Some(16 * hi.value + lo.value)
  }

  function HexByte(b: Byte): (s: string)
    ensures |s| == 2
  {
    HexPair(b as int)
  }

  function ParseHexByte(c: char, d: char): Option<Byte> {
    var n := ParsePair(c, d);
    if n.None? then None else Some(n.value as bv8)
  }

  function Hex(bytes: seq<Byte>): string {
    if bytes == [] then "" else Hex(bytes[..|bytes| - 1]) + HexByte(bytes[|bytes| - 1])
  }

  function ParseHex(s: string): Option<seq<Byte>> {
    if |s| < 2 then Some([])
    else
      var front := ParseHex(s[..|s| - 2]);
      var last := ParseHexByte(s[|s| - 2], s[|s| - 1]);
      if front.None? || last.None? then None else Some(front.value + [last.value])
  }

  lemma HexDigitRoundTrip(d: nat)
    requires d < 16
    ensures HexValue(HexDigit(d)) == Some(d) && HexDigit(d) != '+'
  {
  }

  lemma HexPairRoundTrip(n: nat)
    requires n < 256
    ensures ParsePair(HexPair(n)[0], HexPair(n)[1]) == Some(n)
  {
    HexDigitRoundTrip(n / 16);
    HexDigitRoundTrip(n % 16);
  }

  lemma BitsRoundTrip(b: Byte)
    ensures (b as int) as bv8 == b
  {
  }

  lemma HexByteRoundTrip(b: Byte)
    ensures ParseHexByte(HexByte(b)[0], HexByte(b)[1]) == Some(b)
  {
    hide ParsePair, HexPair;
    HexPairRoundTrip(b as int);
    BitsRoundTrip(b);
  }

  lemma ParseHexSnoc(front: string, last: string)
    requires |last| == 2 && |front| % 2 == 0
    ensures var f, b := ParseHex(front), ParseHexByte(last[0], last[1]);
      ParseHex(front + last) == if f.None? || b.None? then None else Some(f.value + [b.value])
  {
    hide ParseHexByte;
    assert (front + last)[..|front|] == front;
  }

  lemma HexUnfold(bytes: seq<Byte>)
    requires bytes != []
    ensures Hex(bytes) == Hex(bytes[..|bytes| - 1]) + HexByte(bytes[|bytes| - 1])
  {
  }

  lemma {:induction false} HexRoundTrip(bytes: seq<Byte>)
    ensures |Hex(bytes)| == 2 * |bytes| && ParseHex(Hex(bytes)) == Some(bytes)
  {
    if bytes == [] {
    } else {
      var n := |bytes| - 1;
      HexUnfold(bytes);
      hide HexByte, Hex, ParseHexByte, ParseHex;
      HexRoundTrip(bytes[..n]);
      HexByteRoundTrip(bytes[n]);
      ParseHexSnoc(Hex(bytes[..n]), HexByte(bytes[n]));
      assert bytes == bytes[..n] + [bytes[n]];
    }
  }

  /** Hex text is ASCII and has no separators in it. */
  lemma {:induction false} HexChars(bytes: seq<Byte>, c: char)
    requires HexValue(c).None?
    ensures c !in Hex(bytes)
    ensures IsAscii(Hex(bytes))
  {
    if bytes == [] {
    } else {
      var n := |bytes| - 1;
      HexUnfold(bytes);
      hide Hex;
      HexChars(bytes[..n], c);
      HexDigitRoundTrip(bytes[n] as int / 16);
      HexDigitRoundTrip(bytes[n] as int % 16);
    }
  }

  lemma {:induction false} HexIsLowerCase(bytes: seq<Byte>)
    ensures forall c :: c in Hex(bytes) ==> '0' <= c <= '9' || 'a' <= c <= 'f'
  {
    if bytes == [] {
    } else {
      HexUnfold(bytes);
      hide Hex;
      HexIsLowerCase(bytes[..|bytes| - 1]);
    }
  }

  /** Write bytes as lower-case hex. */
  method WriteHex(bytes: seq<Byte>) returns (hex: string)
    ensures hex == Hex(bytes)
    ensures forall c :: c in hex ==> '0' <= c <= '9' || 'a' <= c <= 'f'
  {
    HexIsLowerCase(bytes);
    hex := "";
    for i := 0 to |bytes|
      invariant hex == Hex(bytes[..i])
    {
      assert bytes[..i + 1][..i] == bytes[..i];
      hex := hex + HexByte(bytes[i]);
    }
    assert bytes[..|bytes|] == bytes;
  }

  lemma {:induction false} AsciiLen(s: string)
    requires IsAscii(s)
    ensures Utf8Len(s) == |s|
  {
    if s == [] {
    } else {
      AsciiLen(s[..|s| - 1]);
    }
  }

  /** The supplied MAC, byte by byte, into a 16-byte buffer. */
  method FillSupplied(hex: string, supplied: array<Byte>) returns (ok: bool)
    requires |hex| == 2 * MAC_BYTES && supplied.Length == MAC_BYTES
    modifies supplied
    ensures ok <==> ParseHex(hex).Some?
    ensures ok ==> Some(supplied[..]) == ParseHex(hex)
  {
    for i := 0 to MAC_BYTES
      invariant Some(supplied[..i]) == ParseHex(hex[..2 * i])
    {
      assert hex[..2 * (i + 1)][..2 * i] == hex[..2 * i];
      var b := ParseHexByte(hex[2 * i], hex[2 * i + 1]);
      if b.None? {
        PrefixFails(hex, i + 1);
        return false;
      }
      supplied[i] := b.value;
      assert supplied[..i + 1] == supplied[..i] + [b.value];
    }
    assert hex[..2 * MAC_BYTES] == hex && supplied[..MAC_BYTES] == supplied[..];
    ok := true;
  }

  lemma {:induction false} PrefixFails(hex: string, i: nat)
    requires 2 * i <= |hex| && |hex| % 2 == 0 && ParseHex(hex[..2 * i]).None?
    ensures ParseHex(hex).None?
    decreases |hex|
  {
    if 2 * i == |hex| {
      assert hex[..2 * i] == hex;
    } else {
      assert hex[..|hex| - 2][..2 * i] == hex[..2 * i];
      PrefixFails(hex[..|hex| - 2], i);
    }
  }

  /** Compare without an early exit: accumulate the differing bits. */
  method ConstantTimeEq(a: seq<Byte>, b: seq<Byte>) returns (eq: bool)
    ensures eq <==> a == b
  {
    if |a| != |b| {
      return false;
    }
    var diff: Byte := 0;
    for i := 0 to |a|
      invariant diff == 0 <==> a[..i] == b[..i]
    {
      assert a[..i + 1] == a[..i] + [a[i]] && b[..i + 1] == b[..i] + [b[i]];
      OrXorIsZero(diff, a[i], b[i]);
      diff := diff | (a[i] ^ b[i]);
    }
    assert a[..|a|] == a && b[..|b|] == b;
    eq := diff == 0;
  }

  lemma OrXorIsZero(d: Byte, x: Byte, y: Byte)
    ensures d | (x ^ y) == 0 <==> d == 0 && x == y
  {
  }

  // ---- Payload, separator, MAC ----

  function Signed(mac: Mac, sep: char, payload: string): string
    requires |mac(payload)| == 32
  {
    payload + [sep] + Hex(mac(payload)[..MAC_BYTES])
  }

  /** Split at the last separator. */
  function SplitLast(s: string, sep: char): Option<(string, string)> {
    var i := LastIndexOf(s, sep);
    if i.None? then None else Some((s[..i.value], s[i.value + 1..]))
  }

  datatype Parts = Parts(first: string, second: string, third: string)

  /** Split at the first two separators; the third part keeps the rest. */
  function SplitThree(s: string, sep: char): Option<Parts> {
    var i := IndexOf(s, sep);
    if i.None? then None
    else
      var rest := s[i.value + 1..];
      var j := IndexOf(rest, sep);
      if j.None? then None else Some(Parts(s[..i.value], rest[..j.value], rest[j.value + 1..]))
  }

  function Payload(sep: char, parts: Parts): string {
    parts.first + [sep] + parts.second + [sep] + parts.third
  }

  lemma SplitThreeJoins(sep: char, parts: Parts)
    requires sep !in parts.first && sep !in parts.second
    ensures SplitThree(Payload(sep, parts), sep) == Some(parts)
  {
    hide IndexOf;
    var s := Payload(sep, parts);
    var rest := parts.second + [sep] + parts.third;
    assert s == parts.first + [sep] + rest;
    IndexOfFirst(parts.first, sep, rest);
    assert s[..|parts.first|] == parts.first && s[|parts.first| + 1..] == rest;
    IndexOfFirst(parts.second, sep, parts.third);
    assert rest[..|parts.second|] == parts.second && rest[|parts.second| + 1..] == parts.third;
  }

  lemma SplitThreeSplits(s: string, sep: char)
    requires SplitThree(s, sep).Some?
    ensures Payload(sep, SplitThree(s, sep).value) == s
    ensures sep !in SplitThree(s, sep).value.first && sep !in SplitThree(s, sep).value.second
  {
  }

  lemma SplitLastSigned(mac: Mac, sep: char, payload: string)
    requires |mac(payload)| == 32 && HexValue(sep).None?
    ensures var hex := Hex(mac(payload)[..MAC_BYTES]);
      && SplitLast(Signed(mac, sep, payload), sep) == Some((payload, hex))
      && |hex| == 2 * MAC_BYTES && Utf8Len(hex) == 2 * MAC_BYTES && IsAscii(hex)
      && ParseHex(hex) == Some(mac(payload)[..MAC_BYTES])
  {
    var hex := Hex(mac(payload)[..MAC_BYTES]);
    HexRoundTrip(mac(payload)[..MAC_BYTES]);
    HexChars(mac(payload)[..MAC_BYTES], sep);
    AsciiLen(hex);
    LastIndexOfLast(payload, sep, hex);
    assert Signed(mac, sep, payload)[..|payload|] == payload;
    assert Signed(mac, sep, payload)[|payload| + 1..] == hex;
  }

  /** The MAC check: 32 bytes of text, all hex, equal to the MAC of the payload.  A byte
      outside ASCII can neither end a chunk nor be a digit. */
  ghost predicate MacMatches(mac: Mac, payload: string, hex: string) {
    && Utf8Len(hex) == 2 * MAC_BYTES && IsAscii(hex)
    && |mac(payload)| == 32 && ParseHex(hex) == Some(mac(payload)[..MAC_BYTES])
  }

  // ---- What the MAC text says, digit by digit ----

  /** A hexadecimal digit of either case. */
  ghost predicate DigitDenotes(c: char, v: nat) {
    || ('0' <= c <= '9' && v == c as int - '0' as int)
    || ('a' <= c <= 'f' && v == c as int - 'a' as int + 10)
    || ('A' <= c <= 'F' && v == c as int - 'A' as int + 10)
  }

  /** Two digits, or a plus sign and one digit. */
  ghost predicate PairNumber(c: char, d: char, n: nat) {
    exists hi: nat, lo: nat :: (DigitDenotes(c, hi) || (c == '+' && hi == 0)) && DigitDenotes(d, lo)
                               && n == 16 * hi + lo
  }

  predicate IsByte(n: nat, b: Byte) {
    n < 256 && n as bv8 == b
  }

  ghost predicate PairDenotes(c: char, d: char, b: Byte) {
    exists n: nat :: PairNumber(c, d, n) && IsByte(n, b)
  }

  ghost predicate Denotes(hex: string, bytes: seq<Byte>) {
    && |hex| == 2 * |bytes|
    && forall i :: 0 <= i < |bytes| ==> PairDenotes(hex[2 * i], hex[2 * i + 1], bytes[i])
  }

  /** `hex` is the text of the first 16 bytes of the payload's MAC. */
  ghost predicate IsMacText(mac: Mac, payload: string, hex: string) {
    |mac(payload)| == 32 && Denotes(hex, mac(payload)[..16])
  }

  lemma DigitParses(c: char, v: nat)
    ensures DigitDenotes(c, v) <==> HexValue(c) == Some(v)
    ensures DigitDenotes(c, v) ==> c as int < 0x80 && c != '+'
  {
  }

  lemma PairIsNumber(c: char, d: char, n: nat)
    ensures ParsePair(c, d) == Some(n) <==> PairNumber(c, d, n)
    ensures PairNumber(c, d, n) ==> c as int < 0x80 && d as int < 0x80
  {
    if ParsePair(c, d).Some? {
      DigitParses(d, HexValue(d).value);
      DigitParses(c, if c == '+' then 0 else HexValue(c).value);
    }
    hide DigitDenotes, HexValue;
    if PairNumber(c, d, n) {
      var hi: nat, lo: nat :| (DigitDenotes(c, hi) || (c == '+' && hi == 0)) && DigitDenotes(d, lo)
                              && n == 16 * hi + lo;
      DigitParses(c, hi);
      DigitParses(d, lo);
    }
  }

  lemma PairParses(c: char, d: char, b: Byte)
    ensures ParseHexByte(c, d) == Some(b) <==> PairDenotes(c, d, b)
    ensures PairDenotes(c, d, b) ==> c as int < 0x80 && d as int < 0x80
  {
    if ParsePair(c, d).Some? {
      PairIsNumber(c, d, ParsePair(c, d).value);
    }
    hide ParsePair, PairNumber;
    if PairDenotes(c, d, b) {
      var n: nat :| PairNumber(c, d, n) && IsByte(n, b);
      PairIsNumber(c, d, n);
    }
  }

  lemma DenotesSnoc(hex: string, bytes: seq<Byte>)
    requires |hex| == 2 * |bytes| && bytes != []
    ensures var n := |bytes| - 1;
      Denotes(hex, bytes) <==> Denotes(hex[..2 * n], bytes[..n]) && PairDenotes(hex[2 * n], hex[2 * n + 1], bytes[n])
  {
    hide PairDenotes;
    var n := |bytes| - 1;
    if Denotes(hex[..2 * n], bytes[..n]) && PairDenotes(hex[2 * n], hex[2 * n + 1], bytes[n]) {
      forall i | 0 <= i < |bytes|
        ensures PairDenotes(hex[2 * i], hex[2 * i + 1], bytes[i])
      {
        assert i < n ==> PairDenotes(hex[..2 * n][2 * i], hex[..2 * n][2 * i + 1], bytes[..n][i]);
      }
    }
  }

  lemma {:induction false} HexParses(hex: string, bytes: seq<Byte>)
    requires |hex| == 2 * |bytes|
    ensures ParseHex(hex) == Some(bytes) <==> Denotes(hex, bytes)
  {
    if bytes == [] {
    } else {
      hide ParseHexByte, PairDenotes;
      var n := |bytes| - 1;
      DenotesSnoc(hex, bytes);
      HexParses(hex[..2 * n], bytes[..n]);
      PairParses(hex[2 * n], hex[2 * n + 1], bytes[n]);
      hide Denotes;
      assert bytes == bytes[..n] + [bytes[n]];
    }
  }

  lemma DenotesAscii(hex: string, bytes: seq<Byte>)
    requires Denotes(hex, bytes)
    ensures IsAscii(hex) && Utf8Len(hex) == |hex|
  {
    forall j | 0 <= j < |hex|
      ensures hex[j] as int < 0x80
    {
      PairParses(hex[2 * (j / 2)], hex[2 * (j / 2) + 1], bytes[j / 2]);
    }
    AsciiLen(hex);
  }

  lemma MacMatchesText(mac: Mac, payload: string, hex: string)
    ensures MacMatches(mac, payload, hex) <==> IsMacText(mac, payload, hex)
  {
    if |mac(payload)| == 32 {
      var bytes := mac(payload)[..16];
      if Denotes(hex, bytes) {
        DenotesAscii(hex, bytes);
      }
      if IsAscii(hex) {
        AsciiLen(hex);
      }
      if |hex| == 32 {
        HexParses(hex, bytes);
      }
    }
  }

  lemma SplitLastIsJoined(raw: string, sep: char, payload: string, hex: string)
    ensures SplitLast(raw, sep) == Some((payload, hex)) <==> raw == payload + [sep] + hex && sep !in hex
  {
    hide LastIndexOf;
    if sep !in hex {
      LastIndexOfLast(payload, sep, hex);
      assert (payload + [sep] + hex)[..|payload|] == payload && (payload + [sep] + hex)[|payload| + 1..] == hex;
    }
  }

  lemma SplitThreeIsJoined(sep: char, parts: Parts)
    ensures SplitThree(Payload(sep, parts), sep) == Some(parts) <==> sep !in parts.first && sep !in parts.second
  {
    if sep !in parts.first && sep !in parts.second {
      SplitThreeJoins(sep, parts);
    }
    if SplitThree(Payload(sep, parts), sep) == Some(parts) {
      SplitThreeSplits(Payload(sep, parts), sep);
    }
  }

  method CheckMac(mac: Mac, payload: string, hex: string) returns (ok: bool)
    requires |mac(payload)| == 32
    ensures ok <==> MacMatches(mac, payload, hex)
  {
    if Utf8Len(hex) != 2 * MAC_BYTES || !IsAscii(hex) {
      return false;
    }
    AsciiLen(hex);
    var supplied := new Byte[MAC_BYTES];
    var filled := FillSupplied(hex, supplied);
    if !filled {
      return false;
    }
    ok := ConstantTimeEq(mac(payload)[..MAC_BYTES], supplied[..]);
  }
}

/** Issuing and verifying UI tickets, `<expiry>~<plugin>~<installation>~<mac>`. */
module UiTicket {
  import opened Prelude
  import opened Text
  import opened SignedText

  const TTL_NANOS: int := 300_000_000_000
  const NANOS_PER_MS: int := 1_000_000
  const U64_MAX: nat := 0xFFFF_FFFF_FFFF_FFFF
  const MAX_TICKET_LEN: nat := 512

  /** Latest representable system time: 64-bit signed seconds, in nanoseconds. */
  const MAX_NANOS: int := 0x7FFF_FFFF_FFFF_FFFF * 1_000_000_000 + 999_999_999

  datatype TicketError = Bad | Expired

  datatype DecodedTicket = DecodedTicket(pluginId: string, installationUuid: string)

  /** Milliseconds since the epoch at `now + TTL`; zero before the epoch or when the sum
      is not representable, saturated to 64 bits. */
  function ExpiryMs(now: int): nat {
    if now + TTL_NANOS > MAX_NANOS || now + TTL_NANOS < 0 then 0
    else if (now + TTL_NANOS) / NANOS_PER_MS <= U64_MAX then (now + TTL_NANOS) / NANOS_PER_MS
    else U64_MAX
  }

  /** The verifier's clock: zero before the epoch and beyond 64 bits of milliseconds. */
  function NowMs(now: int): nat {
    if now < 0 || now / NANOS_PER_MS > U64_MAX then 0 else now / NANOS_PER_MS
  }

  function TicketPayload(expiry: nat, pluginId: string, uuid: string): string {
    Payload('~', Parts(Decimal(expiry), pluginId, uuid))
  }

  function Issued(mac: Mac, pluginId: string, uuid: string, now: int): string
    requires IsMac(mac)
  {
    Signed(mac, '~', TicketPayload(ExpiryMs(now), pluginId, uuid))
  }

  method Issue(mac: Mac, pluginId: string, uuid: string, now: int) returns (ticket: string)
    requires IsMac(mac)
    ensures ticket == Issued(mac, pluginId, uuid, now)
  {
    var expiry := 0;
    if now + TTL_NANOS <= MAX_NANOS {
      var later := now + TTL_NANOS;
      if later >= 0 {
        expiry := if later / NANOS_PER_MS <= U64_MAX then later / NANOS_PER_MS else U64_MAX;
      }
    }
    var payload := Decimal(expiry) + "~" + pluginId + "~" + uuid;
    assert payload == TicketPayload(expiry, pluginId, uuid);
    var hex := WriteHex(mac(payload)[..MAC_BYTES]);
    ticket := payload + "~" + hex;
  }

  /** A ticket within the length cap: three nonempty parts, a number first, and the MAC
      of its own payload last. */
  ghost predicate Authentic(mac: Mac, raw: string) {
    && Utf8Len(raw) <= MAX_TICKET_LEN
    && SplitLast(raw, '~').Some?
    && var (payload, hex) := SplitLast(raw, '~').value;
    && SplitThree(payload, '~').Some?
    && var parts := SplitThree(payload, '~').value;
    && parts.first != "" && parts.second != "" && parts.third != ""
    && ParseUnsigned(parts.first, U64_MAX).Some?
    && MacMatches(mac, payload, hex)
  }

  ghost function Verified(mac: Mac, raw: string, now: int): Result<DecodedTicket, TicketError> {
    if !Authentic(mac, raw) then Err(Bad)
    else
      var parts := SplitThree(SplitLast(raw, '~').value.0, '~').value;
      if NowMs(now) >= ParseUnsigned(parts.first, U64_MAX).value then Err(Expired)
      else Ok(DecodedTicket(parts.second, parts.third))
  }

  /** An expiry of 64 bits, a plugin id without a tilde and an installation, none of them
      empty, joined by tildes and followed by the MAC text of all that. */
  ghost predicate Carries(mac: Mac, raw: string, expiry: string, ms: nat, claims: DecodedTicket, hex: string) {
    && raw == expiry + "~" + claims.pluginId + "~" + claims.installationUuid + "~" + hex
    && Utf8Len(raw) <= 512 && Reads(expiry, ms) && ms <= 0xFFFF_FFFF_FFFF_FFFF
    && claims.pluginId != "" && '~' !in claims.pluginId && claims.installationUuid != "" && '~' !in hex
    && IsMacText(mac, expiry + "~" + claims.pluginId + "~" + claims.installationUuid, hex)
  }

  /** The text carries these claims, and its expiry is ahead of the clock. */
  ghost predicate CarriesNow(mac: Mac, raw: string, now: int, claims: DecodedTicket) {
    exists expiry, ms: nat, hex :: Carries(mac, raw, expiry, ms, claims, hex) && NowMs(now) < ms
  }

  /** The text carries some claims, and its expiry is not. */
  ghost predicate HasLapsed(mac: Mac, raw: string, now: int) {
    exists expiry, ms: nat, claims, hex :: Carries(mac, raw, expiry, ms, claims, hex) && ms <= NowMs(now)
  }

  lemma CarriedIsAuthentic(mac: Mac, raw: string, expiry: string, ms: nat, claims: DecodedTicket, hex: string)
    ensures Carries(mac, raw, expiry, ms, claims, hex) <==>
            && Authentic(mac, raw) && ParseUnsigned(expiry, U64_MAX) == Some(ms)
            && SplitLast(raw, '~') == Some((expiry + "~" + claims.pluginId + "~" + claims.installationUuid, hex))
            && SplitThree(SplitLast(raw, '~').value.0, '~') ==
               Some(Parts(expiry, claims.pluginId, claims.installationUuid))
  {
    var parts := Parts(expiry, claims.pluginId, claims.installationUuid);
    var payload := Payload('~', parts);
    assert payload == expiry + "~" + claims.pluginId + "~" + claims.installationUuid;
    SplitLastIsJoined(raw, '~', payload, hex);
    SplitThreeIsJoined('~', parts);
    ParsesWhatItReads(expiry, U64_MAX);
    MacMatchesText(mac, payload, hex);
    assert Reads(expiry, ms) ==> '~' !in expiry;
    hide SplitLast, SplitThree, Utf8Len, ParseUnsigned, Reads, IsMacText, MacMatches;
  }

  lemma AuthenticIsCarried(mac: Mac, raw: string)
    requires Authentic(mac, raw)
    ensures var (payload, hex) := SplitLast(raw, '~').value;
      var parts := SplitThree(payload, '~').value;
      Carries(mac, raw, parts.first, ParseUnsigned(parts.first, U64_MAX).value,
              DecodedTicket(parts.second, parts.third), hex)
  {
    var (payload, hex) := SplitLast(raw, '~').value;
    var parts := SplitThree(payload, '~').value;
    SplitThreeSplits(payload, '~');
    assert payload == parts.first + "~" + parts.second + "~" + parts.third;
    hide Carries, SplitLast, SplitThree, Authentic, ParseUnsigned;
    CarriedIsAuthentic(mac, raw, parts.first, ParseUnsigned(parts.first, U64_MAX).value,
        DecodedTicket(parts.second, parts.third), hex);
  }

  /** Exactly the texts that carry their own MAC and have not expired are accepted, and
      exactly those that carry it and have are reported as expired. */
  lemma VerifiedExactly(mac: Mac, raw: string, now: int)
    ensures forall claims :: Verified(mac, raw, now) == Ok(claims) <==> CarriesNow(mac, raw, now, claims)
    ensures Verified(mac, raw, now) == Err(Expired) <==> HasLapsed(mac, raw, now)
  {
    forall expiry, ms: nat, claims, hex | Carries(mac, raw, expiry, ms, claims, hex)
      ensures && Authentic(mac, raw) && ParseUnsigned(expiry, U64_MAX) == Some(ms)
              && SplitLast(raw, '~').Some?
              && SplitThree(SplitLast(raw, '~').value.0, '~') ==
                 Some(Parts(expiry, claims.pluginId, claims.installationUuid))
    {
      CarriedIsAuthentic(mac, raw, expiry, ms, claims, hex);
    }
    if Authentic(mac, raw) {
      AuthenticIsCarried(mac, raw);
    }
    hide Carries, SplitLast, SplitThree, ParseUnsigned, NowMs;
  }

  method Verify(mac: Mac, raw: string, now: int) returns (r: Result<DecodedTicket, TicketError>)
    requires IsMac(mac)
    ensures r == Verified(mac, raw, now)
    ensures forall claims :: r == Ok(claims) <==> CarriesNow(mac, raw, now, claims)
    ensures r == Err(Expired) <==> HasLapsed(mac, raw, now)
  {
    hide CarriesNow, HasLapsed;
    VerifiedExactly(mac, raw, now);
    if Utf8Len(raw) > MAX_TICKET_LEN {
      return Err(Bad);
    }
    var split := SplitLast(raw, '~');
    if split.None? {
      return Err(Bad);
    }
    var (payload, hex) := split.value;
    var three := SplitThree(payload, '~');
    if three.None? {
      return Err(Bad);
    }
    var parts := three.value;
    if parts.first == "" || parts.second == "" || parts.third == "" || Utf8Len(hex) != 32 {
      return Err(Bad);
    }
    var expiry := ParseUnsigned(parts.first, U64_MAX);
    if expiry.None? {
      return Err(Bad);
    }
    var ok := CheckMac(mac, payload, hex);
    if !ok {
      return Err(Bad);
    }
    if NowMs(now) >= expiry.value {
      return Err(Expired);
    }
    r := Ok(DecodedTicket(parts.second, parts.third));
  }

  lemma TildeIsNoDigit(s: string)
    requires AllDigits(s)
    ensures '~' !in s
  {
  }

  /** What verifying an issued ticket sees. */
  lemma IssuedParts(mac: Mac, pluginId: string, uuid: string, now: int)
    requires IsMac(mac)
    ensures var raw := Issued(mac, pluginId, uuid, now);
      var payload := TicketPayload(ExpiryMs(now), pluginId, uuid);
      && SplitLast(raw, '~').Some? && SplitLast(raw, '~').value.0 == payload
      && MacMatches(mac, payload, SplitLast(raw, '~').value.1)
    ensures ParseUnsigned(Decimal(ExpiryMs(now)), U64_MAX) == Some(ExpiryMs(now)) && Decimal(ExpiryMs(now)) != ""
  {
    SplitLastSigned(mac, '~', TicketPayload(ExpiryMs(now), pluginId, uuid));
    ParseDecimal(ExpiryMs(now), U64_MAX);
  }

  /** Issue then verify, for any keyed function and at any time: a nonempty plugin id
      without `~`, a nonempty uuid and a ticket within the cap give the same claims back
      while the clock reads less than the expiry, and `Expired` from then on. */
  lemma IssueThenVerify(mac: Mac, pluginId: string, uuid: string, now: int, later: int)
    requires IsMac(mac)
    requires pluginId != "" && '~' !in pluginId && uuid != ""
    requires Utf8Len(Issued(mac, pluginId, uuid, now)) <= MAX_TICKET_LEN
    ensures Verified(mac, Issued(mac, pluginId, uuid, now), later) ==
            if NowMs(later) < ExpiryMs(now) then Ok(DecodedTicket(pluginId, uuid)) else Err(Expired)
  {
    IssuedParts(mac, pluginId, uuid, now);
    TildeIsNoDigit(Decimal(ExpiryMs(now)));
    SplitThreeJoins('~', Parts(Decimal(ExpiryMs(now)), pluginId, uuid));
    hide Decimal, ParseUnsigned, Issued, MacMatches, SplitLast, SplitThree;
  }

  lemma AcceptedParts(mac: Mac, pluginId: string, uuid: string, now: int, later: int)
    requires IsMac(mac)
    requires Verified(mac, Issued(mac, pluginId, uuid, now), later) == Ok(DecodedTicket(pluginId, uuid))
    ensures pluginId != "" && '~' !in pluginId && uuid != ""
    ensures Utf8Len(Issued(mac, pluginId, uuid, now)) <= MAX_TICKET_LEN
  {
    IssuedParts(mac, pluginId, uuid, now);
    SplitThreeSplits(TicketPayload(ExpiryMs(now), pluginId, uuid), '~');
    hide Issued, SplitLast, SplitThree, MacMatches, Decimal, ParseUnsigned, Utf8Len, Payload, ExpiryMs, NowMs;
  }

  /** A `~` inside the plugin id moves the claims: the round trip gives its own claims
      back exactly under the conditions above. */
  lemma RoundTripExactly(mac: Mac, pluginId: string, uuid: string, now: int, later: int)
    requires IsMac(mac)
    ensures Verified(mac, Issued(mac, pluginId, uuid, now), later) == Ok(DecodedTicket(pluginId, uuid)) <==>
            && pluginId != "" && '~' !in pluginId && uuid != ""
            && Utf8Len(Issued(mac, pluginId, uuid, now)) <= MAX_TICKET_LEN && NowMs(later) < ExpiryMs(now)
  {
    hide Verified, Issued, ExpiryMs, NowMs, Utf8Len;
    if Verified(mac, Issued(mac, pluginId, uuid, now), later) == Ok(DecodedTicket(pluginId, uuid)) {
      AcceptedParts(mac, pluginId, uuid, now, later);
    }
    if pluginId != "" && '~' !in pluginId && uuid != "" && Utf8Len(Issued(mac, pluginId, uuid, now)) <= MAX_TICKET_LEN {
      IssueThenVerify(mac, pluginId, uuid, now, later);
    }
  }

  /** In wall-clock terms, while times fit: a ticket is good for exactly its lifetime. */
  lemma LifetimeIsTtl(now: int, later: int)
    requires 0 <= now + 300_000_000_000 <= MAX_NANOS && (now + 300_000_000_000) / 1_000_000 <= U64_MAX
    requires 0 <= later && later / 1_000_000 <= U64_MAX
    ensures NowMs(later) < ExpiryMs(now) <==> later / 1_000_000 < (now + 300_000_000_000) / 1_000_000
    ensures later >= now + 300_000_000_000 ==> NowMs(later) >= ExpiryMs(now)
    ensures later + 1_000_000 <= now + 300_000_000_000 ==> NowMs(later) < ExpiryMs(now)
  {
  }

  /** Outside those times: a ticket whose expiry is not representable, or lies before the
      epoch, is never good; and a clock before the epoch, or beyond 64 bits of
      milliseconds, reads zero. */
  lemma ClockEdges(now: int, later: int)
    ensures now + 300_000_000_000 > MAX_NANOS || now + 300_000_000_000 < 0 ==> NowMs(later) >= ExpiryMs(now)
    ensures later < 0 || later / 1_000_000 > 0xFFFF_FFFF_FFFF_FFFF ==> NowMs(later) == 0
    ensures ExpiryMs(now) <= 0xFFFF_FFFF_FFFF_FFFF
  {
  }

  /** Only a text that carries the MAC of its own payload is ever accepted. */
  lemma AcceptedIsSigned(mac: Mac, raw: string, now: int)
    requires Verified(mac, raw, now).Ok?
    ensures exists payload, hex :: raw == payload + "~" + hex && MacMatches(mac, payload, hex)
  {
    hide MacMatches, SplitThree, ParseUnsigned, Utf8Len, NowMs;
    SplitLastJoins(raw, '~');
  }

  lemma SplitLastJoins(s: string, sep: char)
    requires SplitLast(s, sep).Some?
    ensures s == SplitLast(s, sep).value.0 + [sep] + SplitLast(s, sep).value.1
  {
  }
}

/** Pagination cursors, `<epoch>.<revision>.<device>.<mac>`. */
module Cursor {
  import opened Prelude
  import opened Text
  import opened SignedText

  const U64_MAX: nat := 0xFFFF_FFFF_FFFF_FFFF

  datatype CursorError = Bad | EpochChanged

  datatype CursorFields = CursorFields(epoch: string, pinned: nat, device: string)

  function IssuedCursor(mac: Mac, epoch: string, pinned: nat, device: string): string
    requires IsMac(mac)
  {
    Signed(mac, '.', Payload('.', Parts(epoch, Decimal(pinned), device)))
  }

  /** `current` is the store's epoch; it is compared before the MAC. */
  ghost function VerifiedCursor(mac: Mac, current: string, raw: string): Result<CursorFields, CursorError> {
    if SplitLast(raw, '.').None? then Err(Bad)
    else
      var (payload, hex) := SplitLast(raw, '.').value;
      if SplitThree(payload, '.').None? then Err(Bad)
      else
        var parts := SplitThree(payload, '.').value;
        var pinned := ParseUnsigned(parts.second, U64_MAX);
        if parts.first == "" || parts.third == "" || Utf8Len(hex) != 32 || pinned.None? then Err(Bad)
        else if parts.first != current then Err(EpochChanged)
        else if MacMatches(mac, payload, hex) then Ok(CursorFields(parts.first, pinned.value, parts.third))
        else Err(Bad)
  }

  /** An epoch without a dot, a 64-bit revision, a device and 32 bytes of text without a
      dot, joined by dots; epoch and device are not empty. */
  ghost predicate Carries(raw: string, epoch: string, rev: string, pinned: nat, device: string, hex: string) {
    && raw == epoch + "." + rev + "." + device + "." + hex
    && epoch != "" && '.' !in epoch && device != ""
    && Reads(rev, pinned) && pinned <= 0xFFFF_FFFF_FFFF_FFFF
    && '.' !in hex && Utf8Len(hex) == 32
  }

  /** The text carries these fields and the MAC text of what precedes it. */
  ghost predicate IsSigned(mac: Mac, raw: string, f: CursorFields) {
    exists rev, hex :: Carries(raw, f.epoch, rev, f.pinned, f.device, hex)
                       && IsMacText(mac, f.epoch + "." + rev + "." + f.device, hex)
  }

  /** The text has the shape of a cursor, signed or not, of another epoch. */
  ghost predicate OfAnotherLife(current: string, raw: string) {
    exists epoch, rev, pinned: nat, device, hex :: Carries(raw, epoch, rev, pinned, device, hex) && epoch != current
  }

  datatype Shape = Shape(parts: Parts, pinned: nat, hex: string)

  /** What a text splits into, if it has the shape of a cursor. */
  ghost function ShapeOf(raw: string): Option<Shape> {
    if SplitLast(raw, '.').None? then None
    else
      var (payload, hex) := SplitLast(raw, '.').value;
      if SplitThree(payload, '.').None? then None
      else
        var parts := SplitThree(payload, '.').value;
        var pinned := ParseUnsigned(parts.second, U64_MAX);
        if parts.first != "" && parts.third != "" && Utf8Len(hex) == 32 && pinned.Some? then
          Some(Shape(parts, pinned.value, hex))
        else None
  }

  lemma ShapeJoins(raw: string)
    requires ShapeOf(raw).Some?
    ensures var shape := ShapeOf(raw).value;
      SplitLast(raw, '.') == Some((Payload('.', shape.parts), shape.hex))
  {
    SplitThreeSplits(SplitLast(raw, '.').value.0, '.');
    hide SplitLast, SplitThree, ParseUnsigned, Utf8Len;
  }

  lemma RevisionReads(rev: string, pinned: nat)
    ensures ParseUnsigned(rev, U64_MAX) == Some(pinned) <==> Reads(rev, pinned) && pinned <= U64_MAX
    ensures Reads(rev, pinned) ==> '.' !in rev
  {
    ParsesWhatItReads(rev, U64_MAX);
    hide ParseUnsigned, Reads;
  }

  lemma ShapeIsCarried(raw: string, epoch: string, rev: string, pinned: nat, device: string, hex: string)
    ensures Carries(raw, epoch, rev, pinned, device, hex) <==>
            ShapeOf(raw) == Some(Shape(Parts(epoch, rev, device), pinned, hex))
  {
    var parts := Parts(epoch, rev, device);
    var payload := Payload('.', parts);
    assert payload == epoch + "." + rev + "." + device;
    hide SplitLast, SplitThree, Utf8Len, ParseUnsigned, Reads;
    SplitLastIsJoined(raw, '.', payload, hex);
    SplitThreeIsJoined('.', parts);
    RevisionReads(rev, pinned);
    hide Payload;
    if ShapeOf(raw).Some? {
      ShapeJoins(raw);
    }
  }

  lemma VerifiedByShape(mac: Mac, current: string, raw: string)
    ensures var shape := ShapeOf(raw);
      VerifiedCursor(mac, current, raw) ==
      if shape.None? then Err(Bad)
      else
        var Shape(parts, pinned, hex) := shape.value;
        if parts.first != current then Err(EpochChanged)
        else if IsMacText(mac, parts.first + "." + parts.second + "." + parts.third, hex) then
          Ok(CursorFields(parts.first, pinned, parts.third))
        else Err(Bad)
  {
    if ShapeOf(raw).Some? {
      ShapeJoins(raw);
      var Shape(parts, _, hex) := ShapeOf(raw).value;
      MacMatchesText(mac, Payload('.', parts), hex);
      assert Payload('.', parts) == parts.first + "." + parts.second + "." + parts.third;
    }
    hide SplitLast, SplitThree, Utf8Len, ParseUnsigned, MacMatches, IsMacText;
  }

  /** Exactly the texts of the current epoch that carry the MAC of what precedes it are
      accepted, and exactly those of another epoch, MAC unseen, are told so. */
  lemma VerifiedExactly(mac: Mac, current: string, raw: string)
    ensures forall f :: VerifiedCursor(mac, current, raw) == Ok(f) <==> f.epoch == current && IsSigned(mac, raw, f)
    ensures VerifiedCursor(mac, current, raw) == Err(EpochChanged) <==> OfAnotherLife(current, raw)
  {
    VerifiedByShape(mac, current, raw);
    hide VerifiedCursor;
    forall epoch, rev, pinned: nat, device, hex
      ensures Carries(raw, epoch, rev, pinned, device, hex) <==>
              ShapeOf(raw) == Some(Shape(Parts(epoch, rev, device), pinned, hex))
    {
      ShapeIsCarried(raw, epoch, rev, pinned, device, hex);
    }
    hide Carries, ShapeOf, IsMacText;
    if ShapeOf(raw).Some? {
      var Shape(parts, pinned, hex) := ShapeOf(raw).value;
      assert parts == Parts(parts.first, parts.second, parts.third);
      assert Carries(raw, parts.first, parts.second, pinned, parts.third, hex);
    }
  }

  method VerifyCursor(mac: Mac, current: string, raw: string) returns (r: Result<CursorFields, CursorError>)
    requires IsMac(mac)
    ensures r == VerifiedCursor(mac, current, raw)
    ensures forall f :: r == Ok(f) <==> f.epoch == current && IsSigned(mac, raw, f)
    ensures r == Err(EpochChanged) <==> OfAnotherLife(current, raw)
  {
    hide IsSigned, OfAnotherLife;
    VerifiedExactly(mac, current, raw);
    var split := SplitLast(raw, '.');
    if split.None? {
      return Err(Bad);
    }
    var (payload, hex) := split.value;
    var three := SplitThree(payload, '.');
    if three.None? {
      return Err(Bad);
    }
    var parts := three.value;
    if parts.first == "" || parts.third == "" || Utf8Len(hex) != 32 {
      return Err(Bad);
    }
    var pinned := ParseUnsigned(parts.second, U64_MAX);
    if pinned.None? {
      return Err(Bad);
    }
    if parts.first != current {
      return Err(EpochChanged);
    }
    var ok := CheckMac(mac, payload, hex);
    r := if ok then Ok(CursorFields(parts.first, pinned.value, parts.third)) else Err(Bad);
  }

  /** A cursor hands its pin and device back to the life of the process that issued it,
      whatever the device id contains, and tells every other life apart. */
  lemma CursorRoundTrip(mac: Mac, epoch: string, pinned: nat, device: string, current: string)
    requires IsMac(mac)
    requires epoch != "" && '.' !in epoch && pinned <= U64_MAX && device != ""
    ensures VerifiedCursor(mac, current, IssuedCursor(mac, epoch, pinned, device)) ==
            if current == epoch then Ok(CursorFields(epoch, pinned, device)) else Err(EpochChanged)
  {
    SplitLastSigned(mac, '.', Payload('.', Parts(epoch, Decimal(pinned), device)));
    ParseDecimal(pinned, U64_MAX);
    assert '.' !in Decimal(pinned);
    SplitThreeJoins('.', Parts(epoch, Decimal(pinned), device));
    hide Decimal, ParseUnsigned, SplitLast, SplitThree;
  }
}
