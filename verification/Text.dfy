/** String searching, splitting and decimal numbers, as the standard library does them. */
module Text {
  import opened Prelude

  /** The Unicode White_Space property. */
  predicate IsWhitespace(c: char) {
    var n := c as int;
    || 0x09 <= n <= 0x0D || n == 0x20 || n == 0x85 || n == 0xA0 || n == 0x1680 || 0x2000 <= n <= 0x200A
    || n == 0x2028 || n == 0x2029 || n == 0x202F || n == 0x205F || n == 0x3000
  }

  predicate HasWhitespace(s: string) {
    exists i :: 0 <= i < |s| && IsWhitespace(s[i])
  }

  function TrimStart(s: string): string {
    if s != [] && IsWhitespace(s[0]) then TrimStart(s[1..]) else s
  }

  function TrimEnd(s: string): string {
    if s != [] && IsWhitespace(s[|s| - 1]) then TrimEnd(s[..|s| - 1]) else s
  }

  function Trim(s: string): string {
    TrimEnd(TrimStart(s))
  }

  /** Position of the first `c`. */
  function IndexOf(s: string, c: char): (r: Option<nat>)
    ensures r.Some? ==> r.value < |s| && s[r.value] == c && forall j :: 0 <= j < r.value ==> s[j] != c
    ensures r.None? ==> c !in s
  {
    if s == [] then None
    else if s[0] == c then Some(0)
    else
      var rest := IndexOf(s[1..], c);
      assert forall j :: 0 < j < |s| ==> s[j] == s[1..][j - 1];
      if rest.Some? then Some(rest.value + 1) else None
  }

  /** Position of the last `c`. */
  function LastIndexOf(s: string, c: char): (r: Option<nat>)
    ensures r.Some? ==> r.value < |s| && s[r.value] == c && forall j :: r.value < j < |s| ==> s[j] != c
    ensures r.None? ==> c !in s
  {
    if s == [] then None
    else if s[|s| - 1] == c then Some(|s| - 1)
    else
      assert forall j :: 0 <= j < |s| - 1 ==> s[j] == s[..|s| - 1][j];
      LastIndexOf(s[..|s| - 1], c)
  }

  lemma IndexOfFirst(a: string, c: char, b: string)
    requires c !in a
    ensures IndexOf(a + [c] + b, c) == Some(|a|)
  {
    hide IndexOf;
    var s := a + [c] + b;
    assert s[|a|] == c;
    assert forall j :: 0 <= j < |a| ==> s[j] == a[j];
  }

  lemma {:induction false} LastIndexOfLast(a: string, c: char, b: string)
    requires c !in b
    ensures LastIndexOf(a + [c] + b, c) == Some(|a|)
  {
    var s := a + [c] + b;
    if b == [] {
      assert s[|s| - 1] == c;
    } else {
      var n := |b| - 1;
      assert s[|s| - 1] == b[n] && s[..|s| - 1] == a + [c] + b[..n];
      LastIndexOfLast(a, c, b[..n]);
    }
  }

  predicate StartsWith(s: string, prefix: string) {
    |prefix| <= |s| && s[..|prefix|] == prefix
  }

  /** The parts before and after the first occurrence of `sep`. */
  function SplitOnce(s: string, sep: string): Option<(string, string)> {
    if StartsWith(s, sep) then Some(("", s[|sep|..]))
    else if s == [] then None
    else
      var rest := SplitOnce(s[1..], sep);
      if rest.Some? then Some(([s[0]] + rest.value.0, rest.value.1)) else None
  }

  /** If no occurrence of `sep` starts inside `a`, the split is at `|a|`. */
  lemma {:induction false} SplitOnceAt(a: string, sep: string, b: string)
    requires forall i :: 0 <= i < |a| ==> !StartsWith((a + sep + b)[i..], sep)
    ensures SplitOnce(a + sep + b, sep) == Some((a, b))
  {
    var s := a + sep + b;
    assert s[0..] == s;
    if a == [] {
      assert s[|sep|..] == b && s[..|sep|] == sep;
    } else {
      assert s[1..] == a[1..] + sep + b;
      forall i | 0 <= i < |a[1..]|
        ensures !StartsWith((a[1..] + sep + b)[i..], sep)
      {
        assert s[i + 1..] == (a[1..] + sep + b)[i..];
      }
      SplitOnceAt(a[1..], sep, b);
      assert a == [a[0]] + a[1..];
    }
  }

  /** A split is at the first occurrence of `sep`, and fails only if there is none. */
  lemma {:induction false} SplitOnceExactly(s: string, sep: string)
    ensures SplitOnce(s, sep).Some? ==>
              var (a, b) := SplitOnce(s, sep).value;
              s == a + sep + b && forall i :: 0 <= i < |a| ==> !StartsWith(s[i..], sep)
    ensures SplitOnce(s, sep).None? ==> forall i :: 0 <= i <= |s| ==> !StartsWith(s[i..], sep)
  {
    assert s[0..] == s;
    if StartsWith(s, sep) || s == [] {
      assert StartsWith(s, sep) ==> s == sep + s[|sep|..];
    } else {
      SplitOnceExactly(s[1..], sep);
      assert s == [s[0]] + s[1..];
      forall i | 0 < i <= |s|
        ensures s[i..] == s[1..][i - 1..]
      {
      }
    }
  }

  lemma {:induction false} TrimStartExactly(s: string)
    ensures |TrimStart(s)| <= |s| && TrimStart(s) == s[|s| - |TrimStart(s)|..]
    ensures forall i :: 0 <= i < |s| - |TrimStart(s)| ==> IsWhitespace(s[i])
    ensures TrimStart(s) != [] ==> !IsWhitespace(TrimStart(s)[0])
  {
    hide IsWhitespace;
    if s != [] && IsWhitespace(s[0]) {
      TrimStartExactly(s[1..]);
      assert forall i :: 0 < i < |s| ==> s[i] == s[1..][i - 1];
    }
  }

  lemma {:induction false} TrimEndExactly(s: string)
    ensures TrimEnd(s) <= s && forall i :: |TrimEnd(s)| <= i < |s| ==> IsWhitespace(s[i])
    ensures TrimEnd(s) != [] ==> !IsWhitespace(TrimEnd(s)[|TrimEnd(s)| - 1])
  {
    hide IsWhitespace;
    if s != [] && IsWhitespace(s[|s| - 1]) {
      TrimEndExactly(s[..|s| - 1]);
      assert forall i :: 0 <= i < |s| - 1 ==> s[i] == s[..|s| - 1][i];
    }
  }

  /** What is trimmed away is whitespace, and what is left neither starts nor ends with it. */
  lemma TrimExactly(s: string)
    ensures exists k, m :: 0 <= k <= m <= |s| && Trim(s) == s[k..m]
                           && forall i :: 0 <= i < k || m <= i < |s| ==> IsWhitespace(s[i])
    ensures Trim(s) != [] ==> !IsWhitespace(Trim(s)[0]) && !IsWhitespace(Trim(s)[|Trim(s)| - 1])
  {
    hide TrimStart, TrimEnd, IsWhitespace;
    var u := TrimStart(s);
    TrimStartExactly(s);
    TrimEndExactly(u);
    var k := |s| - |u|;
    assert Trim(s) == s[k..k + |Trim(s)|];
    assert forall i :: k <= i < |s| ==> s[i] == u[i - k];
  }

  /** Length in bytes of the UTF-8 encoding. */
  function Utf8Len(s: string): nat {
    if s == [] then 0
    else
      var c := s[|s| - 1] as int;
      Utf8Len(s[..|s| - 1]) + (if c < 0x80 then 1 else if c < 0x800 then 2 else if c < 0x10000 then 3 else 4)
  }

  // ---- Decimal numbers ----

  predicate IsDigit(c: char) {
    '0' <= c <= '9'
  }

  predicate AllDigits(s: string) {
    forall i :: 0 <= i < |s| ==> IsDigit(s[i])
  }

  function DigitChar(d: nat): char
    requires d < 10
  {
    '0' + d as char
  }

  function Decimal(n: nat): (s: string)
    ensures s != [] && AllDigits(s)
  {
    if n < 10 then [DigitChar(n)] else Decimal(n / 10) + [DigitChar(n % 10)]
  }

  function DigitsValue(s: string): nat
    requires AllDigits(s)
  {
    if s == [] then 0 else 10 * DigitsValue(s[..|s| - 1]) + (s[|s| - 1] as int - '0' as int)
  }

  /** Unsigned parsing up to `max`: an optional plus sign, then at least one digit. */
  function ParseUnsigned(s: string, max: nat): Option<nat> {
    var digits := if StartsWith(s, "+") then s[1..] else s;
    if digits == [] || !AllDigits(digits) || DigitsValue(digits) > max then None else Some(DigitsValue(digits))
  }

  /** `s` writes `n` in decimal digits, perhaps after a plus sign. */
  ghost predicate Reads(s: string, n: nat) {
    exists digits {:trigger AllDigits(digits)} ::
      (s == digits || s == "+" + digits) && digits != "" && AllDigits(digits) && DigitsValue(digits) == n
  }

  lemma ParsesWhatItReads(s: string, max: nat)
    ensures forall n: nat :: ParseUnsigned(s, max) == Some(n) <==> Reads(s, n) && n <= max
    ensures forall n: nat :: Reads(s, n) ==> s != "" && forall c :: c in s ==> IsDigit(c) || c == '+'
  {
    var digits := if StartsWith(s, "+") then s[1..] else s;
    assert s == digits || s == "+" + digits;
    assert AllDigits(digits) || !AllDigits(digits);
    forall d: string | (s == d || s == "+" + d) && d != "" && AllDigits(d)
      ensures d == digits && forall c :: c in s ==> IsDigit(c) || c == '+'
    {
      assert IsDigit(d[0]);
      if s == d {
        assert !StartsWith(s, "+");
      } else {
        assert StartsWith(s, "+") && s[1..] == d;
      }
    }
  }

  lemma {:induction false} DecimalValue(n: nat)
    ensures DigitsValue(Decimal(n)) == n
  {
    if n >= 10 {
      DecimalValue(n / 10);
      assert Decimal(n)[..|Decimal(n)| - 1] == Decimal(n / 10);
    }
  }

  /** Printing a number in decimal and parsing it back. */
  lemma ParseDecimal(n: nat, max: nat)
    requires n <= max
    ensures ParseUnsigned(Decimal(n), max) == Some(n)
  {
    DecimalValue(n);
    assert IsDigit(Decimal(n)[0]);
    assert !StartsWith(Decimal(n), "+");
  }
}
