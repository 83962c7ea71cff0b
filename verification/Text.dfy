/** The textual codecs of the quarantine manifest: canonical decimal numbers,
    lower-case hexadecimal and zero-padded member numbers. Text and raw path
    bytes are both `string`; a raw byte is the character with its value. */
module Text {
  import opened Wrappers

  type byte = b: int | 0 <= b < 256

  const U64_MAX: nat := 0xFFFF_FFFF_FFFF_FFFF

  // ---------------------------------------------------------------- decimal

  predicate IsDigit(c: char) { '0' <= c <= '9' }

  function DigitValue(c: char): (d: nat)
    requires IsDigit(c)
    ensures d < 10
  {
    c as int - '0' as int
  }

  function DigitChar(d: nat): (c: char)
    requires d < 10
    ensures IsDigit(c) && DigitValue(c) == d
  {
    (d + '0' as int) as char
  }

  /** `u64::to_string`. */
  function Decimal(n: nat): (s: string)
    ensures |s| > 0 && forall i :: 0 <= i < |s| ==> IsDigit(s[i])
  {
    if n < 10 then [DigitChar(n)] else Decimal(n / 10) + [DigitChar(n % 10)]
  }

  /** `i64::to_string`. */
  function SignedDecimal(n: int): string {
    if n < 0 then "-" + Decimal(-n) else Decimal(n)
  }

  /** One digit of `u64::from_str`: checked multiply, then checked add. */
  function PushDigit(acc: nat, c: char): Option<nat> {
    if !IsDigit(c) || acc * 10 + DigitValue(c) > U64_MAX then None else Some(acc * 10 + DigitValue(c))
  }

  function ParseDigits(s: string): Option<nat> {
    if s == [] then Some(0)
    else
      var head := ParseDigits(s[..|s| - 1]);
      if head.None? then None else PushDigit(head.value, s[|s| - 1])
  }

  /** `str::parse::<u64>`: an optional plus sign, then at least one digit. */
  function ParseU64(s: string): Option<nat> {
    var digits := if |s| > 0 && s[0] == '+' then s[1..] else s;
    if digits == [] then None else ParseDigits(digits)
  }

  function ParseCanonicalU64(s: string): Option<nat> {
    var parsed := ParseU64(s);
    if parsed.Some? && Decimal(parsed.value) == s then parsed else None
  }

  lemma {:induction false} ParseDecimal(n: nat)
    requires n <= U64_MAX
    ensures ParseDigits(Decimal(n)) == Some(n)
  {
    if n < 10 {
      assert [DigitChar(n)][..0] == [];
      assert ParseDigits([]) == Some(0);
    } else {
      ParseDecimal(n / 10);
      var s := Decimal(n);
      assert s[..|s| - 1] == Decimal(n / 10);
    }
  }

  lemma {:induction false} ParseDigitsBounded(s: string)
    ensures ParseDigits(s).Some? ==> ParseDigits(s).value <= U64_MAX
  {
    if s != [] {
      ParseDigitsBounded(s[..|s| - 1]);
    }
  }

  /** The canonical decimal codec accepts exactly the decimal renderings of 64-bit numbers,
      and reads each back as the number it renders. */
  lemma CanonicalU64Exact(s: string, n: nat)
    ensures ParseCanonicalU64(s) == Some(n) <==> n <= U64_MAX && s == Decimal(n)
  {
    if n <= U64_MAX && s == Decimal(n) {
      ParseDecimal(n);
    }
    if ParseCanonicalU64(s) == Some(n) {
      ParseDigitsBounded(s);
    }
  }

  lemma {:induction false} DecimalInjective(m: nat, n: nat)
    requires Decimal(m) == Decimal(n)
    ensures m == n
  {
    var s := Decimal(m);
    if m >= 10 || n >= 10 {
      assert m >= 10 ==> s == Decimal(m / 10) + [DigitChar(m % 10)] && |Decimal(m / 10)| > 0;
      assert n >= 10 ==> s == Decimal(n / 10) + [DigitChar(n % 10)] && |Decimal(n / 10)| > 0;
      assert s[..|s| - 1] == Decimal(m / 10) == Decimal(n / 10);
      assert s[|s| - 1] == DigitChar(m % 10) == DigitChar(n % 10);
      DecimalInjective(m / 10, n / 10);
      assert DigitValue(DigitChar(m % 10)) == DigitValue(DigitChar(n % 10));
    } else {
      assert s[0] == DigitChar(m) == DigitChar(n);
      assert DigitValue(DigitChar(m)) == DigitValue(DigitChar(n));
    }
  }

  // ------------------------------------------------------ zero-padded numbers

  function Zeros(n: nat): (s: string)
    ensures |s| == n && forall i :: 0 <= i < n ==> s[i] == '0'
  {
    seq(n, i => '0')
  }

  /** `format!("{:06}", n)` for a non-negative number. */
  function Padded6(n: nat): string {
    var s := Decimal(n);
    if |s| < 6 then Zeros(6 - |s|) + s else s
  }

  lemma {:induction false} ParseLeadingZeros(k: nat, s: string)
    ensures ParseDigits(Zeros(k) + s) == ParseDigits(s)
  {
    if s == [] {
      assert Zeros(k) + s == Zeros(k);
      if k > 0 {
        ParseLeadingZeros(k - 1, []);
        assert Zeros(k)[..k - 1] == Zeros(k - 1);
        assert Zeros(k - 1) + [] == Zeros(k - 1);
      }
    } else {
      ParseLeadingZeros(k, s[..|s| - 1]);
      var t := Zeros(k) + s;
      assert t[..|t| - 1] == Zeros(k) + s[..|s| - 1];
    }
  }

  /** Distinct member numbers never share a padded name, whatever their width. */
  lemma Padded6Injective(m: nat, n: nat)
    requires m <= U64_MAX && n <= U64_MAX && Padded6(m) == Padded6(n)
    ensures m == n
  {
    ParseDecimal(m);
    ParseDecimal(n);
    ParseLeadingZeros(if |Decimal(m)| < 6 then 6 - |Decimal(m)| else 0, Decimal(m));
    ParseLeadingZeros(if |Decimal(n)| < 6 then 6 - |Decimal(n)| else 0, Decimal(n));
    assert Zeros(0) + Decimal(m) == Decimal(m);
    assert Zeros(0) + Decimal(n) == Decimal(n);
  }

  // ------------------------------------------------------------ hexadecimal

  predicate IsLowerHex(c: char) { '0' <= c <= '9' || 'a' <= c <= 'f' }

  function HexChar(d: nat): (c: char)
    requires d < 16
    ensures IsLowerHex(c) && Nibble(c) == d
  {
    if d < 10 then (d + '0' as int) as char else (d - 10 + 'a' as int) as char
  }

  function Nibble(c: char): (d: nat)
    requires IsLowerHex(c)
    ensures d < 16
  {
    if '0' <= c <= '9' then c as int - '0' as int else c as int - 'a' as int + 10
  }

  function HexOf(bytes: seq<byte>): (s: string)
    ensures |s| == 2 * |bytes| && forall i :: 0 <= i < |s| ==> IsLowerHex(s[i])
  {
    if bytes == [] then []
    else
      var last := bytes[|bytes| - 1];
      HexOf(bytes[..|bytes| - 1]) + [HexChar(last / 16), HexChar(last % 16)]
  }

  /** `hex`: two digits a byte, high nibble first. */
  method EncodeHex(bytes: seq<byte>) returns (output: string)
    ensures output == HexOf(bytes)
  {
    output := [];
    for i := 0 to |bytes|
      invariant output == HexOf(bytes[..i])
    {
      assert bytes[..i + 1][..i] == bytes[..i];
      output := output + [HexChar(bytes[i] / 16)];
      output := output + [HexChar(bytes[i] % 16)];
    }
    assert bytes[..|bytes|] == bytes;
  }

  predicate IsHex32(s: string) { |s| == 64 && forall i :: 0 <= i < 64 ==> IsLowerHex(s[i]) }

  function Unhex(s: string): (bytes: seq<byte>)
    requires |s| % 2 == 0 && forall i :: 0 <= i < |s| ==> IsLowerHex(s[i])
    ensures |bytes| == |s| / 2
  {
    if s == [] then []
    else Unhex(s[..|s| - 2]) + [Nibble(s[|s| - 2]) * 16 + Nibble(s[|s| - 1])]
  }

  /** What `parse_hex_32` accepts and returns. */
  function Unhex32(s: string): Option<seq<byte>> {
    if IsHex32(s) then Some(Unhex(s)) else None
  }

  /** `parse_hex_32`: 64 lower-case digits, read pair by pair. */
  method ParseHex32(value: string) returns (r: Option<seq<byte>>)
    ensures r == Unhex32(value)
  {
    if !IsHex32(value) {
      return None;
    }
    var bytes: seq<byte> := [];
    for i := 0 to 32
      invariant bytes == Unhex(value[..2 * i])
    {
      assert value[..2 * (i + 1)][..2 * i] == value[..2 * i];
      bytes := bytes + [Nibble(value[2 * i]) * 16 + Nibble(value[2 * i + 1])];
    }
    assert value[..64] == value;
    r := Some(bytes);
  }

  lemma {:induction false} HexOfUnhex(s: string)
    requires |s| % 2 == 0 && forall i :: 0 <= i < |s| ==> IsLowerHex(s[i])
    ensures HexOf(Unhex(s)) == s
  {
    if s != [] {
      HexOfUnhex(s[..|s| - 2]);
      assert Unhex(s)[..|s| / 2 - 1] == Unhex(s[..|s| - 2]);
      PairInverse(s[|s| - 2], s[|s| - 1]);
    }
  }

  lemma PairInverse(high: char, low: char)
    requires IsLowerHex(high) && IsLowerHex(low)
    ensures var b := Nibble(high) * 16 + Nibble(low); HexChar(b / 16) == high && HexChar(b % 16) == low
  {
    NibbleInverse(high);
    NibbleInverse(low);
    var b := Nibble(high) * 16 + Nibble(low);
    assert b / 16 == Nibble(high) && b % 16 == Nibble(low);
    hide Nibble, HexChar;
  }

  /** The hexadecimal codec of 32-byte values is a bijection onto the strings the parser accepts. */
  lemma Hex32Exact(s: string, bytes: seq<byte>)
    ensures Unhex32(s) == Some(bytes) <==> |bytes| == 32 && s == HexOf(bytes)
  {
    if IsHex32(s) {
      HexOfUnhex(s);
      if |bytes| == 32 && s == HexOf(bytes) {
        HexInjective(bytes, Unhex(s));
      }
    }
  }

  lemma NibbleInverse(c: char)
    requires IsLowerHex(c)
    ensures HexChar(Nibble(c)) == c
  {
  }

  lemma {:induction false} HexInjective(a: seq<byte>, b: seq<byte>)
    requires HexOf(a) == HexOf(b)
    ensures a == b
  {
    assert |a| == |b|;
    if a != [] {
      var i := |a| - 1;
      assert HexOf(a)[..2 * i] == HexOf(a[..i]) && HexOf(b)[..2 * i] == HexOf(b[..i]);
      HexInjective(a[..i], b[..i]);
      assert HexOf(a)[2 * i] == HexOf(b)[2 * i] && HexOf(a)[2 * i + 1] == HexOf(b)[2 * i + 1];
      assert Nibble(HexChar(a[i] / 16)) == Nibble(HexChar(b[i] / 16));
      assert Nibble(HexChar(a[i] % 16)) == Nibble(HexChar(b[i] % 16));
      assert a == a[..i] + [a[i]] && b == b[..i] + [b[i]];
    }
  }
}
