/** Byte strings, optional values, results, machine words, and the hexadecimal text of a digest. */
module Bytes {

  type byte = x: int | 0 <= x < 256

  /** A Go string or byte slice. */
  type Text = seq<byte>

  /** The output of SHA-256. */
  type Digest = d: Text | |d| == 32 witness seq(32, _ => 0)

  datatype Option<+T> = None | Some(value: T)

  datatype Result<+T, +E> = Ok(value: T) | Err(error: E)

  const TWO63: int := 0x8000_0000_0000_0000
  const TWO64: int := 0x1_0000_0000_0000_0000

  lemma MulMono(a: int, b: int, d: nat)
    requires a <= b
    ensures a * d <= b * d
  {
  }

  const SLASH: byte := 0x2F

  /** The bytes of an ASCII text. */
  ghost function Ascii(s: string): Text
    requires forall i :: 0 <= i < |s| ==> s[i] < 128 as char
  {
    seq(|s|, i requires 0 <= i < |s| => s[i] as int)
  }

  predicate SlashFree(s: Text) {
    SLASH !in s
  }

  predicate HasPrefix(s: Text, p: Text) {
    p <= s
  }

  predicate Distinct<T(==)>(s: seq<T>) {
    forall i, j :: 0 <= i < j < |s| ==> s[i] != s[j]
  }

  /** White space as trimmed before a blank check; only ASCII characters are listed. */
  predicate Blank(s: Text) {
    forall b :: b in s ==> 9 <= b <= 13 || b == 32
  }

  lemma SlashFreeConcat(s: Text, t: Text)
    ensures SlashFree(s + t) <==> SlashFree(s) && SlashFree(t)
  {
    assert forall b: byte :: b in s + t <==> b in s || b in t;
  }

  lemma Associative(a: Text, b: Text, c: Text)
    ensures a + (b + c) == (a + b) + c
  {
  }

  // ---- hexadecimal text -----------------------------------------------------------------

  function HexDigit(n: int): (b: byte)
    requires 0 <= n < 16
    ensures HexValue(b) == Some(n)
    ensures b != SLASH
  {
    if n < 10 then 0x30 + n else 0x41 + n - 10
  }

  /** Decoding accepts both letter cases, as Go's hex.DecodeString does. */
  function HexValue(b: byte): Option<int> {
    if 0x30 <= b <= 0x39 then Some(b - 0x30)
    else if 0x41 <= b <= 0x46 then Some(b - 0x41 + 10)
    else if 0x61 <= b <= 0x66 then Some(b - 0x61 + 10)
    else None
  }

  function HexEncode(d: Text): Text {
    if d == [] then [] else [HexDigit(d[0] / 16), HexDigit(d[0] % 16)] + HexEncode(d[1..])
  }

  function HexDecode(s: Text): Option<Text> {
    if s == [] then Some([])
    else if |s| == 1 then None
    else
      match (HexValue(s[0]), HexValue(s[1]), HexDecode(s[2..]))
      case (Some(hi), Some(lo), Some(rest)) =>
        if 0 <= 16 * hi + lo < 256 then Some([16 * hi + lo] + rest) else None
      case _ => None
  }

  lemma {:induction false} HexRoundTrip(d: Text)
    ensures HexDecode(HexEncode(d)) == Some(d)
    ensures |HexEncode(d)| == 2 * |d|
    ensures SlashFree(HexEncode(d))
  {
    if d != [] {
      HexRoundTrip(d[1..]);
      var s := HexEncode(d);
      assert s[2..] == HexEncode(d[1..]);
      assert d == [d[0]] + d[1..];
      SlashFreeConcat(s[..2], s[2..]);
      assert s == s[..2] + s[2..];
    }
  }

  lemma HexFirst(d: Text)
    requires d != []
    ensures |HexEncode(d)| == 2 + |HexEncode(d[1..])| && HexEncode(d)[2..] == HexEncode(d[1..])
    ensures UpperHex(HexEncode(d)[0]) && UpperHex(HexEncode(d)[1])
    ensures d[0] == 16 * UpperValue(HexEncode(d)[0]) + UpperValue(HexEncode(d)[1])
  {
  }

  /** The text of a digest, digit by digit: high half first, in upper case. */
  lemma {:induction false} HexText(d: Text, i: nat)
    requires i < |d|
    ensures 2 * i + 1 < |HexEncode(d)|
    ensures UpperHex(HexEncode(d)[2 * i]) && UpperHex(HexEncode(d)[2 * i + 1])
    ensures d[i] == 16 * UpperValue(HexEncode(d)[2 * i]) + UpperValue(HexEncode(d)[2 * i + 1])
  {
    HexFirst(d);
    if i > 0 {
      HexText(d[1..], i - 1);
      var s, j := HexEncode(d), 2 * i;
      assert s[j] == s[2..][j - 2] && s[j + 1] == s[2..][j - 1];
    }
  }

  /** 0 to 9 and A to F. */
  predicate UpperHex(b: byte) {
    0x30 <= b <= 0x39 || 0x41 <= b <= 0x46
  }

  ghost function UpperValue(b: byte): int {
    if b <= 0x39 then b - 0x30 else b - 0x37
  }

  /** A letter from a to f in upper case. */
  function Upper(b: byte): byte {
    if 0x61 <= b <= 0x66 then b - 0x20 else b
  }

  ghost function UpperText(s: Text): Text {
    seq(|s|, i requires 0 <= i < |s| => Upper(s[i]))
  }

  lemma UpperDigit(b: byte)
    ensures HexValue(b).Some? <==> UpperHex(Upper(b))
    ensures HexValue(b).Some? ==> 0 <= HexValue(b).value < 16 && HexDigit(HexValue(b).value) == Upper(b)
  {
  }

  lemma EncodeByte(hi: int, lo: int, rest: Text)
    requires 0 <= hi < 16 && 0 <= lo < 16
    ensures HexEncode([16 * hi + lo] + rest) == [HexDigit(hi), HexDigit(lo)] + HexEncode(rest)
  {
    assert ([16 * hi + lo] + rest)[1..] == rest;
    assert (16 * hi + lo) / 16 == hi && (16 * hi + lo) % 16 == lo;
  }

  lemma DigitRange(b: byte)
    ensures HexValue(b).Some? ==> 0 <= HexValue(b).value < 16
  {
  }

  lemma DecodeStep(s: Text)
    requires |s| >= 2
    ensures HexDecode(s).Some? <==> HexValue(s[0]).Some? && HexValue(s[1]).Some? && HexDecode(s[2..]).Some?
    ensures HexDecode(s).Some? ==>
      HexDecode(s).value == [16 * HexValue(s[0]).value + HexValue(s[1]).value] + HexDecode(s[2..]).value
  {
    DigitRange(s[0]);
    DigitRange(s[1]);
  }

  lemma EncodePair(a: byte, b: byte, rest: Text)
    requires HexValue(a).Some? && HexValue(b).Some?
    ensures HexEncode([16 * HexValue(a).value + HexValue(b).value] + rest) == [Upper(a), Upper(b)] + HexEncode(rest)
  {
    UpperDigit(a);
    UpperDigit(b);
    EncodeByte(HexValue(a).value, HexValue(b).value, rest);
  }

  /** Two digits decode to the byte they are the text of. */
  lemma DecodePair(s: Text)
    requires |s| >= 2
    ensures HexDecode(s).Some? <==>
      UpperHex(Upper(s[0])) && UpperHex(Upper(s[1])) && HexDecode(s[2..]).Some?
    ensures HexDecode(s).Some? ==>
      HexEncode(HexDecode(s).value) == [Upper(s[0]), Upper(s[1])] + HexEncode(HexDecode(s[2..]).value)
  {
    DecodeStep(s);
    assert HexValue(s[0]).Some? <==> UpperHex(Upper(s[0])) by { UpperDigit(s[0]); }
    assert HexValue(s[1]).Some? <==> UpperHex(Upper(s[1])) by { UpperDigit(s[1]); }
    if HexDecode(s).Some? {
      EncodePair(s[0], s[1], HexDecode(s[2..]).value);
    }
  }

  ghost predicate HexDigits(s: Text) {
    forall i :: 0 <= i < |s| ==> UpperHex(Upper(s[i]))
  }

  lemma PairFirst(s: Text)
    requires |s| >= 2
    ensures HexDigits(s) <==> UpperHex(Upper(s[0])) && UpperHex(Upper(s[1])) && HexDigits(s[2..])
    ensures UpperText(s) == [Upper(s[0]), Upper(s[1])] + UpperText(s[2..])
  {
    var r := s[2..];
    assert forall i :: 2 <= i < |s| ==> s[i] == r[i - 2];
  }

  /** Which texts decode, and that the decoded bytes have the same text up to the case of its letters. */
  lemma {:induction false} HexAccepts(s: Text)
    ensures HexDecode(s).Some? <==> |s| % 2 == 0 && HexDigits(s)
    ensures HexDecode(s).Some? ==> HexEncode(HexDecode(s).value) == UpperText(s)
  {
    if |s| == 0 {
      assert UpperText(s) == [];
    } else if |s| >= 2 {
      DecodePair(s);
      PairFirst(s);
      HexAccepts(s[2..]);
      assert |s| % 2 == |s[2..]| % 2;
      if HexDecode(s).Some? {
        assert HexEncode(HexDecode(s[2..]).value) == UpperText(s[2..]);
      }
    }
  }

  // ---- order ------------------------------------------------------------------------------

  /** Byte strings in Go's order. */
  predicate Less(a: Text, b: Text) {
    if b == [] then false
    else if a == [] then true
    else a[0] < b[0] || (a[0] == b[0] && Less(a[1..], b[1..]))
  }

  /** The order is decided by the first byte that differs, and a proper prefix comes first. */
  lemma LessAt(a: Text, b: Text, n: nat)
    requires n <= |a| && n <= |b| && a[..n] == b[..n]
    requires n == |a| || n == |b| || a[n] != b[n]
    ensures Less(a, b) <==> n < |b| && (n == |a| || a[n] < b[n])
    decreases n
  {
    if n > 0 {
      assert a[0] == a[..n][0] == b[..n][0] == b[0];
      assert a[1..][..n - 1] == a[..n][1..] == b[..n][1..] == b[1..][..n - 1];
      LessAt(a[1..], b[1..], n - 1);
    }
  }

  lemma {:induction false} LessTotal(a: Text, b: Text)
    ensures Less(a, b) || Less(b, a) || a == b
    ensures !(Less(a, b) && Less(b, a)) && !Less(a, a)
  {
    if a != [] && b != [] {
      LessTotal(a[1..], b[1..]);
      assert a == [a[0]] + a[1..] && b == [b[0]] + b[1..];
    }
    if a != [] {
      LessTotal(a[1..], a[1..]);
    }
  }

  lemma {:induction false} LessTransitive(a: Text, b: Text, c: Text)
    requires !Less(b, a) && !Less(c, b)
    ensures !Less(c, a)
  {
    if a != [] && b != [] && c != [] && a[0] == b[0] == c[0] {
      LessTransitive(a[1..], b[1..], c[1..]);
    }
  }
}
