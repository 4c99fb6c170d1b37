/** The hexadecimal bitmap codec (internal/utils/bitmaputil/bitmaputil.go). A 64-bit block is represented by its eight
    bytes, lowest first; hexadecimal digits and bitmaps are compared digit by digit, counted from the lowest. */
module Bitmap {
  import opened Ordering

  type Byte = x: int | 0 <= x < 256

  type Block = b: seq<Byte> | |b| == 8 witness [0, 0, 0, 0, 0, 0, 0, 0]

  function Nibble(b: Byte, high: bool): int {
    if high then b / 16 else b % 16
  }

  /** The two digits of a byte make the byte, and no other digits do. */
  lemma DigitsOfByte(b: Byte, high: int, low: int)
    requires 0 <= high < 16 && 0 <= low < 16
    ensures b == 16 * high + low <==> high == Nibble(b, true) && low == Nibble(b, false)
  {
  }

  /** The p-th hexadecimal digit of a block. */
  function BlockDigit(b: Block, p: nat): (v: int)
    requires p < 16
    ensures 0 <= v < 16
  {
    Nibble(b[p / 2], p % 2 == 1)
  }

  /** The p-th hexadecimal digit of a bitmap; past its end a bitmap is zero. */
  function DigitOf(bm: seq<Block>, p: nat): int {
    if p / 16 < |bm| then BlockDigit(bm[p / 16], p % 16) else 0
  }

  function Power(k: nat): (r: nat)
    ensures r > 0
  {
    if k == 0 then 1 else 2 * Power(k - 1)
  }

  /** Whether bit n is set. */
  predicate Bit(bm: seq<Block>, n: nat) {
    (DigitOf(bm, n / 4) / Power(n % 4)) % 2 == 1
  }

  predicate IsHex(c: char) {
    '0' <= c <= '9' || 'a' <= c <= 'f' || 'A' <= c <= 'F'
  }

  function HexValue(c: char): (v: int)
    ensures IsHex(c) ==> 0 <= v < 16
  {
    if '0' <= c <= '9' then c as int - '0' as int
    else if 'a' <= c <= 'f' then c as int - 'a' as int + 10
    else if 'A' <= c <= 'F' then c as int - 'A' as int + 10
    else 0
  }

  /** A digit is read as its place among the digits, in either case, and nothing else is a digit. */
  lemma HexDigits(c: char)
    ensures IsHex(c) <==> c in "0123456789abcdefABCDEF"
    ensures IsHex(c) ==> c == "0123456789abcdef"[HexValue(c)] || c == "0123456789ABCDEF"[HexValue(c)]
  {
    if 'a' <= c <= 'f' {
      assert c == "0123456789abcdefABCDEF"[HexValue(c)];
    } else if 'A' <= c <= 'F' {
      assert c == "0123456789abcdefABCDEF"[HexValue(c) + 6];
    } else if '0' <= c <= '9' {
      assert c == "0123456789abcdefABCDEF"[HexValue(c)];
    }
  }

  function HexChar(v: int): (c: char)
    requires 0 <= v < 16
    ensures IsHex(c) && HexValue(c) == v && (c == '0' <==> v == 0)
  {
    "0123456789abcdef"[v]
  }

  /** The p-th digit of a hexadecimal numeral, counted from its end; a numeral is zero beyond its first digit. */
  function DigitAt(s: string, p: nat): int {
    if p < |s| then HexValue(s[|s| - 1 - p]) else 0
  }

  predicate AllHex(s: string) {
    forall i :: 0 <= i < |s| ==> IsHex(s[i])
  }

  /** The bitmap is what the numeral says. */
  ghost predicate Denotes(s: string, bm: seq<Block>) {
    forall p: nat :: DigitAt(s, p) == DigitOf(bm, p)
  }

  function TrimPrefix(s: string): (r: string)
    ensures if "0x" <= s then s == "0x" + r else r == s
  {
    if |s| >= 2 && s[0] == '0' && s[1] == 'x' then s[2..] else s
  }

  // --- decoding ---

  ghost predicate PairOf(b: Byte, high: char, low: char) {
    Nibble(b, true) == HexValue(high) && Nibble(b, false) == HexValue(low)
  }

  /** hex.DecodeString: two digits make a byte, the first pair first. */
  method DecodeHex(s: string) returns (r: Result<array<Byte>, string>)
    requires |s| % 2 == 0
    ensures r.Ok? <==> AllHex(s)
    ensures r.Ok? ==> fresh(r.value) && 2 * r.value.Length == |s|
                      && forall i :: 0 <= i < r.value.Length ==> PairOf(r.value[i], s[2 * i], s[2 * i + 1])
  {
    var b := new Byte[|s| / 2](_ => 0);
    for i := 0 to |s| / 2
      invariant AllHex(s[..2 * i])
      invariant forall j :: 0 <= j < i ==> PairOf(b[j], s[2 * j], s[2 * j + 1])
    {
      if !IsHex(s[2 * i]) || !IsHex(s[2 * i + 1]) {
        return Err("invalid byte");
      }
      b[i] := HexValue(s[2 * i]) * 16 + HexValue(s[2 * i + 1]);
    }
    assert s[..2 * (|s| / 2)] == s;
    return Ok(b);
  }

  /** Big endian to little endian, in place. */
  method Reverse(b: array<Byte>)
    modifies b
    ensures forall i :: 0 <= i < b.Length ==> b[i] == old(b[b.Length - 1 - i])
  {
    var l, r := 0, b.Length - 1;
    while l < r
      invariant 0 <= l && r == b.Length - 1 - l && l <= r + 1
      invariant forall i :: 0 <= i < l ==> b[i] == old(b[b.Length - 1 - i]) && b[b.Length - 1 - i] == old(b[i])
      invariant forall i :: l <= i <= r ==> b[i] == old(b[i])
    {
      b[l], b[r] := b[r], b[l];
      l, r := l + 1, r - 1;
    }
  }

  function ByteAt(bytes: seq<Byte>, i: nat): Byte {
    if i < |bytes| then bytes[i] else 0
  }

  /** The i-th byte of a bitmap. */
  function BlockByte(bm: seq<Block>, i: nat): Byte {
    if i / 8 < |bm| then bm[i / 8][i % 8] else 0
  }

  method Pad(bytes: seq<Byte>) returns (buffer: seq<Byte>)
    ensures |buffer| % 8 == 0 && forall i: nat :: ByteAt(buffer, i) == ByteAt(bytes, i)
  {
    buffer := bytes;
    ghost var size := 8 * ((|bytes| + 7) / 8);
    while |buffer| % 8 != 0
      invariant |bytes| <= |buffer| <= size && forall i: nat :: ByteAt(buffer, i) == ByteAt(bytes, i)
      decreases size - |buffer|
    {
      buffer := buffer + [0];
    }
  }

  /** fromBytes: pad with zero bytes to whole blocks, then cut. */
  method FromBytes(bytes: seq<Byte>) returns (bm: seq<Block>)
    ensures forall i: nat :: BlockByte(bm, i) == ByteAt(bytes, i)
  {
    var buffer := Pad(bytes);
    bm := [];
    var i := 0;
    while i < |buffer|
      invariant i == 8 * |bm| && i <= |buffer|
      invariant forall k :: 0 <= k < |bm| ==> bm[k] == buffer[8 * k..8 * k + 8]
    {
      bm := bm + [buffer[i..i + 8]];
      i := i + 8;
    }
    forall j: nat ensures BlockByte(bm, j) == ByteAt(buffer, j) {
      if j < |buffer| {
        assert bm[j / 8] == buffer[8 * (j / 8)..8 * (j / 8) + 8];
      }
    }
  }

  /** NewFrom: the bitmap a hexadecimal numeral denotes, with or without "0x". */
  method NewFrom(s: string) returns (r: Result<seq<Block>, string>)
    ensures r.Ok? <==> AllHex(TrimPrefix(s))
    ensures r.Ok? ==> Denotes(TrimPrefix(s), r.value)
  {
    var t := TrimPrefix(s);
    var even := if |t| % 2 != 0 then "0" + t else t;
    Padded(t, even);
    var decoded := DecodeHex(even);
    if decoded.Err? {
      return Err(decoded.error);
    }
    var b := decoded.value;
    if b.Length == 0 {
      return Ok([]);
    }
    ghost var big := b[..];
    Reverse(b);
    var bm := FromBytes(b[..]);
    ReversedDenotes(even, big, b[..], bm);
    return Ok(bm);
  }

  lemma Padded(t: string, even: string)
    requires even == if |t| % 2 != 0 then "0" + t else t
    ensures |even| % 2 == 0 && (AllHex(even) <==> AllHex(t)) && forall p: nat :: DigitAt(even, p) == DigitAt(t, p)
  {
    if |t| % 2 != 0 {
      assert forall i :: 0 <= i < |t| ==> even[i + 1] == t[i];
    }
  }

  lemma ReversedDenotes(s: string, big: seq<Byte>, little: seq<Byte>, bm: seq<Block>)
    requires 2 * |big| == |s| && |little| == |big|
    requires forall i :: 0 <= i < |big| ==> PairOf(big[i], s[2 * i], s[2 * i + 1]) && little[i] == big[|big| - 1 - i]
    requires forall i: nat :: BlockByte(bm, i) == ByteAt(little, i)
    ensures Denotes(s, bm)
  {
    forall p: nat ensures DigitAt(s, p) == DigitOf(bm, p) {
      var i := p / 2;
      assert i / 8 == p / 16 && (p % 16) / 2 == i % 8;
      assert BlockByte(bm, i) == ByteAt(little, i);
      if p < |s| {
        var j := |big| - 1 - i;
        assert PairOf(big[j], s[2 * j], s[2 * j + 1]);
        assert |s| - 1 - p == if p % 2 == 0 then 2 * j + 1 else 2 * j;
      }
    }
  }

  // --- encoding ---

  /** The lowest n digits of a block, the highest of them first; sixteen of them are what %016x prints. */
  function BlockHex(b: Block, n: nat): (s: string)
    requires n <= 16
    ensures |s| == n && forall k :: 0 <= k < n ==> s[k] == HexChar(BlockDigit(b, n - 1 - k))
  {
    if n == 0 then "" else [HexChar(BlockDigit(b, n - 1))] + BlockHex(b, n - 1)
  }

  /** String: the digits of the bitmap without leading zeros. */
  method ToString(bm: seq<Block>) returns (s: string)
    ensures |s| >= 2 && s[..2] == "0x" && AllHex(s[2..]) && Denotes(s[2..], bm)
    ensures |s| > 2 ==> s[2] != '0'
  {
    var t := "";
    for k := 0 to |bm|
      invariant |t| == 16 * k && AllHex(t)
      invariant forall p: nat :: p < 16 * k ==> DigitAt(t, p) == DigitOf(bm, p)
    {
      t := BlockHex(bm[k], 16) + t;
      Prepended(BlockHex(bm[k], 16), t[16..], t, bm, k);
    }
    while |t| > 0 && t[0] == '0'
      invariant AllHex(t) && Denotes(t, bm)
    {
      Trimmed(t);
      t := t[1..];
    }
    s := "0x" + t;
    assert s[2..] == t;
  }

  lemma Prepended(block: string, rest: string, t: string, bm: seq<Block>, k: nat)
    requires k < |bm| && block == BlockHex(bm[k], 16) && |rest| == 16 * k && t == block + rest && AllHex(rest)
    requires forall p: nat :: p < 16 * k ==> DigitAt(rest, p) == DigitOf(bm, p)
    ensures AllHex(t) && forall p: nat :: p < 16 * (k + 1) ==> DigitAt(t, p) == DigitOf(bm, p)
  {
    forall p: nat | p < 16 * (k + 1) ensures DigitAt(t, p) == DigitOf(bm, p) {
      if p < 16 * k {
        assert DigitAt(t, p) == DigitAt(rest, p);
      } else {
        assert p / 16 == k && p % 16 == p - 16 * k;
        assert t[|t| - 1 - p] == block[15 - p % 16];
      }
    }
    forall i | 0 <= i < |t| ensures IsHex(t[i]) {
      assert t[i] == if i < 16 then block[i] else rest[i - 16];
    }
  }

  lemma Trimmed(t: string)
    requires |t| > 0 && t[0] == '0'
    ensures forall p: nat :: DigitAt(t[1..], p) == DigitAt(t, p)
  {
  }

  // --- both ---

  lemma SameBits(s: string, a: seq<Block>, b: seq<Block>)
    requires Denotes(s, a) && Denotes(s, b)
    ensures forall n: nat :: Bit(a, n) <==> Bit(b, n)
  {
    forall n: nat ensures Bit(a, n) <==> Bit(b, n) {
      assert DigitAt(s, n / 4) == DigitOf(a, n / 4) && DigitAt(s, n / 4) == DigitOf(b, n / 4);
    }
  }

  /** Writing a bitmap and reading it back gives exactly its bits. */
  method RoundTrip(bm: seq<Block>) returns (r: Result<seq<Block>, string>)
    ensures r.Ok? && forall n: nat :: Bit(r.value, n) <==> Bit(bm, n)
  {
    var s := ToString(bm);
    assert s[0] == s[..2][0] && s[1] == s[..2][1];
    r := NewFrom(s);
    SameBits(s[2..], r.value, bm);
  }
}
