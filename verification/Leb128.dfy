/** Unsigned LEB128 as the bundle code reads and writes it, including the padded form that
    keeps a size field at the width it had. */
module Leb128 {
  import opened Options

  newtype Byte = x: int | 0 <= x < 256

  type Bytes = seq<Byte>

  /** The decoder gives up after this many bytes. */
  const MAX_LEB_BYTES: nat := 8

  /** Encoded lengths and sizes are non-negative safe integers. */
  const SAFE_LIMIT: nat := 0x20_0000_0000_0000

  /** A decoded value and how many bytes it took. */
  datatype Leb = Leb(value: nat, length: nat)

  // ----- the encoding as a value ------------------------------------------------------------

  function Encode(v: nat): (r: Bytes)
    ensures |r| > 0
  {
    if v < 128 then [v as Byte] else [(v % 128 + 128) as Byte] + Encode(v / 128)
  }

  /** The same value in exactly `width` bytes when it fits, in its minimal form otherwise. */
  function EncodeAtWidth(v: nat, width: nat): Bytes {
    if |Encode(v)| >= width then Encode(v) else Padded(v, width)
  }

  function Padded(v: nat, width: nat): (r: Bytes)
    requires width > 0
    ensures |r| == width
  {
    if width == 1 then [(v % 128) as Byte] else [(v % 128 + 128) as Byte] + Padded(v / 128, width - 1)
  }

  /** The seven value bits of a byte. */
  function Low(b: Byte): (r: nat)
    ensures r < 128
  {
    b as int % 128
  }

  /** Read at most `budget` bytes. */
  function DecodeWithin(s: Bytes, budget: nat): (r: Option<Leb>)
    ensures r.Some? ==> 0 < r.value.length <= |s| && r.value.length <= budget
  {
    if |s| == 0 || budget == 0 then None
    else if s[0] < 128 then Some(Leb(s[0] as nat, 1))
    else
      match DecodeWithin(s[1..], budget - 1)
      case None => None
      case Some(rest) => Some(Leb(Low(s[0]) + 128 * rest.value, rest.length + 1))
  }

  function Decode(s: Bytes): (r: Option<Leb>)
    ensures r.Some? ==> 0 < r.value.length <= |s| && r.value.length <= MAX_LEB_BYTES
  {
    DecodeWithin(s, MAX_LEB_BYTES)
  }

  // ----- round trips ----------------------------------------------------------------------------

  /** Decoding looks only at the bytes it consumes. */
  lemma {:induction false} DecodeIsLocal(s: Bytes, t: Bytes, budget: nat)
    requires DecodeWithin(s, budget).Some?
    ensures var n := DecodeWithin(s, budget).value.length;
      DecodeWithin(s[..n] + t, budget) == DecodeWithin(s, budget)
  {
    var n := DecodeWithin(s, budget).value.length;
    if s[0] >= 128 {
      DecodeIsLocal(s[1..], t, budget - 1);
      assert (s[..n] + t)[1..] == s[1..][..n - 1] + t;
    }
  }

  lemma DecodeExtends(s: Bytes, t: Bytes)
    requires Decode(s).Some?
    ensures Decode(s + t) == Decode(s)
  {
    var n := Decode(s).value.length;
    DecodeIsLocal(s, s[n..] + t, MAX_LEB_BYTES);
    assert s[..n] + (s[n..] + t) == s + t;
  }

  /** A truncated encoding never decodes; what decodes after more bytes arrive ends there. */
  lemma {:induction false} DecodeShorter(s: Bytes, t: Bytes, budget: nat)
    requires DecodeWithin(s + t, budget).Some? && DecodeWithin(s + t, budget).value.length <= |s|
    ensures DecodeWithin(s, budget) == DecodeWithin(s + t, budget)
  {
    assert (s + t)[0] == s[0];
    if s[0] >= 128 {
      assert (s + t)[1..] == s[1..] + t;
      DecodeShorter(s[1..], t, budget - 1);
    }
  }

  lemma {:induction false} PaddedDecodes(v: nat, width: nat, t: Bytes, budget: nat)
    requires 0 < width <= budget && v < Pow128(width)
    ensures DecodeWithin(Padded(v, width) + t, budget) == Some(Leb(v, width))
  {
    var s := Padded(v, width) + t;
    if width > 1 {
      assert s[1..] == Padded(v / 128, width - 1) + t;
      PaddedDecodes(v / 128, width - 1, t, budget - 1);
    }
  }

  function Pow128(n: nat): (r: nat)
    ensures r > 0
  {
    if n == 0 then 1 else 128 * Pow128(n - 1)
  }

  /** The minimal encoding is the padded one of its own width, and that width is minimal. */
  lemma {:induction false} EncodeIsPadded(v: nat)
    ensures Encode(v) == Padded(v, |Encode(v)|)
    ensures v < Pow128(|Encode(v)|)
    ensures |Encode(v)| > 1 ==> Pow128(|Encode(v)| - 1) <= v
  {
    if v >= 128 {
      EncodeIsPadded(v / 128);
    }
  }

  lemma {:induction false} Pow128Grows(m: nat, n: nat)
    requires m <= n
    ensures Pow128(m) <= Pow128(n)
  {
    if m < n {
      Pow128Grows(m, n - 1);
    }
  }

  lemma SafeFits(v: nat)
    requires v < SAFE_LIMIT
    ensures |Encode(v)| <= MAX_LEB_BYTES
  {
    assert Pow128(4) == 0x1000_0000;
    assert Pow128(8) == 0x1000_0000 * 0x1000_0000 by {
      assert Pow128(8) == 128 * (128 * (128 * (128 * Pow128(4))));
    }
    WidthBound(v, MAX_LEB_BYTES);
  }

  lemma {:induction false} WidthBound(v: nat, width: nat)
    requires 0 < width && v < Pow128(width)
    ensures |Encode(v)| <= width
  {
    if v >= 128 {
      assert width > 1;
      WidthBound(v / 128, width - 1);
    }
  }

  /** Every safe integer survives encoding, at any width the decoder accepts, with anything
      behind it; and the field keeps its width whenever the value fits it. */
  lemma RoundTrip(v: nat, width: nat, t: Bytes)
    requires v < SAFE_LIMIT && width <= MAX_LEB_BYTES
    ensures var r := EncodeAtWidth(v, width);
      && Decode(r + t) == Some(Leb(v, |r|))
      && (v < Pow128(width) && width > 0 ==> |r| == width)
  {
    SafeFits(v);
    EncodeIsPadded(v);
    var n := |Encode(v)|;
    if 0 < width && v < Pow128(width) {
      WidthBound(v, width);
    }
    if n >= width {
      PaddedDecodes(v, n, t, MAX_LEB_BYTES);
    } else {
      Pow128Grows(n, width);
      PaddedDecodes(v, width, t, MAX_LEB_BYTES);
    }
  }

  /** A field of a given width has only one reading and one spelling: what decodes to `v` in
      `n` bytes is the `n`-byte encoding of `v`. */
  lemma {:induction false} SpellingIsUnique(s: Bytes, budget: nat)
    requires DecodeWithin(s, budget).Some? && DecodeWithin(s, budget).value.length == |s|
    ensures var v := DecodeWithin(s, budget).value.value;
      s == Padded(v, |s|) && v < Pow128(|s|) && s == EncodeAtWidth(v, |s|)
  {
    var v := DecodeWithin(s, budget).value.value;
    if s[0] >= 128 {
      SpellingIsUnique(s[1..], budget - 1);
      assert s == [s[0]] + s[1..];
    }
    assert s == Padded(v, |s|);
    WidthBound(v, |s|);
    EncodeIsPadded(v);
  }

  // ----- the loops ------------------------------------------------------------------------------

  /** Seven bits per byte; the final pass, which sets no continuation bit, follows the loop. */
  method EncodeLoop(v: nat) returns (out: Bytes)
    ensures out == Encode(v)
  {
    var remaining := v;
    out := [];
    while remaining >= 128
      invariant out + Encode(remaining) == Encode(v)
    {
      out := out + [(remaining % 128 + 128) as Byte];
      remaining := remaining / 128;
    }
    out := out + [remaining as Byte];
  }

  /** A size field rewritten at the width it had. */
  method EncodeAtWidthLoop(v: nat, width: nat) returns (out: Bytes)
    ensures out == EncodeAtWidth(v, width)
  {
    var minimal := EncodeLoop(v);
    if |minimal| >= width {
      return minimal;
    }
    out := [];
    var remaining := v;
    for index := 0 to width
      invariant index < width ==> out + Padded(remaining, width - index) == Padded(v, width)
      invariant index == width ==> out == Padded(v, width)
    {
      var byte := remaining % 128;
      remaining := remaining / 128;
      out := out + [(if index < width - 1 then byte + 128 else byte) as Byte];
    }
  }

  /** What the whole reads as, once `count` bytes with value `result` have been consumed. */
  ghost function Resumed(result: nat, weight: nat, count: nat, rest: Option<Leb>): Option<Leb> {
    match rest
    case None => None
    case Some(l) => Some(Leb(result + weight * l.value, count + l.length))
  }

  /** Accumulate seven bits per byte from `offset` on. */
  method DecodeLoop(bytes: Bytes, offset: nat) returns (r: Option<Leb>)
    requires offset <= |bytes|
    ensures r == Decode(bytes[offset..])
  {
    var result: nat, weight: nat, count: nat := 0, 1, 0;
    while offset + count < |bytes|
      invariant count < MAX_LEB_BYTES && offset + count <= |bytes|
      invariant Decode(bytes[offset..])
             == Resumed(result, weight, count, DecodeWithin(bytes[offset + count..], MAX_LEB_BYTES - count))
      decreases MAX_LEB_BYTES - count
    {
      hide Resumed, DecodeWithin;
      var byte := bytes[offset + count];
      ResumeStep(result, weight, count, bytes[offset + count..], MAX_LEB_BYTES - count);
      assert bytes[offset + count..][1..] == bytes[offset + count + 1..];
      if byte < 128 {
        return Some(Leb(result + weight * byte as nat, count + 1));
      }
      result := result + weight * Low(byte);
      weight := weight * 128;
      count := count + 1;
      if count == MAX_LEB_BYTES {
        return None;
      }
    }
    return None;
  }

  lemma ResumeStep(result: nat, weight: nat, count: nat, s: Bytes, budget: nat)
    requires |s| > 0 && budget > 0
    ensures Resumed(result, weight, count, DecodeWithin(s, budget))
         == if s[0] < 128 then Some(Leb(result + weight * s[0] as nat, count + 1))
            else if budget == 1 then None
            else Resumed(result + weight * Low(s[0]), weight * 128, count + 1, DecodeWithin(s[1..], budget - 1))
  {
    var rest := DecodeWithin(s[1..], budget - 1);
    if rest.Some? {
      assert weight * (Low(s[0]) + 128 * rest.value.value)
          == weight * Low(s[0]) + weight * 128 * rest.value.value;
    }
  }
}
