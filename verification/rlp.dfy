/** Recursive length prefix coding (Yellow Paper, Appendix B): a canonical encoder and
    a strict decoder, and why they are inverse. */
module Rlp {
  import opened Basics

  type Bytes = seq<Byte>

  datatype Kind = String | List
  datatype Item = Item(kind: Kind, raw: Bytes, payload: Bytes)

  /** Lengths the encoder can write: it uses at most four length bytes. */
  const MAX_LENGTH := 0x1_0000_0000

  // ----- big-endian numbers --------------------------------------------------------------------

  function Pow256(k: nat): (r: nat)
    ensures r >= 1
  {
    if k == 0 then 1 else 256 * Pow256(k - 1)
  }

  /** The low `k` bytes of `n`, most significant first. */
  function BeBytes(n: nat, k: nat): (r: Bytes)
    ensures |r| == k
    decreases k
  {
    if k == 0 then [] else BeBytes(n / 256, k - 1) + [n % 256]
  }

  function BeValue(b: Bytes): nat {
    if b == [] then 0 else BeValue(b[..|b| - 1]) * 256 + b[|b| - 1]
  }

  lemma {:induction false} ValueOfBytes(n: nat, k: nat)
    requires n < Pow256(k)
    ensures BeValue(BeBytes(n, k)) == n
    decreases k
  {
    if k > 0 {
      ValueOfBytes(n / 256, k - 1);
      assert BeBytes(n, k)[..k - 1] == BeBytes(n / 256, k - 1);
    }
  }

  lemma {:induction false} BytesOfValue(b: Bytes)
    ensures BeValue(b) < Pow256(|b|)
    ensures BeBytes(BeValue(b), |b|) == b
    decreases |b|
  {
    if b != [] {
      BytesOfValue(b[..|b| - 1]);
      assert b == b[..|b| - 1] + [b[|b| - 1]];
    }
  }

  /** A first byte that is not zero makes the number as wide as its bytes. */
  lemma {:induction false} WideValue(b: Bytes)
    requires b != [] && b[0] != 0
    ensures Pow256(|b| - 1) <= BeValue(b)
    decreases |b|
  {
    if |b| > 1 {
      WideValue(b[..|b| - 1]);
    }
  }

  lemma {:induction false} PowMonotone(a: nat, b: nat)
    requires a <= b
    ensures Pow256(a) <= Pow256(b)
    decreases b
  {
    if a < b { PowMonotone(a, b - 1); }
  }

  lemma {:induction false} NoLeadingZero(n: nat, k: nat)
    requires k >= 1 && Pow256(k - 1) <= n < Pow256(k)
    ensures BeBytes(n, k)[0] != 0
    decreases k
  {
    if k > 1 {
      assert Pow256(k - 1) == 256 * Pow256(k - 2);
      NoLeadingZero(n / 256, k - 1);
    }
  }

  // ----- encoding -----------------------------------------------------------------------------------

  /** Length bytes the encoder uses. */
  function LengthBytes(len: nat): (n: nat)
    ensures 1 <= n <= 4
  {
    if len <= 0xff then 1 else if len <= 0xffff then 2 else if len <= 0xffffff then 3 else 4
  }

  function ShortBase(k: Kind): Byte { if k.String? then 0x80 else 0xc0 }
  function LongBase(k: Kind): Byte { if k.String? then 0xb7 else 0xf7 }

  function Header(k: Kind, len: nat): Bytes {
    if len <= 55 then [ShortBase(k) + len]
    else [LongBase(k) + LengthBytes(len)] + BeBytes(len, LengthBytes(len))
  }

  /** The one encoding of a string or of a list payload. */
  function Encode(k: Kind, payload: Bytes): Bytes {
    if k.String? && |payload| == 1 && payload[0] < 0x80 then payload
    else Header(k, |payload|) + payload
  }

  lemma LengthFits(len: nat)
    requires len < MAX_LENGTH
    ensures len < Pow256(LengthBytes(len))
    ensures LengthBytes(len) > 1 ==> Pow256(LengthBytes(len) - 1) <= len
  {
    assert Pow256(1) == 256 && Pow256(2) == 0x10000 && Pow256(3) == 0x1000000 by {
      assert Pow256(0) == 1;
      assert Pow256(1) == 256 * Pow256(0);
      assert Pow256(2) == 256 * Pow256(1);
      assert Pow256(3) == 256 * Pow256(2);
    }
    assert Pow256(4) == 256 * Pow256(3);
  }

  /** `n` shifted right by `i` bytes. */
  function ShiftBytes(n: nat, i: nat): nat {
    if i == 0 then n else ShiftBytes(n, i - 1) / 256
  }

  /** The encoder's loop: bytes of `len` from the top, by shifting. */
  method AppendBe(out: Bytes, len: nat, n: nat) returns (r: Bytes)
    requires n <= 8
    ensures r == out + BeBytes(len, n)
  {
    r := out;
    var i := n;
    assert r == out + [];
    while i > 0
      invariant 0 <= i <= n && r == out + BeBytes(ShiftBytes(len, i), n - i)
      decreases i
    {
      i := i - 1;
      var q := ShiftBytes(len, i);
      ByteAppended(out, r, q, n - i - 1);
      r := r + [q % 256];
    }
  }

  lemma ByteAppended(out: Bytes, r: Bytes, q: nat, m: nat)
    requires r == out + BeBytes(q / 256, m)
    ensures r + [q % 256] == out + BeBytes(q, m + 1)
  {
    assert BeBytes(q, m + 1) == BeBytes(q / 256, m) + [q % 256];
  }

  method AppendHeader(out: Bytes, k: Kind, len: nat) returns (r: Bytes)
    ensures r == out + Header(k, len)
  {
    if len <= 55 {
      r := out + [ShortBase(k) + len];
    } else {
      var n := LengthBytes(len);
      r := out + [LongBase(k) + n];
      r := AppendBe(r, len, n);
      assert out + [LongBase(k) + n] + BeBytes(len, n) == out + ([LongBase(k) + n] + BeBytes(len, n));
    }
  }

  method EncodeItem(k: Kind, payload: Bytes) returns (r: Bytes)
    ensures r == Encode(k, payload)
  {
    if k.String? && |payload| == 1 && payload[0] < 0x80 { return payload; }
    r := AppendHeader([], k, |payload|);
    assert [] + Header(k, |payload|) == Header(k, |payload|);
    r := r + payload;
  }

  // ----- decoding -------------------------------------------------------------------------------------

  /** The decoder's loop over at most eight length bytes; it cannot overflow 64 bits. */
  method ReadBe(b: Bytes) returns (v: nat)
    requires |b| <= 8
    ensures v == BeValue(b) < Pow256(8)
  {
    v := 0;
    for i := 0 to |b|
      invariant v == BeValue(b[..i])
    {
      assert b[..i + 1][..i] == b[..i];
      v := v * 256 + b[i];
    }
    assert b[..|b|] == b;
    BytesOfValue(b);
    PowMonotone(|b|, 8);
  }

  /** A long form of `n` length bytes; refused when it is not the canonical one. */
  function LongItem(k: Kind, data: Bytes, n: nat): Option<Item>
    requires 1 <= n <= 8
  {
    if |data| < 1 + n || data[1] == 0 then None
    else
      var len := BeValue(data[1..1 + n]);
      if len <= 55 || len > |data| - (1 + n) then None
      else Some(Item(k, data[..1 + n + len], data[1 + n..1 + n + len]))
  }

  function ShortItem(k: Kind, data: Bytes, len: nat): Option<Item> {
    if |data| < 1 + len then None
    else if k.String? && len == 1 && data[1] < 0x80 then None
    else Some(Item(k, data[..1 + len], data[1..1 + len]))
  }

  /** One item at the start of the data, or nothing where the decoder halts. */
  function Decode(data: Bytes): Option<Item> {
    if data == [] then None
    else
      var b := data[0];
      if b < 0x80 then Some(Item(String, data[..1], data[..1]))
      else if b <= 0xb7 then ShortItem(String, data, b - 0x80)
      else if b <= 0xbf then LongItem(String, data, b - 0xb7)
      else if b <= 0xf7 then ShortItem(List, data, b - 0xc0)
      else LongItem(List, data, b - 0xf7)
  }

  method DecodeLong(k: Kind, data: Bytes, n: nat) returns (r: Option<Item>)
    requires 1 <= n <= 8
    ensures r == LongItem(k, data, n)
  {
    if |data| < 1 + n { return None; }
    if data[1] == 0 { return None; }
    var len := ReadBe(data[1..1 + n]);
    if len <= 55 { return None; }
    if len > |data| - (1 + n) { return None; }
    r := Some(Item(k, data[..1 + n + len], data[1 + n..1 + n + len]));
  }

  method DecodeItem(data: Bytes) returns (r: Option<Item>)
    ensures r == Decode(data)
  {
    if data == [] { return None; }
    var b := data[0];
    if b < 0x80 { return Some(Item(String, data[..1], data[..1])); }
    if b <= 0xb7 { return ShortItem(String, data, b - 0x80); }
    if b <= 0xbf { r := DecodeLong(String, data, b - 0xb7); return; }
    if b <= 0xf7 { return ShortItem(List, data, b - 0xc0); }
    r := DecodeLong(List, data, b - 0xf7);
  }

  // ----- inverses ----------------------------------------------------------------------------------------

  lemma LengthCoded(len: nat)
    requires 0 < len < MAX_LENGTH
    ensures var be := BeBytes(len, LengthBytes(len)); BeValue(be) == len && be[0] != 0
  {
    var n := LengthBytes(len);
    LengthFits(len);
    ValueOfBytes(len, n);
    if n == 1 { assert Pow256(0) == 1; }
    NoLeadingZero(len, n);
  }

  /** The encoding rule of the Yellow Paper, Appendix B, read off the bytes. */
  lemma EncodeForm(k: Kind, payload: Bytes) returns (be: Bytes)
    requires |payload| < MAX_LENGTH
    ensures k.String? && |payload| == 1 && payload[0] <= 0x7f ==> Encode(k, payload) == payload
    ensures !(k.String? && |payload| == 1 && payload[0] <= 0x7f) && |payload| < 56 ==>
            Encode(k, payload) == [(if k.String? then 128 else 192) + |payload|] + payload
    ensures |payload| >= 56 ==>
            && 1 <= |be| <= 4 && be[0] != 0 && BeValue(be) == |payload|
            && Encode(k, payload) == [(if k.String? then 183 else 247) + |be|] + be + payload
  {
    be := BeBytes(|payload|, LengthBytes(|payload|));
    if |payload| >= 56 { LengthCoded(|payload|); }
  }

  lemma LongRoundTrip(k: Kind, payload: Bytes, tail: Bytes)
    requires 55 < |payload| < MAX_LENGTH
    ensures LongItem(k, Encode(k, payload) + tail, LengthBytes(|payload|)) == Some(Item(k, Encode(k, payload), payload))
  {
    var n := LengthBytes(|payload|);
    LengthCoded(|payload|);
    LongItemOf(k, LongBase(k) + n, BeBytes(|payload|, n), payload, tail);
  }

  /** The long form read off its four parts. */
  lemma LongItemOf(k: Kind, lead: Byte, be: Bytes, payload: Bytes, tail: Bytes)
    requires 1 <= |be| <= 8 && be[0] != 0 && BeValue(be) == |payload| > 55
    ensures LongItem(k, [lead] + be + payload + tail, |be|) == Some(Item(k, [lead] + be + payload, payload))
  {
    FourParts([lead], be, payload, tail);
  }

  lemma FourParts(a: Bytes, b: Bytes, c: Bytes, d: Bytes)
    ensures (a + b + c + d)[|a|..|a| + |b|] == b
    ensures b != [] ==> (a + b + c + d)[|a|] == b[0]
    ensures (a + b + c + d)[..|a| + |b| + |c|] == a + b + c
    ensures (a + b + c + d)[|a| + |b|..|a| + |b| + |c|] == c
  {
  }

  /** Decoding an encoding gives it back, whatever follows it. */
  lemma DecodeEncode(k: Kind, payload: Bytes, tail: Bytes)
    requires |payload| < MAX_LENGTH
    ensures Decode(Encode(k, payload) + tail) == Some(Item(k, Encode(k, payload), payload))
  {
    var enc := Encode(k, payload);
    var data := enc + tail;
    if k.String? && |payload| == 1 && payload[0] < 0x80 {
      assert data[..1] == payload;
    } else if |payload| <= 55 {
      assert data[0] == ShortBase(k) + |payload|;
      assert data[..1 + |payload|] == enc;
      assert data[1..1 + |payload|] == payload;
    } else {
      LongRoundTrip(k, payload, tail);
      assert data[0] == LongBase(k) + LengthBytes(|payload|);
    }
  }

  /** Four length bytes never spell a longer payload. */
  lemma LongestRead(k: Kind, data: Bytes)
    ensures LongItem(k, data, 4).Some? ==> |LongItem(k, data, 4).value.payload| < MAX_LENGTH
  {
    if |data| >= 5 {
      var be := data[1..5];
      BytesOfValue(be);
      PowFour();
    }
  }

  lemma PowFour()
    ensures Pow256(4) == MAX_LENGTH
  {
    assert Pow256(1) == 256 * Pow256(0) && Pow256(2) == 256 * Pow256(1) && Pow256(3) == 256 * Pow256(2);
    assert Pow256(4) == 256 * Pow256(3);
  }

  /** The round trip holds exactly below 2^32: longer lengths are cut to four bytes. */
  lemma RoundTripIff(k: Kind, payload: Bytes, tail: Bytes)
    ensures Decode(Encode(k, payload) + tail) == Some(Item(k, Encode(k, payload), payload)) <==> |payload| < MAX_LENGTH
  {
    if |payload| < MAX_LENGTH {
      DecodeEncode(k, payload, tail);
    } else {
      var data := Encode(k, payload) + tail;
      assert data[0] == LongBase(k) + 4;
      LongestRead(k, data);
    }
  }

  /** Canonical length bytes are the encoder's. */
  lemma LengthsAgree(b: Bytes)
    requires b != [] && |b| <= 8 && b[0] != 0 && BeValue(b) < MAX_LENGTH
    ensures LengthBytes(BeValue(b)) == |b| && BeBytes(BeValue(b), |b|) == b
  {
    var v := BeValue(b);
    BytesOfValue(b);
    WideValue(b);
    LengthFits(v);
    var n := LengthBytes(v);
    if |b| < n {
      PowMonotone(|b|, n - 1);
    } else if n < |b| {
      PowMonotone(n, |b| - 1);
    }
  }

  lemma LongCanonical(k: Kind, data: Bytes, n: nat)
    requires 1 <= n <= 8 && data != [] && data[0] == LongBase(k) + n
    requires LongItem(k, data, n).Some? && |LongItem(k, data, n).value.payload| < MAX_LENGTH
    ensures var it := LongItem(k, data, n).value;
            it.raw == Encode(k, it.payload) && it.raw <= data
  {
    var it := LongItem(k, data, n).value;
    var b := data[1..1 + n];
    assert b[0] == data[1];
    LengthsAgree(b);
    assert it.raw == [data[0]] + b + it.payload;
  }

  /** Whatever is accepted re-encodes to its own bytes: the decoder takes no other form. */
  lemma EncodeDecode(data: Bytes)
    requires Decode(data).Some? && |Decode(data).value.payload| < MAX_LENGTH
    ensures var it := Decode(data).value;
            it.raw == Encode(it.kind, it.payload) && it.raw <= data && it.raw != []
  {
    var it := Decode(data).value;
    var b := data[0];
    if 0xb7 < b <= 0xbf {
      LongCanonical(String, data, b - 0xb7);
    } else if 0xf7 < b {
      LongCanonical(List, data, b - 0xf7);
    } else if b >= 0x80 {
      assert it.raw == [b] + it.payload;
    }
  }

  /** Two encodings with anything behind them that look alike are of the same item. */
  lemma PrefixFree(k: Kind, p: Bytes, k': Kind, p': Bytes, t: Bytes, t': Bytes)
    requires |p| < MAX_LENGTH && |p'| < MAX_LENGTH && Encode(k, p) + t == Encode(k', p') + t'
    ensures k == k' && p == p' && t == t'
  {
    DecodeEncode(k, p, t);
    DecodeEncode(k', p', t');
    assert t == (Encode(k, p) + t)[|Encode(k, p)|..];
  }

  // ----- integers ------------------------------------------------------------------------------------------

  /** The shortest big-endian form; nothing for zero. */
  function Minimal(v: nat): Bytes {
    if v == 0 then [] else Minimal(v / 256) + [v % 256]
  }

  function EncodeUint(v: nat): Bytes { Encode(String, Minimal(v)) }

  lemma {:induction false} MinimalValue(v: nat, w: nat)
    requires v < Pow256(w)
    ensures BeValue(Minimal(v)) == v && |Minimal(v)| <= w
    ensures Minimal(v) != [] ==> Minimal(v)[0] != 0
    decreases v
  {
    if v != 0 {
      assert w > 0;
      MinimalValue(v / 256, w - 1);
      assert Minimal(v)[..|Minimal(v)| - 1] == Minimal(v / 256);
    }
  }

  lemma {:induction false} MinimalOf(b: Bytes)
    requires b != [] ==> b[0] != 0
    ensures Minimal(BeValue(b)) == b
    decreases |b|
  {
    if b != [] {
      WideValue(b);
      MinimalOf(b[..|b| - 1]);
      assert b == b[..|b| - 1] + [b[|b| - 1]];
    }
  }

  /** The encoder takes a fixed-width number and skips its leading zero bytes. */
  function LeadingZeros(b: Bytes): (n: nat)
    ensures n <= |b|
  {
    if b == [] || b[0] != 0 then 0 else 1 + LeadingZeros(b[1..])
  }

  lemma {:induction false} TrimmedIsMinimal(b: Bytes)
    ensures Minimal(BeValue(b)) == b[LeadingZeros(b)..]
    decreases |b|
  {
    if b != [] && b[0] == 0 {
      TrimmedIsMinimal(b[1..]);
      DropZero(b);
      assert b[1..][LeadingZeros(b[1..])..] == b[LeadingZeros(b)..];
    } else {
      MinimalOf(b);
    }
  }

  lemma {:induction false} DropZero(b: Bytes)
    requires b != [] && b[0] == 0
    ensures BeValue(b) == BeValue(b[1..])
    decreases |b|
  {
    if |b| > 1 {
      DropZero(b[..|b| - 1]);
      assert b[..|b| - 1][1..] == b[1..][..|b| - 2];
    }
  }

  /** `encode_u64` and `encode_u256` for a value of `width` bytes. */
  method EncodeFixed(v: nat, width: nat) returns (r: Bytes)
    requires v < Pow256(width)
    ensures r == EncodeUint(v)
  {
    var be := BeBytes(v, width);
    var start := 0;
    while start < |be| && be[start] == 0
      invariant start <= |be| && LeadingZeros(be) == start + LeadingZeros(be[start..])
    {
      assert be[start..][1..] == be[start + 1..];
      start := start + 1;
    }
    ValueOfBytes(v, width);
    TrimmedIsMinimal(be);
    r := EncodeItem(String, be[start..]);
  }

  /** `as_u64` (8 bytes) and `as_u256` (32 bytes): canonical numbers only. */
  function Uint(it: Item, width: nat): Option<nat> {
    if it.kind != String || |it.payload| > width || (it.payload != [] && it.payload[0] == 0) then None
    else Some(BeValue(it.payload))
  }

  method AsUint(it: Item, width: nat) returns (r: Option<nat>)
    ensures r == Uint(it, width)
  {
    if it.kind != String { return None; }
    if |it.payload| > width { return None; }
    if it.payload != [] && it.payload[0] == 0 { return None; }
    var v: nat := 0;
    for i := 0 to |it.payload|
      invariant v == BeValue(it.payload[..i])
    {
      assert it.payload[..i + 1][..i] == it.payload[..i];
      v := v * 256 + it.payload[i];
    }
    assert it.payload[..|it.payload|] == it.payload;
    r := Some(v);
  }

  /** Reading an integer field and writing it again: the same number, the same bytes. */
  lemma UintInverse(it: Item, width: nat)
    requires Uint(it, width).Some?
    ensures Uint(it, width).value < Pow256(width) && Minimal(Uint(it, width).value) == it.payload
  {
    BytesOfValue(it.payload);
    PowMonotone(|it.payload|, width);
    MinimalOf(it.payload);
  }

  lemma UintRoundTrip(v: nat, width: nat, raw: Bytes)
    requires v < Pow256(width)
    ensures Uint(Item(String, raw, Minimal(v)), width) == Some(v)
  {
    MinimalValue(v, width);
  }
}
