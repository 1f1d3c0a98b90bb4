/** Base 128 varints and ZigZag: the arithmetic of pb_encode.c and pb_decode.c as functions on
    byte strings. */
module Varint {
  import opened Words

  /** The integer a group of varint bytes spells, low seven bits first, before any truncation. */
  function Base128(bs: seq<Byte>): nat {
    if bs == [] then 0 else bs[0] % 128 + 128 * Base128(bs[1..])
  }

  /** One varint and nothing after it: only the last byte has its top bit clear. */
  predicate IsGroup(bs: seq<Byte>) {
    |bs| > 0 && bs[|bs| - 1] < 128 && forall i :: 0 <= i < |bs| - 1 ==> bs[i] >= 128
  }

  function EncodeVarint(v: nat): (bs: seq<Byte>)
    ensures |bs| > 0
  {
    if v < 128 then [v] else [v % 128 + 128] + EncodeVarint(v / 128)
  }

  /** Length of the varint at the front of `bs`, if it ends at all. */
  function GroupLength(bs: seq<Byte>): (r: Option<nat>)
    ensures r.Some? ==> 0 < r.value <= |bs| && IsGroup(bs[..r.value])
    ensures r.None? ==> forall i :: 0 <= i < |bs| ==> bs[i] >= 128
  {
    if bs == [] then None
    else if bs[0] < 128 then Some(1)
    else match GroupLength(bs[1..])
      case None => None
      case Some(n) =>
        assert bs[..n + 1] == [bs[0]] + bs[1..][..n];
        Some(n + 1)
  }

  function DecodeVarint(bs: seq<Byte>): (r: Parse<nat>)
    ensures r.Ok? ==> |r.rest| < |bs| && r.value < TWO64
  {
    match GroupLength(bs)
    case None => Fail
    case Some(n) => if n > 10 then Fail else Ok(Base128(bs[..n]) % TWO64, bs[n..])
  }

  /** The loop of the 32-bit decoder from its second byte on; `bitpos` is a uint_fast8_t of eight
      bits and wraps, and nothing but the end of input stops a run of continuation bytes. */
  function Varint32Tail(bs: seq<Byte>, bitpos: nat, acc: nat): (r: Parse<nat>)
    requires bitpos < 256 && acc < TWO32
    ensures r.Ok? ==> |r.rest| < |bs| && r.value < TWO32
    decreases |bs|
  {
    if bs == [] then Fail
    else
      var b := bs[0];
      if bitpos >= 32 && b % 128 != 0 && (acc < TWO31 || b != SignExtension(bitpos)) then Fail
      else
        var acc' := Merge32(acc, b, bitpos);
        var bitpos' := (bitpos + 7) % 256;
        if b >= 128 then Varint32Tail(bs[1..], bitpos', acc')
        else if bitpos' == 35 && b / 16 % 8 != 0 then Fail
        else Ok(acc', bs[1..])
  }

  function SignExtension(bitpos: nat): Byte {
    if bitpos < 63 then 0xFF else 0x01
  }

  /** `result |= (uint32_t)(byte & 0x7F) << bitpos`, skipped from bit 32 on. */
  function Merge32(acc: nat, b: Byte, bitpos: nat): (r: nat)
    requires acc < TWO32
    ensures r < TWO32
  {
    if bitpos >= 32 then acc
    else
      Pow2Words();
      BitOrBound(acc, Shl(b % 128, bitpos) % TWO32, 32);
      BitOr(acc, Shl(b % 128, bitpos) % TWO32)
  }

  function DecodeVarint32(bs: seq<Byte>): (r: Parse<nat>)
    ensures r.Ok? ==> |r.rest| < |bs| && r.value < TWO32
  {
    if bs == [] then Fail
    else if bs[0] < 128 then Ok(bs[0], bs[1..])
    else Varint32Tail(bs[1..], 7, bs[0] % 128)
  }

  // ---------------------------------------------------------------- encoding is minimal

  lemma {:induction false} EncodeVarintSpells(v: nat)
    ensures IsGroup(EncodeVarint(v)) && Base128(EncodeVarint(v)) == v
    decreases v
  {
    if v >= 128 {
      EncodeVarintSpells(v / 128);
      var t := EncodeVarint(v / 128);
      assert EncodeVarint(v)[1..] == t;
      assert forall i :: 0 < i < |t| + 1 ==> EncodeVarint(v)[i] == t[i - 1];
    } else {
      assert EncodeVarint(v)[1..] == [];
    }
  }

  /** No varint for `v` is shorter than the encoder's. */
  lemma {:induction false} EncodeVarintMinimal(bs: seq<Byte>)
    requires IsGroup(bs)
    ensures |EncodeVarint(Base128(bs))| <= |bs|
    ensures |EncodeVarint(Base128(bs))| == |bs| ==> EncodeVarint(Base128(bs)) == bs
    decreases |bs|
  {
    if |bs| == 1 {
      assert bs[1..] == [];
    } else {
      EncodeVarintMinimal(bs[1..]);
      var v := Base128(bs);
      assert v / 128 == Base128(bs[1..]) && v % 128 == bs[0] % 128;
      if v >= 128 {
        assert bs == [bs[0]] + bs[1..];
      }
    }
  }

  lemma {:induction false} EncodeVarintLength(v: nat, k: nat)
    requires v < Pow2(7 * k) && k > 0
    ensures |EncodeVarint(v)| <= k
    decreases k
  {
    if v >= 128 {
      ShlSeven(1, 7 * (k - 1));
      ShlShl(1, 7, 7 * (k - 1));
      assert 7 * (k - 1) + 7 == 7 * k;
      assert Pow2(7 * k) == 128 * Pow2(7 * (k - 1)) by { ScaleUp(7 * (k - 1)); }
      EncodeVarintLength(v / 128, k - 1);
    }
  }

  lemma ScaleUp(k: nat)
    ensures Pow2(k + 7) == 128 * Pow2(k)
  {
    assert Shl(1, k + 2) == 4 * Shl(1, k);
    assert Shl(1, k + 4) == 16 * Shl(1, k);
    assert Shl(1, k + 6) == 64 * Shl(1, k);
  }

  lemma EncodeVarintFits(v: nat)
    requires v < TWO64
    ensures 1 <= |EncodeVarint(v)| <= 10
  {
    Pow2Words();
    ShlMonotone(1, 1, 64, 70);
    EncodeVarintLength(v, 10);
  }

  // ---------------------------------------------------------------- the 64-bit decoder

  lemma {:induction false} GroupLengthOf(group: seq<Byte>, tail: seq<Byte>)
    requires IsGroup(group)
    ensures GroupLength(group + tail) == Some(|group|)
    decreases |group|
  {
    var bs := group + tail;
    if |group| > 1 {
      assert bs[1..] == group[1..] + tail;
      GroupLengthOf(group[1..], tail);
    }
  }

  /** A group of at most ten bytes decodes to its base 128 sum mod 2^64; a longer one, or input
      that never ends a group, does not decode. */
  lemma DecodeVarintAccepts(bs: seq<Byte>)
    ensures DecodeVarint(bs).Ok? <==> exists n :: 0 < n <= 10 && n <= |bs| && IsGroup(bs[..n])
    ensures forall n :: 0 < n <= 10 && n <= |bs| && IsGroup(bs[..n])
              ==> DecodeVarint(bs) == Ok(Base128(bs[..n]) % TWO64, bs[n..])
  {
    forall n | 0 < n <= |bs| && IsGroup(bs[..n])
      ensures GroupLength(bs) == Some(n)
    {
      assert bs == bs[..n] + bs[n..];
      GroupLengthOf(bs[..n], bs[n..]);
    }
  }

  lemma VarintRoundTrip(v: nat, tail: seq<Byte>)
    requires v < TWO64
    ensures DecodeVarint(EncodeVarint(v) + tail) == Ok(v, tail)
  {
    EncodeVarintSpells(v);
    EncodeVarintFits(v);
    var bs := EncodeVarint(v);
    GroupLengthOf(bs, tail);
    assert (bs + tail)[..|bs|] == bs && (bs + tail)[|bs|..] == tail;
  }

  // ---------------------------------------------------------------- the 32-bit decoder

  /** A group's value when its first byte stands at bit `shift`. */
  function Weighted(g: seq<Byte>, shift: nat): nat {
    if g == [] then 0 else Shl(g[0] % 128, shift) + Weighted(g[1..], shift + 7)
  }

  lemma {:induction false} WeightedIsShifted(g: seq<Byte>, shift: nat)
    ensures Weighted(g, shift) == Shl(Base128(g), shift)
    decreases |g|
  {
    if g != [] {
      WeightedIsShifted(g[1..], shift + 7);
      ShlSeven(Base128(g[1..]), shift);
      ShlAdd(g[0] % 128, 128 * Base128(g[1..]), shift);
    }
  }

  /** Below bit 28 the 32-bit loop adds the byte exactly. */
  lemma Merge32Low(acc: nat, b: Byte, shift: nat)
    requires shift <= 21 && acc < Pow2(shift)
    ensures acc < TWO32 && Merge32(acc, b, shift) == acc + Shl(b % 128, shift) < Pow2(shift + 7)
  {
    Pow2Words();
    ShlMonotone(1, 1, shift, 32);
    ShlMonotone(1, 1, shift + 7, 32);
    ShlMonotone(b % 128, 127, shift, shift);
    ShlAdd(127, 1, shift);
    ShlSeven(1, shift);
    Residue32(Shl(b % 128, shift), 0, Shl(b % 128, shift));
    BitOrDisjoint(acc, b % 128, shift);
  }

  /** At bit 28 it keeps only four bits of the byte, dropping `q` times 2^32. */
  lemma Merge32Top(acc: nat, b: Byte) returns (q: nat)
    requires acc < Pow2(28)
    ensures acc < TWO32 && acc + Shl(b % 128, 28) == Merge32(acc, b, 28) + q * TWO32
    ensures b % 128 < 16 ==> q == 0
  {
    var x := b % 128;
    q := x / 16;
    ShlWords(1);
    ShlWords(x);
    ShlWords(x % 16);
    Residue32(Shl(x, 28), q, Shl(x % 16, 28));
    BitOrDisjoint(acc, x % 16, 28);
  }

  /** One turn of the 32-bit loop drops `q` times 2^32. */
  lemma Merge32Step(acc: nat, b: Byte, k: nat) returns (acc': nat, q: nat)
    requires 0 < k && acc < TWO32 && (k <= 4 ==> acc < Pow2(7 * k))
    ensures acc' == Merge32(acc, b, 7 * k) && acc' < TWO32 && 7 * (k + 1) == 7 * k + 7
    ensures acc + Shl(b % 128, 7 * k) == acc' + q * TWO32
    ensures k < 4 ==> acc' < Pow2(7 * (k + 1))
  {
    hide Shl;
    assert 7 * (k + 1) == 7 * k + 7;
    acc' := Merge32(acc, b, 7 * k);
    if k < 4 {
      Merge32Low(acc, b, 7 * k);
      q := 0;
    } else if k == 4 {
      q := Merge32Top(acc, b);
    } else {
      q := Shl(b % 128, 7 * k - 32);
      ShlShl(b % 128, 7 * k - 32, 32);
      ShlWords(q);
    }
  }

  /** The 32-bit loop drops whole multiples `q` of 2^32 from the group's value, nothing else. */
  lemma {:induction false} Varint32TailAgrees(bs: seq<Byte>, k: nat, acc: nat) returns (q: nat)
    requires 0 < k < 10 && acc < TWO32 && (k <= 4 ==> acc < Pow2(7 * k))
    requires Varint32Tail(bs, 7 * k, acc).Ok?
    requires GroupLength(bs).Some? && GroupLength(bs).value + k <= 10
    ensures acc + Weighted(bs[..GroupLength(bs).value], 7 * k) == Varint32Tail(bs, 7 * k, acc).value + q * TWO32
    decreases |bs|
  {
    hide Merge32, Shl;
    var n := GroupLength(bs).value;
    var g := bs[..n];
    var acc', dropped := Merge32Step(acc, bs[0], k);
    q := dropped;
    if bs[0] >= 128 {
      assert bs[1..][..n - 1] == g[1..];
      var more := Varint32TailAgrees(bs[1..], k + 1, acc');
      q := dropped + more;
    } else {
      assert n == 1 && Weighted(g[1..], 7 * k + 7) == 0;
    }
  }

  /** If the 32-bit decoder succeeds within ten bytes, the 64-bit decoder reads the same bytes and
      the results agree mod 2^32. */
  lemma Varint32AgreesWith64(bs: seq<Byte>)
    requires DecodeVarint32(bs).Ok? && |bs| - |DecodeVarint32(bs).rest| <= 10
    ensures DecodeVarint(bs).Ok? && DecodeVarint(bs).rest == DecodeVarint32(bs).rest
    ensures DecodeVarint(bs).value % TWO32 == DecodeVarint32(bs).value
  {
    Varint32Stops(bs);
    var n := GroupLength(bs).value;
    var g := bs[..n];
    assert Weighted(g, 0) == bs[0] % 128 + Weighted(g[1..], 7);
    WeightedIsShifted(g, 0);
    if bs[0] < 128 {
      assert g[1..] == [];
    } else {
      assert bs[1..][..n - 1] == g[1..];
      var q := Varint32TailAgrees(bs[1..], 1, bs[0] % 128);
      Mod64Mod32(Base128(g), DecodeVarint32(bs).value, q);
    }
  }

  lemma Mod64Mod32(x: nat, r: nat, q: nat)
    requires x == r + q * TWO32 && r < TWO32
    ensures x % TWO64 % TWO32 == r
  {
    Residue32(x % TWO64, q - x / TWO64 * TWO32, r);
  }

  /** Success means the group ended where the decoder stopped. */
  lemma {:induction false} Varint32TailStops(bs: seq<Byte>, bitpos: nat, acc: nat)
    requires bitpos < 256 && acc < TWO32 && Varint32Tail(bs, bitpos, acc).Ok?
    ensures GroupLength(bs).Some? && Varint32Tail(bs, bitpos, acc).rest == bs[GroupLength(bs).value..]
    decreases |bs|
  {
    if bs[0] >= 128 {
      Varint32TailStops(bs[1..], (bitpos + 7) % 256, Merge32(acc, bs[0], bitpos));
      var n := GroupLength(bs[1..]).value;
      assert bs[1..][n..] == bs[n + 1..];
    }
  }

  lemma Varint32Stops(bs: seq<Byte>)
    requires DecodeVarint32(bs).Ok?
    ensures GroupLength(bs).Some? && DecodeVarint32(bs).rest == bs[GroupLength(bs).value..]
  {
    if bs[0] >= 128 {
      Varint32TailStops(bs[1..], 7, bs[0] % 128);
      var n := GroupLength(bs[1..]).value;
      assert bs[1..][n..] == bs[n + 1..];
    }
  }

  /** A last byte that fits is merged and ends the loop. */
  lemma Varint32TailLast(b: Byte, bitpos: nat, acc: nat, tail: seq<Byte>)
    requires bitpos <= 28 && acc < TWO32 && b < 128 && (bitpos == 28 ==> b < 16)
    ensures Varint32Tail([b] + tail, bitpos, acc) == Ok(Merge32(acc, b, bitpos), tail)
  {
    assert ([b] + tail)[1..] == tail;
  }

  lemma Varint32TailMore(b: Byte, bitpos: nat, acc: nat, tail: seq<Byte>)
    requires bitpos <= 28 && acc < TWO32 && b >= 128
    ensures Varint32Tail([b] + tail, bitpos, acc) == Varint32Tail(tail, bitpos + 7, Merge32(acc, b, bitpos))
  {
    assert ([b] + tail)[1..] == tail;
  }

  /** The loop accepts the minimal encoding of what is left of a 32-bit value. */
  lemma {:induction false} Varint32TailAccepts(v: nat, k: nat, acc: nat, tail: seq<Byte>)
    requires 0 < k <= 4 && acc < Pow2(7 * k) && 0 < v && Shl(v, 7 * k) < TWO32
    ensures acc < TWO32 && Varint32Tail(EncodeVarint(v) + tail, 7 * k, acc) == Ok(acc + Shl(v, 7 * k), tail)
    decreases v
  {
    assert k == 4 ==> v < 16 by { if k == 4 { ShlWords(v); } }
    if k == 4 {
      var q := Merge32Top(acc, v);
      Varint32TailLast(v, 28, acc, tail);
    } else if v < 128 {
      Merge32Low(acc, v, 7 * k);
      Varint32TailLast(v, 7 * k, acc, tail);
    } else {
      Varint32TailStep(v, k, acc, tail);
    }
  }

  lemma {:induction false} Varint32TailStep(v: nat, k: nat, acc: nat, tail: seq<Byte>)
    requires 0 < k < 4 && acc < Pow2(7 * k) && 128 <= v && Shl(v, 7 * k) < TWO32
    ensures acc < TWO32 && Varint32Tail(EncodeVarint(v) + tail, 7 * k, acc) == Ok(acc + Shl(v, 7 * k), tail)
    decreases v, 0
  {
    var b: Byte := v % 128 + 128;
    var rest := EncodeVarint(v / 128) + tail;
    var acc' := SplitShift(v, b, k, acc);
    assert EncodeVarint(v) + tail == [b] + rest;
    Varint32TailMore(b, 7 * k, acc, rest);
    Varint32TailAccepts(v / 128, k + 1, acc', tail);
  }

  lemma SplitShift(v: nat, b: Byte, k: nat, acc: nat) returns (acc': nat)
    requires 0 < k < 4 && acc < Pow2(7 * k) && b == v % 128 + 128 && Shl(v, 7 * k) < TWO32
    ensures acc < TWO32 && acc' == Merge32(acc, b, 7 * k) < Pow2(7 * (k + 1)) && 7 * k + 7 == 7 * (k + 1)
    ensures acc + Shl(v, 7 * k) == acc' + Shl(v / 128, 7 * (k + 1)) && Shl(v / 128, 7 * (k + 1)) < TWO32
  {
    hide Merge32, Shl;
    assert v == v % 128 + 128 * (v / 128) && 7 * (k + 1) == 7 * k + 7;
    Merge32Low(acc, b, 7 * k);
    acc' := Merge32(acc, b, 7 * k);
    ShlAdd(v % 128, 128 * (v / 128), 7 * k);
    ShlSeven(v / 128, 7 * k);
  }

  lemma Varint32RoundTrip(v: nat, tail: seq<Byte>)
    requires v < TWO32
    ensures DecodeVarint32(EncodeVarint(v) + tail) == Ok(v, tail)
  {
    if v < 128 {
      assert ([v] + tail)[1..] == tail;
    } else {
      hide Varint32Tail, DecodeVarint32;
      var b: Byte, rest := v % 128 + 128, EncodeVarint(v / 128) + tail;
      SplitFirst(v, b);
      assert EncodeVarint(v) + tail == [b] + rest;
      DecodeVarint32Step(b, rest);
      Varint32TailAccepts(v / 128, 1, v % 128, tail);
    }
  }

  lemma DecodeVarint32Step(b: Byte, rest: seq<Byte>)
    requires b >= 128
    ensures DecodeVarint32([b] + rest) == Varint32Tail(rest, 7, b % 128)
  {
    assert ([b] + rest)[1..] == rest;
  }

  lemma SplitFirst(v: nat, b: nat)
    requires b == v % 128 + 128
    ensures b % 128 == v % 128 && v == v % 128 + Shl(v / 128, 7) && v % 128 < Pow2(7)
  {
    ShlSeven(v / 128, 0);
    ScaleUp(0);
  }

  /** The groups of at most ten bytes that stand for 32 bits: five bytes must not reach past bit 31,
      and bytes behind the fifth must add nothing, or repeat a sign bit that is set. */
  predicate Accepts32(g: seq<Byte>) {
    if |g| <= 4 then true
    else if |g| == 5 then g[4] < 16
    else forall j :: 5 <= j < |g| ==>
           g[j] % 128 == 0 || (g[4] / 8 % 2 == 1 && g[j] == if j < 9 then 0xFF else 0x01)
  }

  lemma NibbleOf(b: Byte)
    ensures b % 128 % 16 == b % 16
  {
    assert b % 128 == b - b / 128 * 128;
  }

  lemma LowNibble(x: nat)
    ensures x * 0x1000_0000 % TWO32 == x % 16 * 0x1000_0000
  {
    var q, r := x / 16, x % 16;
    assert x == 16 * q + r;
    Residue32(x * 0x1000_0000, q, r * 0x1000_0000);
  }

  lemma Merge32Four(acc: nat, b: Byte)
    requires acc < Pow2(28)
    ensures acc < 0x1000_0000 && Merge32(acc, b, 28) == acc + b % 16 * 0x1000_0000
  {
    hide Shl, BitOr;
    ShlWords(1);
    ShlWords(b % 128);
    ShlWords(b % 16);
    NibbleOf(b);
    LowNibble(b % 128);
    BitOrDisjoint(acc, b % 16, 28);
  }

  /** Bit 31 comes from bit 3 of the fifth byte. */
  lemma Merge32TopBit(acc: nat, b: Byte)
    requires acc < Pow2(28)
    ensures acc < TWO32 && (Merge32(acc, b, 28) >= TWO31 <==> b / 8 % 2 == 1)
  {
    hide Merge32, Shl;
    Merge32Four(acc, b);
    assert b % 16 >= 8 <==> b / 8 % 2 == 1;
  }

  lemma Varint32TailFirst(bs: seq<Byte>, bitpos: nat, acc: nat)
    requires bitpos <= 28 && acc < TWO32 && bs != []
    ensures Varint32Tail(bs, bitpos, acc)
            == if bs[0] >= 128 then Varint32Tail(bs[1..], bitpos + 7, Merge32(acc, bs[0], bitpos))
               else if bitpos == 28 && bs[0] / 16 % 8 != 0 then Fail else Ok(Merge32(acc, bs[0], bitpos), bs[1..])
  {
  }

  /** From the sixth byte on. */
  lemma {:induction false} Varint32TailExtra(g: seq<Byte>, k: nat, acc: nat, tail: seq<Byte>)
    requires IsGroup(g) && 5 <= k < |g| <= 10 && acc < TWO32
    ensures Varint32Tail(g[k..] + tail, 7 * k, acc).Ok?
            <==> forall j :: k <= j < |g| ==>
                   g[j] % 128 == 0 || (acc >= TWO31 && g[j] == if j < 9 then 0xFF else 0x01)
    decreases |g| - k
  {
    var bs := g[k..] + tail;
    assert bs[0] == g[k] && bs[1..] == g[k + 1..] + tail;
    if k + 1 < |g| {
      assert 7 * (k + 1) == 7 * k + 7;
      Varint32TailExtra(g, k + 1, acc, tail);
    }
  }

  lemma {:induction false} Varint32TailFifth(g: seq<Byte>, acc: nat, tail: seq<Byte>)
    requires IsGroup(g) && 4 < |g| <= 10 && acc < Pow2(28)
    ensures acc < TWO32 && (Varint32Tail(g[4..] + tail, 28, acc).Ok? <==> Accepts32(g))
  {
    var bs := g[4..] + tail;
    assert bs[0] == g[4] && bs[1..] == g[5..] + tail;
    hide Varint32Tail, Merge32, Shl;
    Merge32TopBit(acc, g[4]);
    Varint32TailFirst(bs, 28, acc);
    if |g| > 5 {
      Varint32TailExtra(g, 5, Merge32(acc, g[4], 28), tail);
    }
  }

  /** From the second byte to the fifth. */
  lemma {:induction false} Varint32TailExact(g: seq<Byte>, k: nat, acc: nat, tail: seq<Byte>)
    requires IsGroup(g) && 1 <= k < |g| <= 10 && k <= 4 && acc < Pow2(7 * k)
    ensures acc < TWO32 && (Varint32Tail(g[k..] + tail, 7 * k, acc).Ok? <==> Accepts32(g))
    decreases |g| - k
  {
    if k == 4 {
      Varint32TailFifth(g, acc, tail);
    } else {
      var bs := g[k..] + tail;
      assert bs[0] == g[k] && bs[1..] == g[k + 1..] + tail;
      assert 7 * (k + 1) == 7 * k + 7;
      hide Varint32Tail, Merge32, Shl;
      Merge32Low(acc, g[k], 7 * k);
      Varint32TailFirst(bs, 7 * k, acc);
      if k + 1 < |g| {
        Varint32TailExact(g, k + 1, Merge32(acc, g[k], 7 * k), tail);
      }
    }
  }

  lemma DecodeVarint32Accepts(g: seq<Byte>, tail: seq<Byte>)
    requires IsGroup(g) && |g| <= 10
    ensures DecodeVarint32(g + tail).Ok? <==> Accepts32(g)
  {
    if |g| > 1 {
      ScaleUp(0);
      Varint32TailExact(g, 1, g[0] % 128, tail);
      assert (g + tail)[1..] == g[1..] + tail;
    }
    hide Varint32Tail;
  }

  lemma Mod32Of64(x: nat)
    ensures x % TWO64 % TWO32 == x % TWO32
  {
    Mod64Mod32(x, x % TWO32, x / TWO32);
  }

  /** Exactly which groups of at most ten bytes the 32-bit decoder accepts, and what it makes of
      them. */
  lemma DecodeVarint32Exact(g: seq<Byte>, tail: seq<Byte>)
    requires IsGroup(g) && |g| <= 10
    ensures DecodeVarint32(g + tail) == if Accepts32(g) then Ok(Base128(g) % TWO32, tail) else Fail
  {
    DecodeVarint32Accepts(g, tail);
    hide Accepts32, Base128, IsGroup, DecodeVarint32;
    var bs := g + tail;
    if DecodeVarint32(bs).Ok? {
      GroupLengthOf(g, tail);
      assert bs[..|g|] == g && bs[|g|..] == tail;
      Varint32Stops(bs);
      Varint32AgreesWith64(bs);
      Mod32Of64(Base128(g));
    }
  }

  // ---------------------------------------------------------------- reading ignores what follows

  lemma {:induction false} GroupLengthExtends(a: seq<Byte>, b: seq<Byte>)
    requires GroupLength(a).Some?
    ensures GroupLength(a + b) == GroupLength(a)
  {
    var n := GroupLength(a).value;
    assert a + b == a[..n] + (a[n..] + b);
    GroupLengthOf(a[..n], a[n..] + b);
  }

  lemma DecodeVarintExtends(a: seq<Byte>, b: seq<Byte>)
    requires DecodeVarint(a).Ok?
    ensures DecodeVarint(a + b) == Ok(DecodeVarint(a).value, DecodeVarint(a).rest + b)
  {
    GroupLengthExtends(a, b);
    var n := GroupLength(a).value;
    assert (a + b)[..n] == a[..n] && (a + b)[n..] == a[n..] + b;
  }

  lemma {:induction false} Varint32TailExtends(a: seq<Byte>, b: seq<Byte>, bitpos: nat, acc: nat)
    requires bitpos < 256 && acc < TWO32 && Varint32Tail(a, bitpos, acc).Ok?
    ensures Varint32Tail(a + b, bitpos, acc)
            == Ok(Varint32Tail(a, bitpos, acc).value, Varint32Tail(a, bitpos, acc).rest + b)
    decreases |a|
  {
    assert (a + b)[0] == a[0] && (a + b)[1..] == a[1..] + b;
    if a[0] >= 128 {
      Varint32TailExtends(a[1..], b, (bitpos + 7) % 256, Merge32(acc, a[0], bitpos));
    }
  }

  lemma DecodeVarint32Extends(a: seq<Byte>, b: seq<Byte>)
    requires DecodeVarint32(a).Ok?
    ensures DecodeVarint32(a + b) == Ok(DecodeVarint32(a).value, DecodeVarint32(a).rest + b)
  {
    assert (a + b)[1..] == a[1..] + b;
    if a[0] >= 128 {
      Varint32TailExtends(a[1..], b, 7, a[0] % 128);
    }
  }

  // ---------------------------------------------------------------- ZigZag

  /** `(uint64_t)value << 1`, complemented for negative values. */
  function ZigZag(value: int): (r: nat)
    requires -TWO63 <= value < TWO63
    ensures r < TWO64
  {
    var shifted := value % TWO64 * 2 % TWO64;
    if value < 0 then TWO64 - 1 - shifted else shifted
  }

  /** The complement of `value >> 1` read as int64_t when the low bit is set. */
  function UnZigZag(value: nat): (r: int)
    requires value < TWO64
    ensures -TWO63 <= r < TWO63
  {
    assert Pow2(8 * 8) == TWO64 by { Pow2Words(); }
    if value % 2 == 1 then ToSigned(TWO64 - 1 - value / 2, 8) else value / 2
  }

  /** Reading the low `size` bytes of a word as a two's complement integer. */
  function ToSigned(value: int, size: nat): int
    requires 0 < size
  {
    var m := Pow2(8 * size);
    var low := value % m;
    if low < m / 2 then low else low - m
  }

  /** ZigZag numbers the integers 0, -1, 1, -2, ... */
  lemma ZigZagOrder(value: int)
    requires -TWO63 <= value < TWO63
    ensures ZigZag(value) == (if value >= 0 then 2 * value else -2 * value - 1)
  {
    if value < 0 {
      Residue64(value % TWO64, 0, value + TWO64);
      Residue64((value + TWO64) * 2, 1, 2 * value + TWO64);
    } else {
      Residue64(value, 0, value);
      Residue64(value * 2, 0, value * 2);
    }
  }

  lemma UnZigZagOrder(word: nat)
    requires word < TWO64
    ensures UnZigZag(word) == if word % 2 == 1 then -(word / 2) - 1 else word / 2
  {
    if word % 2 == 1 {
      assert Pow2(8 * 8) == TWO64 by { Pow2Words(); }
      Residue64(TWO64 - 1 - word / 2, 0, TWO64 - 1 - word / 2);
    }
  }

  /** ZigZag is a bijection between int64_t and uint64_t. */
  lemma ZigZagRoundTrip(value: int, word: nat)
    requires -TWO63 <= value < TWO63 && word < TWO64
    ensures UnZigZag(ZigZag(value)) == value && ZigZag(UnZigZag(word)) == word
  {
    ZigZagOrder(value);
    UnZigZagOrder(ZigZag(value));
    UnZigZagOrder(word);
    ZigZagOrder(UnZigZag(word));
  }
}
