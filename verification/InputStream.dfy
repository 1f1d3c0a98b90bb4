/** pb_istream_t over a memory buffer: a cursor and a count of bytes left, and the readers of
    pb_decode.c that move it. */
module InputStream {
  import opened Words
  import V = Varint

  class IStream {
    const buf: array<Byte>
    var state: nat
    var bytesLeft: nat

    ghost predicate Valid()
      reads this
    {
      state + bytesLeft <= buf.Length
    }

    /** The bytes this stream may still read. */
    ghost function Rest(): (bs: seq<Byte>)
      reads this, buf
      requires Valid()
      ensures |bs| == bytesLeft
    {
      buf[state..state + bytesLeft]
    }

    ghost function End(): nat
      reads this
    {
      state + bytesLeft
    }

    constructor FromBuffer(buf: array<Byte>, start: nat, size: nat)
      requires start + size <= buf.Length
      ensures Valid() && this.buf == buf && state == start && bytesLeft == size
    {
      this.buf := buf;
      state := start;
      bytesLeft := size;
    }

    method ReadByte() returns (ok: bool, b: Byte)
      requires Valid()
      modifies this
      ensures Valid() && End() == old(End())
      ensures ok == (old(Rest()) != [])
      ensures ok ==> b == old(Rest())[0] && Rest() == old(Rest())[1..]
      ensures !ok ==> Rest() == old(Rest())
    {
      if bytesLeft == 0 {
        return false, 0;
      }
      b := buf[state];
      state := state + 1;
      bytesLeft := bytesLeft - 1;
      ok := true;
    }

    method Read(count: nat) returns (ok: bool, data: seq<Byte>)
      requires Valid()
      modifies this
      ensures Valid() && End() == old(End())
      ensures ok == (count <= |old(Rest())|)
      ensures ok ==> data == old(Rest())[..count] && Rest() == old(Rest())[count..]
      ensures !ok ==> Rest() == old(Rest())
    {
      data := [];
      if count == 0 {
        return true, data;
      }
      if bytesLeft < count {
        return false, data;
      }
      ghost var before := Rest();
      for i := 0 to count
        invariant data == before[..i]
      {
        data := data + [buf[state + i]];
      }
      state := state + count;
      bytesLeft := bytesLeft - count;
      ok := true;
    }

    method Skip(count: nat) returns (ok: bool)
      requires Valid()
      modifies this
      ensures Valid() && End() == old(End())
      ensures ok == (count <= |old(Rest())|)
      ensures Rest() == if ok then old(Rest())[count..] else old(Rest())
    {
      if count == 0 {
        return true;
      }
      if bytesLeft < count {
        return false;
      }
      state := state + count;
      bytesLeft := bytesLeft - count;
      ok := true;
    }

    method DecodeVarint() returns (ok: bool, dest: nat)
      requires Valid()
      modifies this
      ensures Valid() && End() == old(End())
      ensures ok == V.DecodeVarint(old(Rest())).Ok?
      ensures ok ==> V.DecodeVarint(old(Rest())) == Ok(dest, Rest())
    {
      ghost var before := Rest();
      ghost var k: nat := 0;
      var bitpos: nat := 0;
      var result: nat := 0;
      assert V.Base128(before[..k]) == 0;
      hide V.Base128, V.DecodeVarint, V.GroupLength, BitOr, Shl;
      while true
        invariant Valid() && End() == old(End()) && k <= |before| && Rest() == before[k..]
        invariant bitpos == 7 * k && k <= 10
        invariant forall i :: 0 <= i < k ==> before[i] >= 128
        invariant result == V.Base128(before[..k]) % TWO64
        decreases bytesLeft
      {
        if bitpos >= 64 {
          NoGroupWithin(before, k);
          return false, 0;
        }
        var more, b := ReadByte();
        if !more {
          NoGroupWithin(before, k);
          return false, 0;
        }
        MergeByte(before[..k], b, k);
        assert before[..k + 1] == before[..k] + [b];
        result := BitOr(result, Shl(b % 128, bitpos) % TWO64);
        bitpos := (bitpos + 7) % 256;
        k := k + 1;
        if b < 128 {
          break;
        }
      }
      GroupFound(before, k);
      return true, result;
    }

    /** `eof` reports that the stream was already at its end. */
    method DecodeVarint32Eof() returns (ok: bool, dest: nat, eof: bool)
      requires Valid()
      modifies this
      ensures Valid() && End() == old(End())
      ensures ok == V.DecodeVarint32(old(Rest())).Ok?
      ensures ok ==> V.DecodeVarint32(old(Rest())) == Ok(dest, Rest())
      ensures eof == (old(Rest()) == []) && (eof ==> Rest() == [])
    {
      eof := false;
      var more, b := ReadByte();
      if !more {
        if bytesLeft == 0 {
          eof := true;
        }
        return false, 0, eof;
      }
      var result: nat;
      if b < 128 {
        result := b;
      } else {
        var bitpos: nat := 7;
        result := b % 128;
        while true
          invariant Valid() && End() == old(End())
          invariant bitpos < 256 && result < TWO32
          invariant V.DecodeVarint32(old(Rest())) == V.Varint32Tail(Rest(), bitpos, result)
          decreases bytesLeft
        {
          more, b := ReadByte();
          if !more {
            return false, 0, eof;
          }
          if bitpos >= 32 {
            var signExtension := if bitpos < 63 then 0xFF else 0x01;
            if b % 128 != 0 && (result < TWO31 || b != signExtension) {
              return false, 0, eof;
            }
          } else {
            Pow2Words();
            BitOrBound(result, Shl(b % 128, bitpos) % TWO32, 32);
            result := BitOr(result, Shl(b % 128, bitpos) % TWO32);
          }
          bitpos := (bitpos + 7) % 256;
          if b < 128 {
            break;
          }
        }
        if bitpos == 35 && b / 16 % 8 != 0 {
          return false, 0, eof;
        }
      }
      return true, result, eof;
    }
  }

  lemma NoGroupWithin(bs: seq<Byte>, k: nat)
    requires k <= |bs| && (k == |bs| || k == 10) && forall i :: 0 <= i < k ==> bs[i] >= 128
    ensures V.DecodeVarint(bs).Fail?
  {
  }

  lemma GroupFound(bs: seq<Byte>, k: nat)
    requires 0 < k <= 10 && k <= |bs| && bs[k - 1] < 128 && forall i :: 0 <= i < k - 1 ==> bs[i] >= 128
    ensures V.DecodeVarint(bs) == Ok(V.Base128(bs[..k]) % TWO64, bs[k..])
  {
    assert V.IsGroup(bs[..k]);
    V.DecodeVarintAccepts(bs);
  }

  lemma {:induction false} Base128Snoc(g: seq<Byte>, b: Byte)
    ensures V.Base128(g + [b]) == V.Base128(g) + Shl(b % 128, 7 * |g|)
    ensures V.Base128(g) < Pow2(7 * |g|)
    decreases |g|
  {
    if g == [] {
      assert (g + [b])[1..] == [];
    } else {
      var k := 7 * |g[1..]|;
      assert (g + [b])[1..] == g[1..] + [b] && 7 * |g| == k + 7;
      Base128Snoc(g[1..], b);
      V.ScaleUp(k);
      ShlShl(b % 128, k, 7);
      ShlSeven(Shl(b % 128, k), 0);
    }
  }

  /** One turn of the 64-bit loop: or-ing in a byte at bit 7k adds it mod 2^64. */
  lemma MergeByte(g: seq<Byte>, b: Byte, k: nat)
    requires |g| == k < 10
    ensures BitOr(V.Base128(g) % TWO64, Shl(b % 128, 7 * k) % TWO64) == V.Base128(g + [b]) % TWO64
  {
    Base128Snoc(g, b);
    if k < 9 {
      MergeLow(V.Base128(g), b % 128, 7 * k);
    } else {
      MergeTop(V.Base128(g), b % 128);
    }
  }

  lemma MergeLow(acc: nat, x: nat, shift: nat)
    requires shift <= 56 && acc < Pow2(shift) && x < 128
    ensures BitOr(acc % TWO64, Shl(x, shift) % TWO64) == (acc + Shl(x, shift)) % TWO64
  {
    assert acc + Shl(x, shift) < TWO64 by {
      ShlMonotone(x, 127, shift, shift);
      ShlAdd(127, 1, shift);
      ShlSeven(1, shift);
      ShlMonotone(1, 1, shift + 7, 63);
      Pow2Words();
    }
    BitOrDisjoint(acc, x, shift);
    Residue64(acc, 0, acc);
    Residue64(Shl(x, shift), 0, Shl(x, shift));
    Residue64(acc + Shl(x, shift), 0, acc + Shl(x, shift));
  }

  /** At bit 63 only the lowest bit of the byte is kept. */
  lemma MergeTop(acc: nat, x: nat)
    requires acc < Pow2(63) && x < 128
    ensures BitOr(acc % TWO64, Shl(x, 63) % TWO64) == (acc + Shl(x, 63)) % TWO64
  {
    var l := x % 2;
    BitOrDisjoint(acc, l, 63);
    ShlLongWords(1);
    ShlLongWords(x);
    ShlLongWords(l);
    Residue64(acc, 0, acc);
    Residue64(x * TWO63, x / 2, l * TWO63);
    Residue64(acc + x * TWO63, x / 2, acc + l * TWO63);
  }
}
