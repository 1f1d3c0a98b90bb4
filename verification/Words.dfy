/** Bytes, fixed-width words and the bit operations the codec applies to them, written out over
    the integers so that every truncation is visible. */
module Words {
  type Byte = b: nat | b < 0x100

  const TWO31: int := 0x8000_0000
  const TWO32: int := 0x1_0000_0000
  const TWO63: int := 0x8000_0000_0000_0000
  const TWO64: int := 0x1_0000_0000_0000_0000

  datatype Option<+T> = None | Some(value: T) {
    function GetOr(default: T): T {
      match this
      case Some(v) => v
      case None => default
    }
  }

  /** A parser's answer: a value with the bytes after it, or failure. */
  datatype Parse<+T> = Ok(value: T, rest: seq<Byte>) | Fail

  /** The C operator `<<`, before truncation to a word. */
  function Shl(x: nat, k: nat): (r: nat)
    ensures x > 0 ==> r > 0
    ensures x == 0 ==> r == 0
  {
    if k == 0 then x else 2 * Shl(x, k - 1)
  }

  /** The C operator `>>`. */
  function Shr(x: nat, k: nat): nat {
    if k == 0 then x else Shr(x / 2, k - 1)
  }

  function Pow2(k: nat): (r: nat)
    ensures r > 0
  {
    Shl(1, k)
  }

  /** The C operator `|` on unsigned words. */
  function BitOr(a: nat, b: nat): nat {
    if a == 0 then b
    else if b == 0 then a
    else 2 * BitOr(a / 2, b / 2) + (if a % 2 == 1 || b % 2 == 1 then 1 else 0)
  }

  lemma BitOrBound(a: nat, b: nat, k: nat)
    requires a < Pow2(k) && b < Pow2(k)
    ensures BitOr(a, b) < Pow2(k)
    decreases k
  {
    if a != 0 && b != 0 {
      BitOrBound(a / 2, b / 2, k - 1);
    }
  }

  /** Setting bits above everything already set is addition. */
  lemma {:induction false} BitOrDisjoint(a: nat, b: nat, k: nat)
    requires a < Pow2(k)
    ensures BitOr(a, Shl(b, k)) == a + Shl(b, k)
    decreases k
  {
    if k > 0 && a != 0 && b != 0 {
      BitOrDisjoint(a / 2, b, k - 1);
    }
  }

  lemma {:induction false} ShlAdd(x: nat, y: nat, k: nat)
    ensures Shl(x + y, k) == Shl(x, k) + Shl(y, k)
    decreases k
  {
    if k > 0 {
      ShlAdd(x, y, k - 1);
    }
  }

  lemma {:induction false} ShlShl(x: nat, j: nat, k: nat)
    ensures Shl(Shl(x, j), k) == Shl(x, j + k)
    decreases k
  {
    if k > 0 {
      ShlShl(x, j, k - 1);
    }
  }

  lemma {:induction false} ShlMonotone(x: nat, y: nat, j: nat, k: nat)
    requires x <= y && j <= k
    ensures Shl(x, j) <= Shl(y, k)
    decreases k
  {
    if k > j {
      ShlMonotone(x, y, j, k - 1);
    } else if k > 0 {
      ShlMonotone(x, y, j - 1, k - 1);
    }
  }

  lemma ShlSeven(x: nat, k: nat)
    ensures Shl(128 * x, k) == Shl(x, k + 7)
  {
    assert Shl(x, 1) == 2 * x;
    assert Shl(x, 2) == 2 * Shl(x, 1);
    assert Shl(x, 4) == 4 * Shl(x, 2);
    assert Shl(x, 6) == 4 * Shl(x, 4);
    assert Shl(x, 7) == 2 * Shl(x, 6);
    ShlShl(x, 7, k);
  }

  lemma {:induction false} ShrShr(n: nat, j: nat, k: nat)
    ensures Shr(Shr(n, j), k) == Shr(n, j + k)
    decreases j
  {
    if j > 0 {
      ShrShr(n / 2, j - 1, k);
    }
  }

  lemma ShrByte(n: nat)
    ensures Shr(n, 8) == n / 0x100
  {
    assert Shr(n, 8) == Shr(n / 2, 7) == Shr(n / 4, 6) == Shr(n / 8, 5) == Shr(n / 16, 4);
    assert Shr(n / 16, 4) == Shr(n / 32, 3) == Shr(n / 64, 2) == Shr(n / 128, 1) == n / 0x100;
  }

  /** Shifts by whole words and around the sign bit. */
  lemma ShlWords(x: nat)
    ensures Shl(x, 28) == x * 0x1000_0000 && Shl(x, 31) == x * TWO31 && Shl(x, 32) == x * TWO32
  {
    ShlByte(x);
    ShlByte(Shl(x, 8));
    ShlByte(Shl(x, 16));
    assert Shl(x, 26) == 4 * Shl(x, 24);
    assert Shl(x, 28) == 4 * Shl(x, 26);
    assert Shl(x, 30) == 4 * Shl(x, 28);
    assert Shl(x, 32) == 4 * Shl(x, 30);
    ShlShl(x, 8, 8);
    ShlShl(x, 16, 8);
  }

  lemma ShlByte(x: nat)
    ensures Shl(x, 8) == 0x100 * x
  {
    assert Shl(x, 1) == 2 * x;
    assert Shl(x, 2) == 2 * Shl(x, 1);
    assert Shl(x, 4) == 4 * Shl(x, 2);
    assert Shl(x, 6) == 4 * Shl(x, 4);
    assert Shl(x, 8) == 4 * Shl(x, 6);
  }

  lemma ShlLongWords(x: nat)
    ensures Shl(x, 63) == x * TWO63 && Shl(x, 64) == x * TWO64
  {
    ShlWords(x);
    ShlWords(Shl(x, 32));
    ShlShl(x, 32, 31);
    ShlShl(x, 32, 32);
  }

  lemma Pow2Words()
    ensures Pow2(31) == TWO31 && Pow2(32) == TWO32 && Pow2(63) == TWO63 && Pow2(64) == TWO64
  {
    ShlWords(1);
    ShlLongWords(1);
  }

  lemma Residue32(w: nat, q: nat, r: nat)
    requires w == q * TWO32 + r && r < TWO32
    ensures w % TWO32 == r
  {
  }

  lemma Residue64(w: nat, q: nat, r: nat)
    requires w == q * TWO64 + r && r < TWO64
    ensures w % TWO64 == r
  {
  }
}
