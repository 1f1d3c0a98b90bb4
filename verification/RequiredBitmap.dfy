/** The bitmap of required fields seen, kept in 32-bit words. */
module RequiredBitmap {
  import opened Words
  import opened Descriptor
  import opened Decoding

  /** The word whose bit `k` says whether `base + k` is in the set. */
  function Mask(seen: set<nat>, base: nat, n: nat): nat
    decreases n
  {
    if n == 0 then 0 else (if base in seen then 1 else 0) + 2 * Mask(seen, base + 1, n - 1)
  }

  lemma BitOrStep(a: nat, b: nat)
    ensures BitOr(a, b) == 2 * BitOr(a / 2, b / 2) + (if a % 2 == 1 || b % 2 == 1 then 1 else 0)
  {
    if a == 0 {
      assert BitOr(0, b / 2) == b / 2;
    } else if b == 0 {
      assert BitOr(a / 2, 0) == a / 2;
    }
  }

  /** Setting a bit adds the element. */
  lemma {:induction false} MaskSet(seen: set<nat>, base: nat, n: nat, k: nat)
    requires k < n
    ensures BitOr(Mask(seen, base, n), Shl(1, k)) == Mask(seen + {base + k}, base, n)
    decreases n
  {
    var m := Mask(seen, base, n);
    BitOrStep(m, Shl(1, k));
    if k == 0 {
      MaskElsewhere(seen, base, base + 1, n - 1);
      assert BitOr(m / 2, 0) == m / 2;
    } else {
      MaskSet(seen, base + 1, n - 1, k - 1);
      assert base + 1 + (k - 1) == base + k;
    }
  }

  lemma {:induction false} MaskElsewhere(seen: set<nat>, e: nat, base: nat, n: nat)
    requires e < base || base + n <= e
    ensures Mask(seen + {e}, base, n) == Mask(seen, base, n)
    decreases n
  {
    if n > 0 {
      MaskElsewhere(seen, e, base + 1, n - 1);
    }
  }

  lemma {:induction false} MaskFull(seen: set<nat>, base: nat, n: nat)
    ensures Mask(seen, base, n) <= Pow2(n) - 1
    ensures Mask(seen, base, n) == Pow2(n) - 1 <==> forall k :: base <= k < base + n ==> k in seen
    decreases n
  {
    if n > 0 {
      MaskFull(seen, base + 1, n - 1);
    }
  }

  lemma {:induction false} MaskShort(seen: set<nat>, base: nat, r: nat, n: nat)
    requires r <= n && forall k :: base + r <= k < base + n ==> k !in seen
    ensures Mask(seen, base, n) == Mask(seen, base, r)
    decreases n
  {
    if r > 0 {
      MaskShort(seen, base + 1, r - 1, n - 1);
    } else if n > 0 {
      MaskShort(seen, base + 1, 0, n - 1);
    }
  }

  lemma {:induction false} ShiftAllBits(n: nat, k: nat)
    requires k <= n
    ensures Shr(Pow2(n) - 1, k) == Pow2(n - k) - 1
    decreases k
  {
    if k > 0 {
      ShiftAllBits(n - 1, k - 1);
    }
  }

  /** The two-word bitmap represents `seen`. */
  ghost predicate Represents(words: seq<nat>, seen: set<nat>) {
    |words| == 2 && words[0] == Mask(seen, 0, 32) && words[1] == Mask(seen, 32, 32)
  }

  lemma EmptyBitmap()
    ensures Represents([0, 0], {})
  {
    EmptyMask(0, 32);
    EmptyMask(32, 32);
  }

  lemma {:induction false} EmptyMask(base: nat, n: nat)
    ensures Mask({}, base, n) == 0
    decreases n
  {
    if n > 0 {
      EmptyMask(base + 1, n - 1);
    }
  }

  /** `fields_seen[i >> 5] |= 1 << (i & 31)`. */
  method Mark(words: array<nat>, i: nat, ghost seen: set<nat>)
    requires i < 64 && Represents(words[..], seen)
    modifies words
    ensures Represents(words[..], seen + {i})
  {
    hide Mask, BitOr, Shl;
    words[i / 32] := BitOr(words[i / 32], Shl(1, i % 32));
    if i < 32 {
      MaskSet(seen, 0, 32, i);
      MaskElsewhere(seen, i, 32, 32);
    } else {
      MaskSet(seen, 32, 32, i - 32);
      MaskElsewhere(seen, i, 0, 32);
    }
  }

  /** The final comparison, word by word and then through a partial mask: it passes exactly when
      every index below `count` was seen. */
  method AllSeen(words: array<nat>, count: nat, ghost seen: set<nat>) returns (ok: bool)
    requires count <= 64 && Represents(words[..], seen) && forall k :: k in seen ==> k < count
    ensures ok <==> forall k :: 0 <= k < count ==> k in seen
  {
    hide Mask, Shr, Shl;
    var allbits := TWO32 - 1;
    Pow2Words();
    if count > 0 {
      var i := 0;
      while i < count / 32
        invariant i <= count / 32
        invariant forall k :: 0 <= k < 32 * i ==> k in seen
      {
        MaskFull(seen, 32 * i, 32);
        if words[i] != allbits {
          return false;
        }
        i := i + 1;
      }
      var r := count % 32;
      if r != 0 {
        MaskShort(seen, 32 * i, r, 32);
        MaskFull(seen, 32 * i, r);
        ShiftAllBits(32, 32 - r);
        if words[count / 32] != Shr(allbits, 32 - r) {
          return false;
        }
      }
    }
    return true;
  }
}
