/** Big-endian bit strings: the vocabulary of section 6 of RFC 4648. `Unchunk` writes numbers as
    consecutive groups of bits, `Chunks` cuts a bit string into groups and reads each as a number. */
module Bits {
  import opened Words

  function Bit(b: bool): nat {
    if b then 1 else 0
  }

  /** The number a bit string denotes, most significant bit first. */
  function Value(s: seq<bool>): nat {
    if s == [] then 0 else 2 * Value(s[..|s| - 1]) + Bit(s[|s| - 1])
  }

  /** The low `n` bits of `v`, most significant first. */
  function BitsOf(v: nat, n: nat): (s: seq<bool>)
    ensures |s| == n
  {
    if n == 0 then [] else BitsOf(v / 2, n - 1) + [v % 2 == 1]
  }

  function Zeros(n: nat): (s: seq<bool>)
    ensures |s| == n
  {
    seq(n, _ => false)
  }

  function Chunks(n: nat, s: seq<bool>): (r: seq<nat>)
    requires n > 0
    ensures |r| == |s| / n
  {
    if |s| < n then
      DivBelow(|s|, n);
      []
    else
      DivStep(|s|, n);
      [Value(s[..n])] + Chunks(n, s[n..])
  }

  function Unchunk(n: nat, vs: seq<nat>): (s: seq<bool>)
    ensures |s| == n * |vs|
  {
    if vs == [] then [] else BitsOf(vs[0], n) + Unchunk(n, vs[1..])
  }

  // ----- numbers and bit strings ---------------------------------------------

  lemma {:induction false} ValueBound(s: seq<bool>)
    ensures Value(s) < Pow2(|s|)
  {
    if s == [] {
    } else {
      ValueBound(s[..|s| - 1]);
    }
  }

  lemma {:induction false} ValueLast(s: seq<bool>, t: seq<bool>)
    requires t != []
    ensures Value(s + t) == 2 * Value(s + t[..|t| - 1]) + Bit(t[|t| - 1])
    ensures Value(t) == 2 * Value(t[..|t| - 1]) + Bit(t[|t| - 1])
  {
    assert (s + t)[..|s + t| - 1] == s + t[..|t| - 1];
  }

  lemma {:induction false} DoubleProduct(v: nat, p: nat, q: nat)
    requires q == 2 * p
    ensures v * q == 2 * (v * p)
  {
    MulAssoc(v, p, 2);
  }

  lemma {:induction false} ValueConcat(s: seq<bool>, t: seq<bool>)
    ensures Value(s + t) == Value(s) * Pow2(|t|) + Value(t)
    decreases |t|
  {
    if t == [] {
      assert s + t == s;
    } else {
      var t' := t[..|t| - 1];
      ValueConcat(s, t');
      ValueLast(s, t);
      DoubleProduct(Value(s), Pow2(|t'|), Pow2(|t|));
      hide Value, Pow2;
    }
  }

  lemma {:induction false} BitsOfValue(s: seq<bool>)
    ensures BitsOf(Value(s), |s|) == s
  {
    if s == [] {
    } else {
      BitsOfValue(s[..|s| - 1]);
      assert Value(s) / 2 == Value(s[..|s| - 1]);
    }
  }

  lemma {:induction false} ValueBitsOf(v: nat, n: nat)
    requires v < Pow2(n)
    ensures Value(BitsOf(v, n)) == v
  {
    if n == 0 {
    } else {
      ValueBitsOf(v / 2, n - 1);
      assert BitsOf(v, n)[..n - 1] == BitsOf(v / 2, n - 1);
    }
  }

  /** A slice of a bit string is a quotient and a remainder of its value. */
  lemma {:induction false} SliceValue(s: seq<bool>, p: nat, q: nat)
    requires p <= q <= |s|
    ensures (Value(s) / Pow2(|s| - q)) % Pow2(q - p) == Value(s[p..q])
  {
    assert s == s[..q] + s[q..];
    assert s[..q] == s[..p] + s[p..q];
    ValueConcat(s[..q], s[q..]);
    ValueConcat(s[..p], s[p..q]);
    ValueBound(s[q..]);
    ValueBound(s[p..q]);
    DivModUnique(Value(s), Pow2(|s| - q), Value(s[..q]), Value(s[q..]));
    DivModUnique(Value(s[..q]), Pow2(q - p), Value(s[..p]), Value(s[p..q]));
  }

  /** The last `n` bits are the remainder modulo 2^n. */
  lemma {:induction false} TailValue(s: seq<bool>, n: nat)
    requires n <= |s|
    ensures Value(s) % Pow2(n) == Value(s[|s| - n..])
  {
    var a, b := s[..|s| - n], s[|s| - n..];
    assert s == a + b;
    ValueConcat(a, b);
    ValueBound(b);
    DivModUnique(Value(s), Pow2(n), Value(a), Value(b));
  }

  lemma {:induction false} ValueZeros(n: nat)
    ensures Value(Zeros(n)) == 0
  {
    if n == 0 {
    } else {
      ValueZeros(n - 1);
      assert Zeros(n)[..n - 1] == Zeros(n - 1);
    }
  }

  // ----- cutting and gluing --------------------------------------------------

  lemma {:induction false} ChunkFits(n: nat, length: nat, j: nat)
    requires n > 0 && j < length / n
    ensures n * j + n <= length
  {
    MulMono(j + 1, length / n, n);
    MulSplit(j, 1, n);
  }

  lemma {:induction false} ChunkFrom(n: nat, s: seq<bool>, j: nat, start: nat)
    requires n > 0 && j < |s| / n && start == n * j && start + n <= |s|
    ensures Chunks(n, s)[j] == Value(s[start..start + n])
    decreases j
  {
    if j == 0 {
      assert start == 0;
    } else {
      MulSplit(j, 1, n);
      DivStep(|s|, n);
      ChunkFrom(n, s[n..], j - 1, start - n);
      hide Value;
      assert s[n..][start - n..start] == s[start..start + n];
    }
  }

  lemma {:induction false} ChunkAt(n: nat, s: seq<bool>, j: nat)
    requires n > 0 && j < |s| / n
    ensures n * j + n <= |s|
    ensures Chunks(n, s)[j] == Value(s[n * j..n * j + n])
  {
    ChunkFits(n, |s|, j);
    ChunkFrom(n, s, j, n * j);
  }

  /** Complete chunks do not depend on what follows them. */
  lemma {:induction false} ChunksPrefix(n: nat, s: seq<bool>, t: seq<bool>)
    requires n > 0
    ensures |s| / n <= |s + t| / n
    ensures Chunks(n, s + t)[..|s| / n] == Chunks(n, s)
  {
    DivMono(|s|, |s + t|, n);
    forall j | 0 <= j < |s| / n
      ensures Chunks(n, s + t)[j] == Chunks(n, s)[j]
    {
      ChunkAt(n, s, j);
      ChunkAt(n, s + t, j);
      assert (s + t)[n * j..n * j + n] == s[n * j..n * j + n];
    }
  }

  lemma {:induction false} ChunksBound(n: nat, s: seq<bool>)
    requires n > 0
    ensures forall v :: v in Chunks(n, s) ==> v < Pow2(n)
  {
    if |s| < n {
    } else {
      ValueBound(s[..n]);
      ChunksBound(n, s[n..]);
    }
  }

  /** Cutting a glued string gives the numbers back. */
  lemma {:induction false} ChunksUnchunk(n: nat, vs: seq<nat>)
    requires n > 0
    requires forall v :: v in vs ==> v < Pow2(n)
    ensures Chunks(n, Unchunk(n, vs)) == vs
  {
    if vs == [] {
    } else {
      assert vs[0] in vs;
      assert forall v :: v in vs[1..] ==> v in vs;
      ValueBitsOf(vs[0], n);
      ChunksUnchunk(n, vs[1..]);
      var s := Unchunk(n, vs);
      assert s[..n] == BitsOf(vs[0], n);
      assert s[n..] == Unchunk(n, vs[1..]);
      MulMono(1, |vs|, n);
    }
  }

  lemma {:induction false} TakeTwice(s: seq<bool>, n: nat, k: nat)
    requires n + k <= |s|
    ensures s[..n] + s[n..][..k] == s[..n + k]
  {
  }

  lemma {:induction false} ChunksFirst(n: nat, s: seq<bool>)
    requires 0 < n <= |s|
    ensures Chunks(n, s) == [Value(s[..n])] + Chunks(n, s[n..])
  {
  }

  lemma {:induction false} UnchunkCons(n: nat, v: nat, vs: seq<nat>)
    ensures Unchunk(n, [v] + vs) == BitsOf(v, n) + Unchunk(n, vs)
  {
    assert ([v] + vs)[1..] == vs;
  }

  /** Gluing the chunks of a string gives the string back, up to its incomplete last chunk. */
  lemma {:induction false} UnchunkChunks(n: nat, s: seq<bool>)
    requires n > 0
    ensures Unchunk(n, Chunks(n, s)) == s[..|s| - |s| % n]
    decreases |s|
  {
    if |s| < n {
      DivBelow(|s|, n);
    } else {
      var s' := s[n..];
      UnchunkChunks(n, s');
      BitsOfValue(s[..n]);
      DivStep(|s|, n);
      ChunksFirst(n, s);
      UnchunkCons(n, Value(s[..n]), Chunks(n, s'));
      hide Chunks, Unchunk, Value, BitsOf;
      TakeTwice(s, n, |s'| - |s'| % n);
    }
  }

  lemma {:induction false} UnchunkAppend(n: nat, vs: seq<nat>, v: nat)
    ensures Unchunk(n, vs + [v]) == Unchunk(n, vs) + BitsOf(v, n)
  {
    if vs == [] {
      assert Unchunk(n, [v]) == BitsOf(v, n) + Unchunk(n, []);
    } else {
      assert (vs + [v])[1..] == vs[1..] + [v];
      UnchunkAppend(n, vs[1..], v);
    }
  }
}
