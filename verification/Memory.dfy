/** Little-endian linear memory: the byte-level ground the emitted code runs on. */
module Memory {

  type Byte = b: int | 0 <= b < 256
  type Mem = seq<Byte>

  const T32: nat := 0x1_0000_0000
  const T64: nat := 0x1_0000_0000_0000_0000

  function Pow256(n: nat): (p: nat)
    ensures p > 0
  {
    if n == 0 then 1 else 256 * Pow256(n - 1)
  }

  /** The number a byte string denotes, least significant byte first. */
  function FromLE(s: seq<Byte>): nat {
    if s == [] then 0 else s[0] + 256 * FromLE(s[1..])
  }

  /** The `n` low bytes of `v`, least significant first. */
  function ToLE(v: nat, n: nat): (s: seq<Byte>)
    ensures |s| == n
  {
    if n == 0 then [] else [v % 256] + ToLE(v / 256, n - 1)
  }

  function Load(m: Mem, a: nat, n: nat): nat
    requires a + n <= |m|
  {
    FromLE(m[a..a + n])
  }

  function Store(m: Mem, a: nat, n: nat, v: nat): (r: Mem)
    requires a + n <= |m|
    ensures |r| == |m|
  {
    m[..a] + ToLE(v, n) + m[a + n..]
  }

  /** The 32-bit word at `a`. */
  function W32(m: Mem, a: nat): nat
    requires a + 4 <= |m|
  {
    Load(m, a, 4)
  }

  lemma {:induction false} FromToLE(v: nat, n: nat)
    requires v < Pow256(n)
    ensures FromLE(ToLE(v, n)) == v
  {
    if n > 0 {
      FromToLE(v / 256, n - 1);
      assert ToLE(v, n)[1..] == ToLE(v / 256, n - 1);
    }
  }

  lemma {:induction false} FromLEBound(s: seq<Byte>)
    ensures FromLE(s) < Pow256(|s|)
  {
    if s != [] {
      FromLEBound(s[1..]);
    }
  }

  lemma {:induction false} FromLEAppend(s: seq<Byte>, t: seq<Byte>)
    ensures FromLE(s + t) == FromLE(s) + Pow256(|s|) * FromLE(t)
  {
    if s == [] {
      assert s + t == t;
    } else {
      FromLEAppend(s[1..], t);
      assert (s + t)[1..] == s[1..] + t;
      Regroup(s[0], FromLE(s[1..]), Pow256(|s| - 1), FromLE(t));
    }
  }

  lemma Regroup(a: nat, b: nat, p: nat, c: nat)
    ensures a + 256 * (b + p * c) == a + 256 * b + 256 * p * c
  {
  }

  lemma Powers()
    ensures Pow256(0) == 1 && Pow256(1) == 256 && Pow256(4) == T32 && Pow256(8) == T64
  {
    assert Pow256(4) == 256 * Pow256(3) && Pow256(3) == 256 * Pow256(2) && Pow256(2) == 256 * Pow256(1);
    assert Pow256(8) == 256 * Pow256(7) && Pow256(7) == 256 * Pow256(6) && Pow256(6) == 256 * Pow256(5);
    assert Pow256(5) == 256 * Pow256(4);
  }

  /** A load returns what was last stored there. */
  lemma LoadStored(m: Mem, a: nat, n: nat, v: nat)
    requires a + n <= |m| && v < Pow256(n)
    ensures Load(Store(m, a, n, v), a, n) == v
  {
    assert Store(m, a, n, v)[a..a + n] == ToLE(v, n);
    FromToLE(v, n);
  }

  /** Loads see only the bytes they cover. */
  lemma LoadAgrees(m: Mem, m': Mem, a: nat, n: nat)
    requires a + n <= |m| && a + n <= |m'|
    requires forall i :: a <= i < a + n ==> m[i] == m'[i]
    ensures Load(m, a, n) == Load(m', a, n)
  {
    assert m[a..a + n] == m'[a..a + n];
  }

  lemma WordBound(m: Mem, a: nat)
    requires a + 4 <= |m|
    ensures W32(m, a) < T32
  {
    FromLEBound(m[a..a + 4]);
    Powers();
  }

  /** A 64-bit load is two 32-bit words. */
  lemma Load64(m: Mem, a: nat)
    requires a + 8 <= |m|
    ensures Load(m, a, 8) == W32(m, a) + T32 * W32(m, a + 4) < T64
  {
    assert m[a..a + 8] == m[a..a + 4] + m[a + 4..a + 8];
    FromLEAppend(m[a..a + 4], m[a + 4..a + 8]);
    Powers();
    FromLEBound(m[a..a + 8]);
  }
}
