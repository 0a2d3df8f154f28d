/** Bytes, optional results and big-endian integers, shared by the byte-level models. */
module Bytes {
  datatype Option<+T> = None | Some(value: T)

  type Byte = b: int | 0 <= b < 256
  type Bytes = seq<Byte>

  function Pow256(n: nat): (p: nat)
    ensures p > 0
  {
    if n == 0 then 1 else 256 * Pow256(n - 1)
  }

  /** The `n`-byte big-endian spelling of `v`. */
  function ToBe(v: nat, n: nat): (s: Bytes)
    requires v < Pow256(n)
    ensures |s| == n
  {
    if n == 0 then [] else ToBe(v / 256, n - 1) + [v % 256]
  }

  function FromBe(s: Bytes): (v: nat)
    ensures v < Pow256(|s|)
  {
    if s == [] then 0 else FromBe(s[..|s| - 1]) * 256 + s[|s| - 1]
  }

  lemma {:induction false} FromToBe(v: nat, n: nat)
    requires v < Pow256(n)
    ensures FromBe(ToBe(v, n)) == v
  {
    if n > 0 {
      FromToBe(v / 256, n - 1);
      assert ToBe(v, n)[..n - 1] == ToBe(v / 256, n - 1);
    }
  }

  lemma {:induction false} ToFromBe(s: Bytes)
    ensures ToBe(FromBe(s), |s|) == s
  {
    if s != [] {
      ToFromBe(s[..|s| - 1]);
      assert s == s[..|s| - 1] + [s[|s| - 1]];
    }
  }

  // ----- Two-byte words -----

  type Word = n: int | 0 <= n < 0x1_0000

  function WordAt(b: Bytes, i: nat): (w: Word)
    requires i + 2 <= |b|
  {
    var high: int := b[i];
    high * 256 + b[i + 1]
  }

  function Be16(w: Word): (s: Bytes)
    ensures |s| == 2 && WordAt(s, 0) == w
  {
    [w / 256, w % 256]
  }

  // ----- Four-byte words -----

  function Be32(n: nat): (s: Bytes)
    requires n < 0x1_0000_0000
    ensures |s| == 4
  {
    Be16(n / 0x1_0000) + Be16(n % 0x1_0000)
  }

  function Read32(s: Bytes): (n: nat)
    requires |s| == 4
    ensures n < 0x1_0000_0000
  {
    WordAt(s, 0) as int * 0x1_0000 + WordAt(s, 2)
  }

  lemma Read32Be32(n: nat)
    requires n < 0x1_0000_0000
    ensures Read32(Be32(n)) == n
  {
    assert WordAt(Be32(n), 0) == WordAt(Be16(n / 0x1_0000), 0);
    assert WordAt(Be32(n), 2) == WordAt(Be16(n % 0x1_0000), 0);
  }

  lemma Be32Read32(s: Bytes)
    requires |s| == 4
    ensures Be32(Read32(s)) == s
  {
    assert Read32(s) / 0x1_0000 == WordAt(s, 0) && Read32(s) % 0x1_0000 == WordAt(s, 2);
    assert Be16(WordAt(s, 0)) == s[..2] && Be16(WordAt(s, 2)) == s[2..];
  }

  /** Two's complement: the signed reading of an unsigned `n`-byte value, and back. */
  function Signed(u: nat, n: nat): int
    requires u < Pow256(n)
  {
    if 2 * u >= Pow256(n) then u - Pow256(n) else u
  }

  predicate FitsSigned(v: int, n: nat) {
    0 <= Pow256(n) + 2 * v && 2 * v < Pow256(n)
  }

  function Unsigned(v: int, n: nat): (u: nat)
    requires FitsSigned(v, n)
    ensures u < Pow256(n) && Signed(u, n) == v
  {
    var p := Pow256(n);
    if v < 0 then v + p else v
  }

  lemma SignedFits(u: nat, n: nat)
    requires u < Pow256(n)
    ensures FitsSigned(Signed(u, n), n) && Unsigned(Signed(u, n), n) == u
  {
    var p := Pow256(n);
    assert Signed(u, n) == if 2 * u >= p then u - p else u;
  }
}
