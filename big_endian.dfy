/** The big-endian byte layout of `sdk.Uint64ToBigEndian`, with its inverse. */
module BigEndian {
  import opened Basics

  function Pow256(n: nat): (p: nat)
    ensures p > 0
  {
    if n == 0 then 1 else 256 * Pow256(n - 1)
  }

  /** The `n` low-order bytes of `x`, most significant first. */
  function ToBigEndian(n: nat, x: nat): (r: seq<byte>)
    ensures |r| == n
    decreases n
  {
    if n == 0 then [] else ToBigEndian(n - 1, x / 256) + [(x % 256) as byte]
  }

  /** The number a big-endian byte string denotes. */
  function FromBigEndian(s: seq<byte>): nat
    decreases |s|
  {
    if s == [] then 0 else FromBigEndian(s[..|s| - 1]) * 256 + s[|s| - 1] as nat
  }

  lemma MulAtLeast(m: int, k: int)
    requires m > 0 && k >= 1
    ensures m * k >= m
  {
    assert m * k == m * (k - 1) + m;
    assert m * (k - 1) >= 0;
  }

  lemma DivModUnique(x: int, m: int, q: int, r: int)
    requires m > 0 && 0 <= r < m && x == m * q + r
    ensures x % m == r && x / m == q
  {
    var q', r' := x / m, x % m;
    assert x == m * q' + r';
    assert m * q - m * q' == r' - r;
    if q > q' {
      assert m * (q - q') == m * q - m * q';
      MulAtLeast(m, q - q');
    } else if q < q' {
      assert m * (q' - q) == m * q' - m * q;
      MulAtLeast(m, q' - q);
    }
  }

  /** Peeling the last byte: the residue modulo 256^(n+1) splits into the residue
      of `x / 256` modulo 256^n and the low byte. */
  lemma ModSplit(x: nat, p: nat)
    requires p > 0
    ensures (x / 256 % p) * 256 + x % 256 == x % (256 * p)
  {
    var q := x / 256;
    var a, b := q / p, q % p;
    assert x == 256 * q + x % 256;
    assert q == p * a + b;
    assert x == (256 * p) * a + (256 * b + x % 256);
    assert 256 * b + x % 256 < 256 * p by {
      assert b <= p - 1;
      assert 256 * b <= 256 * p - 256;
    }
    DivModUnique(x, 256 * p, a, 256 * b + x % 256);
  }

  lemma {:induction false} FromToBigEndian(n: nat, x: nat)
    ensures FromBigEndian(ToBigEndian(n, x)) == x % Pow256(n)
    decreases n
  {
    if n > 0 {
      var s := ToBigEndian(n, x);
      assert s[..n - 1] == ToBigEndian(n - 1, x / 256);
      FromToBigEndian(n - 1, x / 256);
      ModSplit(x, Pow256(n - 1));
    }
  }

  lemma Pow256Eight()
    ensures Pow256(8) == TWO_TO_64
  {
    assert Pow256(2) == 0x1_0000;
    assert Pow256(4) == 0x1_0000_0000;
    assert Pow256(6) == 0x1_0000_0000_0000;
  }

  /** `sdk.Uint64ToBigEndian`: eight bytes from which the value can be read back. */
  function Uint64ToBigEndian(x: uint64): (r: seq<byte>)
    ensures |r| == 8
    ensures FromBigEndian(r) == x as nat
  {
    FromToBigEndian(8, x as nat);
    Pow256Eight();
    ToBigEndian(8, x as nat)
  }
}
