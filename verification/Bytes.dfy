// Bytes, and big-endian numbers as byte strings.
module Bytes {

  newtype byte = x: int | 0 <= x < 256 witness 0

  function Pow256(k: nat): (p: nat)
    ensures p > 0
  {
    if k == 0 then 1 else 256 * Pow256(k - 1)
  }

  /** The low `k` bytes of `n`, most significant first. */
  function Be(n: nat, k: nat): (r: seq<byte>)
    ensures |r| == k
  {
    if k == 0 then [] else Be(n / 256, k - 1) + [(n % 256) as byte]
  }

  function FromBe(s: seq<byte>): nat {
    if s == [] then 0 else 256 * FromBe(s[..|s| - 1]) + s[|s| - 1] as int
  }

  /** Reading back a written number gives the number, cut to the width. */
  lemma {:induction false} BeRoundTrip(n: nat, k: nat)
    requires n < Pow256(k)
    ensures FromBe(Be(n, k)) == n
  {
    if k > 0 {
      assert n / 256 < Pow256(k - 1);
      BeRoundTrip(n / 256, k - 1);
      assert Be(n, k)[..k - 1] == Be(n / 256, k - 1);
    }
  }

  lemma {:induction false} FromBeBound(s: seq<byte>)
    ensures FromBe(s) < Pow256(|s|)
  {
    if s != [] { FromBeBound(s[..|s| - 1]); }
  }

  lemma Widths()
    ensures Pow256(3) == 0x100_0000 && Pow256(4) == 0x1_0000_0000
  {
    assert Pow256(1) == 256;
    assert Pow256(2) == 65536;
    assert Pow256(3) == 0x100_0000;
  }

  /** Each byte of a written number is a quotient of it, cut to a byte: the first one
      carries the highest power. */
  lemma {:induction false} BeDigits(n: nat, k: nat, i: nat)
    requires i < k
    ensures Be(n, k)[i] as int == n / Pow256(k - 1 - i) % 256
  {
    if i < k - 1 {
      BeDigits(n / 256, k - 1, i);
      assert Be(n, k)[i] == Be(n / 256, k - 1)[i];
      QuotientOfQuotient(n, Pow256(k - 2 - i));
    } else {
      assert Be(n, k)[i] == (n % 256) as byte;
    }
  }

  lemma QuotientOfQuotient(n: nat, p: nat)
    requires p > 0
    ensures n / 256 / p == n / (256 * p)
  {
    var q := n / 256 / p;
    var r := n / 256 % p;
    assert n == 256 * (q * p + r) + n % 256;
    assert 256 * (q * p) == q * (256 * p);
    Quotient(n, 256 * p, q, 256 * r + n % 256);
  }

  lemma Steps(a: nat, b: nat, d: nat)
    requires a < b
    ensures a * d + d <= b * d
  {
    assert b * d == (b - a - 1) * d + a * d + d;
  }

  lemma SameQuotient(d: nat, q: nat, r: nat, p: nat, s: nat)
    requires q * d + r == p * d + s && r < d && s < d
    ensures p == q
  {
    if p < q { Steps(p, q, d); }
    if q < p { Steps(q, p, d); }
  }

  lemma Quotient(n: nat, d: nat, q: nat, r: nat)
    requires d > 0 && n == q * d + r && r < d
    ensures n / d == q
  {
    var p, s := n / d, n % d;
    assert n == p * d + s;
    SameQuotient(d, q, r, p, s);
  }

  /** The first byte of a number counts its highest power. */
  lemma {:induction false} FromBeHead(s: seq<byte>)
    requires s != []
    ensures FromBe(s) == s[0] as int * Pow256(|s| - 1) + FromBe(s[1..])
  {
    if |s| > 1 {
      var init := s[..|s| - 1];
      FromBeHead(init);
      assert s[1..][..|s| - 2] == init[1..];
    }
  }

  /** Three bytes by their weights. */
  lemma FromBe3(a: byte, b: byte, c: byte)
    ensures FromBe([a, b, c]) == a as int * 65536 + b as int * 256 + c as int
  {
    var t, u, v := [a, b, c], [a, b], [a];
    assert t[..2] == u && u[..1] == v && v[..0] == [];
    assert FromBe(v) == a as int;
    assert FromBe(u) == 256 * FromBe(v) + b as int;
  }

  /** Four bytes by their weights. */
  lemma FromBe4(a: byte, b: byte, c: byte, d: byte)
    ensures FromBe([a, b, c, d]) == a as int * 0x100_0000 + b as int * 65536 + c as int * 256 + d as int
  {
    FromBe3(a, b, c);
    assert [a, b, c, d][..3] == [a, b, c];
  }

  /** The bytes of a 24-bit number. */
  lemma Be3(n: nat)
    ensures Be(n, 3)[0] as int == n / 65536 % 256
    ensures Be(n, 3)[1] as int == n / 256 % 256
    ensures Be(n, 3)[2] as int == n % 256
  {
    Powers();
    forall i: nat | i < 3 ensures Be(n, 3)[i] as int == n / Pow256(2 - i) % 256 { BeDigits(n, 3, i); }
  }

  /** The bytes of a 32-bit number. */
  lemma Be4(n: nat)
    ensures Be(n, 4)[0] as int == n / 0x100_0000 % 256
    ensures Be(n, 4)[1] as int == n / 65536 % 256
    ensures Be(n, 4)[2] as int == n / 256 % 256
    ensures Be(n, 4)[3] as int == n % 256
  {
    Powers();
    forall i: nat | i < 4 ensures Be(n, 4)[i] as int == n / Pow256(3 - i) % 256 { BeDigits(n, 4, i); }
  }

  lemma Powers()
    ensures Pow256(0) == 1 && Pow256(1) == 256 && Pow256(2) == 65536 && Pow256(3) == 0x100_0000
  {
    Widths();
    assert Pow256(1) == 256 && Pow256(2) == 65536;
  }
}
