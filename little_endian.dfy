/** `uint16LE` and `uint32LE`: an integer written into a fresh byte array, least
    significant byte first, each byte `(n >> 8k) & 0xff`. */
module LittleEndian {
  import opened Bytes

  /** 256 to the power `k`. */
  function Pow256(k: nat): (p: nat)
    ensures p >= 1
  {
    if k == 0 then 1 else 256 * Pow256(k - 1)
  }

  /** The `k` low-order bytes of `n`, least significant first. */
  function LE(n: nat, k: nat): (bs: seq<bv8>)
    ensures |bs| == k
  {
    if k == 0 then [] else [(n % 256) as bv8] + LE(n / 256, k - 1)
  }

  /** The value of a little-endian byte string. */
  function DecodeLE(bs: seq<bv8>): (n: nat)
    ensures n < Pow256(|bs|)
  {
    if bs == [] then 0 else bs[0] as nat + 256 * DecodeLE(bs[1..])
  }

  /** `x % (256 * p)` from `x % 256` and `(x / 256) % p`. */
  lemma ModSplit(x: nat, p: nat)
    requires p >= 1
    ensures x % (256 * p) == x % 256 + 256 * ((x / 256) % p)
    ensures x / (256 * p) == (x / 256) / p
  {
    var q, r := x / 256, x % 256;
    var q2, r2 := q / p, q % p;
    assert x == 256 * p * q2 + (256 * r2 + r);
    assert 0 <= 256 * r2 + r < 256 * p;
    DivModUnique(x, 256 * p, q2, 256 * r2 + r);
  }

  lemma DivModUnique(x: int, d: int, q: int, r: int)
    requires d > 0 && 0 <= r < d && x == d * q + r
    ensures x / d == q && x % d == r
  {
    var k := q - x / d;
    assert d * k == x % d - r;
    if k >= 1 {
      MulAtLeast(d, k);
    } else if k <= -1 {
      MulAtLeast(d, -k);
    }
  }

  lemma MulAtLeast(d: int, k: int)
    requires d > 0 && k >= 1
    ensures d * k >= d
  {
  }

  lemma Pow256Values()
    ensures Pow256(2) == 0x1_0000 && Pow256(4) == 0x1_0000_0000
  {
  }

  /** Decoding `k` bytes of `n` gives `n` modulo `256^k`. */
  lemma {:induction false} DecodeEncodeLE(n: nat, k: nat)
    ensures DecodeLE(LE(n, k)) == n % Pow256(k)
  {
    if k > 0 {
      DecodeEncodeLE(n / 256, k - 1);
      DecodeEncodeStep(n, k);
    }
  }

  lemma DecodeEncodeStep(n: nat, k: nat)
    requires k > 0 && DecodeLE(LE(n / 256, k - 1)) == (n / 256) % Pow256(k - 1)
    ensures DecodeLE(LE(n, k)) == n % Pow256(k)
  {
    var p := Pow256(k - 1);
    DecodeHead(n, k);
    ModSplit(n, p);
    assert Pow256(k) == 256 * p;
  }

  lemma DecodeHead(n: nat, k: nat)
    requires k > 0
    ensures DecodeLE(LE(n, k)) == n % 256 + 256 * DecodeLE(LE(n / 256, k - 1))
  {
    var bs := LE(n, k);
    assert bs[1..] == LE(n / 256, k - 1);
    ByteValue(n % 256);
  }

  /** Byte `j` of `LE(n, k)` is `(n >> 8j) & 0xff`. */
  lemma {:induction false} ByteOfLE(n: nat, k: nat, j: nat)
    requires j < k
    ensures LE(n, k)[j] == ((n / Pow256(j)) % 256) as bv8
  {
    if j > 0 {
      ByteOfLE(n / 256, k - 1, j - 1);
      ModSplit(n, Pow256(j - 1));
    }
  }

  /** Encoding is the inverse of decoding. */
  lemma {:induction false} EncodeDecodeLE(bs: seq<bv8>)
    ensures LE(DecodeLE(bs), |bs|) == bs
  {
    if bs != [] {
      var n := DecodeLE(bs);
      var rest := DecodeLE(bs[1..]);
      DivModUnique(n, 256, rest, bs[0] as nat);
      EncodeDecodeLE(bs[1..]);
    }
  }

  /** `uint16LE(n)`. */
  method Uint16LE(n: nat) returns (b: array<bv8>)
    ensures fresh(b) && b[..] == LE(n, 2)
  {
    b := new bv8[2];
    b[0] := (n % 256) as bv8;
    b[1] := ((n / 256) % 256) as bv8;
    Bytes2(n);
  }

  /** `uint32LE(n)`. */
  method Uint32LE(n: nat) returns (b: array<bv8>)
    ensures fresh(b) && b[..] == LE(n, 4)
  {
    b := new bv8[4];
    b[0] := (n % 256) as bv8;
    b[1] := ((n / 256) % 256) as bv8;
    b[2] := ((n / 65536) % 256) as bv8;
    b[3] := ((n / 16777216) % 256) as bv8;
    Bytes4(n);
  }

  lemma Bytes2(n: nat)
    ensures LE(n, 2) == [(n % 256) as bv8, ((n / 256) % 256) as bv8]
  {
    ByteOfLE(n, 2, 0);
    ByteOfLE(n, 2, 1);
  }

  lemma Bytes4(n: nat)
    ensures LE(n, 4) == [(n % 256) as bv8, ((n / 256) % 256) as bv8,
                         ((n / 65536) % 256) as bv8, ((n / 16777216) % 256) as bv8]
  {
    ByteOfLE(n, 4, 0);
    ByteOfLE(n, 4, 1);
    ByteOfLE(n, 4, 2);
    ByteOfLE(n, 4, 3);
    assert Pow256(2) == 65536 && Pow256(3) == 16777216;
  }
}
