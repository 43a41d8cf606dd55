/** Integers as bytes in memory, least significant byte first. */
module LittleEndian {
  import opened MachineInts

  /** Numbers that fit in `k` bytes are below this. */
  function Range(k: nat): (r: nat)
    ensures 0 < r
  {
    if k == 0 then 1 else 256 * Range(k - 1)
  }

  function ToBytes(n: nat, k: nat): (bytes: seq<uint8>)
    ensures |bytes| == k
  {
    if k == 0 then [] else [n % 256] + ToBytes(n / 256, k - 1)
  }

  function FromBytes(bytes: seq<uint8>): (n: nat)
    ensures n < Range(|bytes|)
  {
    if bytes == [] then 0 else bytes[0] + 256 * FromBytes(bytes[1..])
  }

  lemma {:induction false} RoundTrip(n: nat, k: nat)
    requires n < Range(k)
    ensures FromBytes(ToBytes(n, k)) == n
  {
    if k > 0 {
      RoundTrip(n / 256, k - 1);
      assert ToBytes(n, k)[1..] == ToBytes(n / 256, k - 1);
    }
  }

  lemma {:induction false} BytesBack(bytes: seq<uint8>)
    ensures ToBytes(FromBytes(bytes), |bytes|) == bytes
  {
    if bytes != [] {
      BytesBack(bytes[1..]);
      FirstAndRest(bytes[0], FromBytes(bytes[1..]));
    }
  }

  lemma FirstAndRest(first: uint8, rest: nat)
    ensures (first + 256 * rest) % 256 == first && (first + 256 * rest) / 256 == rest
  {
    DivModUnique(first + 256 * rest, 256, rest, first);
  }

  /** The first byte is the least significant one. */
  lemma {:induction false} LeastFirst(n: nat, k: nat, i: nat)
    requires i < k
    ensures ToBytes(n, k)[i] == n / Range(i) % 256
  {
    if i > 0 {
      LeastFirst(n / 256, k - 1, i - 1);
      DivideTwice(n, Range(i - 1));
    }
  }

  lemma DivideTwice(n: nat, m: nat)
    requires 0 < m
    ensures n / 256 / m == n / (256 * m)
  {
    var q, p := n / 256, n / 256 / m;
    var r, s := n % 256, q % m;
    assert n == p * (256 * m) + (256 * s + r) by {
      assert q == p * m + s && n == 256 * q + r;
      assert 256 * (p * m) == p * (256 * m);
    }
    DivModUnique(n, 256 * m, p, 256 * s + r);
  }

  lemma Ranges()
    ensures Range(1) == U8_RANGE && Range(4) == U32_RANGE && Range(8) == U64_RANGE
  {
    assert Range(4) == 256 * Range(3) && Range(8) == 256 * Range(7) && Range(6) == 256 * Range(5);
  }

  function Zeros(n: nat): (z: seq<uint8>)
    ensures |z| == n
  {
    seq(n, _ => 0)
  }

  /** `target` with the bytes of `source` from `at` on. */
  function Splice(target: seq<uint8>, at: nat, source: seq<uint8>): (spliced: seq<uint8>)
    requires at + |source| <= |target|
    ensures |spliced| == |target|
  {
    target[..at] + source + target[at + |source|..]
  }

  lemma SpliceNext(target: seq<uint8>, at: nat, a: seq<uint8>, b: seq<uint8>)
    requires at + |a| + |b| <= |target|
    ensures Splice(Splice(target, at, a), at + |a|, b) == Splice(target, at, a + b)
  {
  }

  lemma SpliceOne(target: seq<uint8>, at: nat, source: seq<uint8>, i: nat)
    requires at + |source| <= |target| && i < |source|
    ensures Splice(target, at, source[..i])[at + i := source[i]] == Splice(target, at, source[..i + 1])
  {
  }

  /** `memcpy`. */
  method CopyInto(target: array<uint8>, at: nat, source: seq<uint8>)
    requires at + |source| <= target.Length
    modifies target
    ensures target[..] == Splice(old(target[..]), at, source)
  {
    for i := 0 to |source|
      invariant target[..] == Splice(old(target[..]), at, source[..i])
    {
      SpliceOne(old(target[..]), at, source, i);
      target[at + i] := source[i];
    }
    assert source[..|source|] == source;
  }
}
