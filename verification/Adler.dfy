/** The Adler-32 checksum with the modulus taken as late as 32 bits allow. */
module Adler {
  import opened Arith
  import opened Bytes
  import opened ZlibStream

  const BASE: nat := 65521
  const CHUNK: nat := 5552

  datatype Sums = Sums(s1: nat, s2: nat)

  /** Section 8.2 of RFC 1950: both sums reduced after every byte. */
  function AdlerSums(data: seq<byte>): (r: Sums)
    ensures r.s1 < BASE && r.s2 < BASE
  {
    if data == [] then Sums(1, 0)
    else
      var p := AdlerSums(data[..|data| - 1]);
      var s1 := (p.s1 + data[|data| - 1]) % BASE;
      Sums(s1, (p.s2 + s1) % BASE)
  }

  /** The bytes added up, plainly and each as often as there are bytes from it on. */
  function Sum(data: seq<byte>): nat { if data == [] then 0 else data[0] + Sum(data[1..]) }

  function Weighted(data: seq<byte>): nat { if data == [] then 0 else |data| * data[0] + Weighted(data[1..]) }

  lemma {:induction false} SumSnoc(data: seq<byte>, b: byte)
    ensures Sum(data + [b]) == Sum(data) + b && Weighted(data + [b]) == Weighted(data) + Sum(data) + b
  {
    if data == [] {
      assert data + [b] == [b] && [b][1..] == [];
    } else {
      assert (data + [b])[0] == data[0] && (data + [b])[1..] == data[1..] + [b];
      SumSnoc(data[1..], b);
      assert (|data| + 1) * data[0] == |data| * data[0] + data[0];
    }
  }

  /** The two sums of section 2.2 of RFC 1950, each reduced once. */
  lemma {:induction false} AdlerClosed(data: seq<byte>)
    ensures AdlerSums(data) == Sums((1 + Sum(data)) % BASE, (|data| + Weighted(data)) % BASE)
  {
    hide Sum, Weighted;
    if data == [] {
      SumNone(data);
    } else {
      var d, b := data[..|data| - 1], data[|data| - 1];
      assert data == d + [b];
      SumSnoc(d, b);
      AdlerClosed(d);
      ReducedTwice(1 + Sum(d), |d| + Weighted(d), b);
    }
  }

  lemma SumNone(data: seq<byte>)
    requires data == []
    ensures Sum(data) == Weighted(data) == 0
  {}

  lemma ReducedTwice(x: nat, y: nat, b: nat)
    ensures (x % BASE + b) % BASE == (x + b) % BASE
    ensures (y % BASE + (x + b) % BASE) % BASE == (y + x + b) % BASE
  {
    AddMod(x, b, BASE);
    AddMod(y, (x + b) % BASE, BASE);
    AddMod(x + b, y, BASE);
  }

  // ----- the modulus

  ghost predicate Prime(n: nat) { n >= 2 && forall a, b :: 2 <= a && 2 <= b ==> a * b != n }

  /** None of the 4, 16 or 64 numbers from `lo` on divides `n`. */
  predicate NoneOf4(n: nat, lo: nat)
    requires 0 < lo
  {
    n % lo != 0 && n % (lo + 1) != 0 && n % (lo + 2) != 0 && n % (lo + 3) != 0
  }

  predicate NoneOf16(n: nat, lo: nat)
    requires 0 < lo
  {
    NoneOf4(n, lo) && NoneOf4(n, lo + 4) && NoneOf4(n, lo + 8) && NoneOf4(n, lo + 12)
  }

  predicate NoneOf64(n: nat, lo: nat)
    requires 0 < lo
  {
    NoneOf16(n, lo) && NoneOf16(n, lo + 16) && NoneOf16(n, lo + 32) && NoneOf16(n, lo + 48)
  }

  lemma NoneAt4(n: nat, lo: nat, a: nat)
    requires 0 < lo <= a < lo + 4 && NoneOf4(n, lo)
    ensures n % a != 0
  {
    if a == lo {} else if a == lo + 1 {} else if a == lo + 2 {} else {}
  }

  lemma NoneAt16(n: nat, lo: nat, a: nat)
    requires 0 < lo <= a < lo + 16 && NoneOf16(n, lo)
    ensures n % a != 0
  {
    hide NoneOf4;
    NoneAt4(n, if a < lo + 4 then lo else if a < lo + 8 then lo + 4 else if a < lo + 12 then lo + 8 else lo + 12, a);
  }

  lemma NoneAt64(n: nat, lo: nat, a: nat)
    requires 0 < lo <= a < lo + 64 && NoneOf64(n, lo)
    ensures n % a != 0
  {
    hide NoneOf16;
    var q := if a < lo + 16 then lo else if a < lo + 32 then lo + 16 else if a < lo + 48 then lo + 32 else lo + 48;
    NoneAt16(n, q, a);
  }

  lemma NoneFrom2()
    ensures NoneOf64(65521, 2)
  {}

  lemma NoneFrom66()
    ensures NoneOf64(65521, 66)
  {}

  lemma NoneFrom130()
    ensures NoneOf64(65521, 130)
  {}

  lemma NoneFrom194()
    ensures NoneOf64(65521, 194)
  {}

  lemma SmallDivisors(a: nat)
    requires 2 <= a < 256
    ensures BASE % a != 0
  {
    hide NoneOf64;
    NoneFrom2();
    NoneFrom66();
    NoneFrom130();
    NoneFrom194();
    NoneAt64(BASE, if a < 66 then 2 else if a < 130 then 66 else if a < 194 then 130 else 194, a);
  }

  lemma Product(a: nat, b: nat)
    requires 2 <= a <= b
    ensures a * b != BASE
  {
    if a < 256 {
      SmallDivisors(a);
      MultipleMod(b, a);
    } else {
      assert a * b >= 256 * 256;
    }
  }

  /** The modulus is the largest prime below 2^16. */
  lemma {:induction false} BaseIsPrime()
    ensures Prime(BASE) && forall n: nat :: BASE < n < 65536 ==> !Prime(n)
  {
    forall a, b | 2 <= a && 2 <= b ensures a * b != BASE {
      if a <= b { Product(a, b); } else { Product(b, a); }
    }
    forall n: nat | BASE < n < 65536 ensures !Prime(n) {
      Composite(n);
    }
  }

  lemma Composite(n: nat)
    requires BASE < n < 65536
    ensures !Prime(n)
  {
    var d := if n % 2 == 0 then 2 else if n % 3 == 0 then 3 else if n == 65525 then 5 else if n == 65527 then 7
      else if n == 65531 then 19 else 13;
    assert d * (n / d) == n;
  }

  function Checksum(data: seq<byte>): nat {
    AdlerSums(data).s2 * 65536 + AdlerSums(data).s1
  }

  /** The weighted sum is in the upper half of the checksum, the plain one in the lower. */
  lemma ChecksumParts(data: seq<byte>)
    ensures Checksum(data) / 65536 == (|data| + Weighted(data)) % BASE
    ensures Checksum(data) % 65536 == (1 + Sum(data)) % BASE
  {
    hide AdlerSums, Sum, Weighted;
    AdlerClosed(data);
    ModUnique(AdlerSums(data).s2, AdlerSums(data).s1, 65536);
  }

  /** `1 + 2 + ... + n` */
  function Triangle(n: nat): nat { if n == 0 then 0 else Triangle(n - 1) + n }

  lemma {:induction false} TriangleClosed(n: nat)
    ensures 2 * Triangle(n) == n * (n + 1)
  {
    if n > 0 { TriangleClosed(n - 1); }
  }

  lemma {:induction false} TriangleMono(m: nat, n: nat)
    requires m <= n
    ensures Triangle(m) <= Triangle(n)
    decreases n
  {
    if m < n { TriangleMono(m, n - 1); }
  }

  /** A chunk is as long as it can be: after one more byte of 255 the second sum may not fit. */
  lemma ChunkLargest()
    ensures (BASE - 1) + (BASE - 1) * CHUNK + 255 * Triangle(CHUNK) < WORD32
    ensures (BASE - 1) + (BASE - 1) * (CHUNK + 1) + 255 * Triangle(CHUNK + 1) >= WORD32
  {
    hide Triangle;
    TriangleClosed(CHUNK);
    TriangleClosed(CHUNK + 1);
  }

  /** The sums after `n` bytes without reduction, from reduced ones. */
  ghost predicate Bounded(s: Sums, n: nat) {
    s.s1 <= 65520 + 255 * n && s.s2 <= 65520 + 65520 * n + 255 * Triangle(n)
  }

  lemma BoundedStep(s: Sums, n: nat, b: byte)
    requires Bounded(s, n)
    ensures Bounded(Sums(s.s1 + b, s.s2 + s.s1 + b), n + 1)
  {}

  /** A chunk peaks at 4294690200, which is still a 32-bit word. */
  lemma {:induction false} ChunkFits(s: Sums, n: nat)
    requires n <= CHUNK && Bounded(s, n)
    ensures s.s1 < WORD32 && s.s2 <= 4294690200 < WORD32
  {
    TriangleMono(n, CHUNK);
    TriangleClosed(CHUNK);
  }

  /** The delayed sums stand for the reduced ones. */
  ghost predicate Stands(s: Sums, data: seq<byte>) {
    s.s1 % BASE == AdlerSums(data).s1 && s.s2 % BASE == AdlerSums(data).s2
  }

  lemma ModAdd(a: nat, b: nat)
    ensures (a + b) % BASE == (a % BASE + b) % BASE
  {}

  lemma {:induction false} StandsStep(s: Sums, data: seq<byte>, b: byte)
    requires Stands(s, data)
    ensures var t := s.s1 + b; Stands(Sums(t, s.s2 + t), data + [b])
  {
    var t := s.s1 + b;
    assert (data + [b])[..|data|] == data;
    ModAdd(s.s1, b);
    ModAdd(s.s2, t);
    ModAdd(t, AdlerSums(data).s2);
  }

  /** Adds the `n` bytes at `p` without reducing; no addition leaves 32 bits. */
  method AddBytes(data: seq<byte>, p: nat, n: nat, s: Sums, done: nat) returns (r: Sums)
    requires p + n <= |data| && done + n <= CHUNK && Bounded(s, done) && Stands(s, data[..p])
    ensures Bounded(r, done + n) && Stands(r, data[..p + n]) && r.s1 < WORD32 && r.s2 <= 4294690200
  {
    hide AdlerSums, Triangle;
    var s1: nat, s2: nat, i := s.s1, s.s2, 0;
    while i < n
      invariant 0 <= i <= n && Bounded(Sums(s1, s2), done + i) && Stands(Sums(s1, s2), data[..p + i])
    {
      StandsStep(Sums(s1, s2), data[..p + i], data[p + i]);
      assert data[..p + i + 1] == data[..p + i] + [data[p + i]];
      BoundedStep(Sums(s1, s2), done + i, data[p + i]);
      s1 := s1 + data[p + i];
      s2 := s2 + s1;
      i := i + 1;
      ChunkFits(Sums(s1, s2), done + i);
    }
    r := Sums(s1, s2);
    ChunkFits(r, done + n);
  }

  lemma {:induction false} Reduced(s: Sums, data: seq<byte>)
    requires Stands(s, data)
    ensures var r := Sums(s.s1 % BASE, s.s2 % BASE); Stands(r, data) && Bounded(r, 0)
  {}

  /** A full chunk, sixteen bytes to a turn. */
  method AddChunk(data: seq<byte>, p: nat, s: Sums) returns (r: Sums)
    requires p + CHUNK <= |data| && Bounded(s, 0) && Stands(s, data[..p])
    ensures Bounded(r, 0) && Stands(r, data[..p + CHUNK])
  {
    hide AdlerSums, Triangle;
    r := s;
    var i := 0;
    while i < CHUNK
      invariant 0 <= i <= CHUNK && i % 16 == 0 && Bounded(r, i) && Stands(r, data[..p + i])
    {
      r := AddBytes(data, p + i, 16, r, i);
      i := i + 16;
    }
    Reduced(r, data[..p + CHUNK]);
    r := Sums(r.s1 % BASE, r.s2 % BASE);
  }

  /** What is left after the chunks, less than one of them. */
  method AddTail(data: seq<byte>, p: nat, s: Sums) returns (r: Sums)
    requires p <= |data| < p + CHUNK && Bounded(s, 0) && Stands(s, data[..p])
    ensures r == AdlerSums(data)
  {
    hide AdlerSums, Triangle;
    r := s;
    var hsz, q := |data| - p, p;
    while hsz >= 16
      invariant 0 <= hsz && q + hsz == |data| && p <= q && Bounded(r, q - p) && Stands(r, data[..q])
    {
      r := AddBytes(data, q, 16, r, q - p);
      q, hsz := q + 16, hsz - 16;
    }
    r := AddBytes(data, q, hsz, r, q - p);
    assert data[..|data|] == data;
    r := Sums(r.s1 % BASE, r.s2 % BASE);
  }

  /** The sums of the data, reduced once per chunk. */
  method Accumulate(data: seq<byte>) returns (r: Sums)
    ensures r == AdlerSums(data)
  {
    hide AdlerSums, Triangle;
    r := Sums(1, 0);
    var p := 0;
    Initially(data[..0]);
    while |data| - p >= CHUNK
      invariant 0 <= p <= |data| && Bounded(r, 0) && Stands(r, data[..p])
    {
      r := AddChunk(data, p, r);
      p := p + CHUNK;
    }
    r := AddTail(data, p, r);
  }

  lemma Initially(data: seq<byte>)
    requires data == []
    ensures Bounded(Sums(1, 0), 0) && Stands(Sums(1, 0), data)
  {}

  /** Bytes of a number, most significant first. */
  function BigEndian(c: seq<byte>): nat {
    if c == [] then 0 else BigEndian(c[..|c| - 1]) * 256 + c[|c| - 1]
  }

  /** Compares the checksum of the data with the stored one. */
  method Verify(checkbytes: seq<byte>, data: seq<byte>) returns (ok: bool)
    requires |checkbytes| == 4
    ensures ok <==> Checksum(data) == BigEndian(checkbytes)
  {
    var cksum: nat := 0;
    for i := 0 to 4
      invariant cksum == BigEndian(checkbytes[..i])
    {
      assert checkbytes[..i + 1][..i] == checkbytes[..i];
      cksum := cksum * 256 + checkbytes[i];
    }
    assert checkbytes[..4] == checkbytes;
    var s := Accumulate(data);
    hide AdlerSums, BigEndian;
    SmallMod(s.s2 * 65536 + s.s1, WORD32);
    ok := (s.s2 * 65536 + s.s1) % WORD32 == cksum;
  }

  /** Inflates and then verifies the checksum in the last four bytes. */
  method InflateAndVerify(input: seq<byte>, end: nat, base: nat, out: array<byte>) returns (ok: bool)
    requires 4 <= end && end + 3 <= |input|
    modifies out
    ensures ok ==> Checksum(out[..]) == BigEndian(input[end - 4..end])
    ensures ok ==> Inflated(input, end, base, out[..])
    ensures Acceptable(input, end, base, out.Length) ==>
      Checksum(Streams(input, end, base, 0, []).value) == BigEndian(input[end - 4..end]) ==> ok
  {
    hide Streams, StreamsTaken, Checksum, BigEndian;
    ok := InflateAll(input, end, base, out);
    if ok {
      ok := Verify(input[end - 4..end], out[..]);
    }
  }
}
