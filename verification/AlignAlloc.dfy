/** Requests, their bitmap, and the padded layout the aligned allocator uses. */
module AlignAlloc {
  import opened Arith

  datatype Layout = Layout(size: nat, align: nat)
  datatype AlignReq = AlignReq(offset: nat, len: nat)
  datatype Result<+T> = Ok(value: T) | Err

  /** Byte `b` of the object belongs to request `r`. */
  predicate Covers(r: AlignReq, b: nat) { r.offset <= b < r.offset + r.len }

  ghost predicate Covered(reqs: seq<AlignReq>, b: nat) { exists i :: 0 <= i < |reqs| && Covers(reqs[i], b) }

  ghost predicate Apart(r: AlignReq, s: AlignReq) { forall b: nat :: !(Covers(r, b) && Covers(s, b)) }

  /** Some request, all inside the object, pairwise disjoint. */
  ghost predicate ValidReqs(size: nat, reqs: seq<AlignReq>) {
    reqs != []
    && (forall i :: 0 <= i < |reqs| ==> reqs[i].offset + reqs[i].len <= size)
    && (forall i, j :: 0 <= i < j < |reqs| ==> Apart(reqs[i], reqs[j]))
  }

  // ----- the check, with one bit per byte of the object

  predicate Taken(m: seq<bv8>, b: nat)
    requires b / 8 < |m|
  {
    m[b / 8] & (1 << ((b % 8) as bv3)) != 0
  }

  lemma SetBit(x: bv8, i: bv3, j: bv3)
    ensures (x | (1 << i)) & (1 << j) != 0 <==> x & (1 << j) != 0 || i == j
  {}

  lemma SmallInjective(i: nat, j: nat)
    requires i < 8 && j < 8
    ensures i as bv3 == j as bv3 <==> i == j
  {
    assert (i as bv3) as int == i && (j as bv3) as int == j;
  }

  lemma TakenSet(m: seq<bv8>, o: nat, b: nat)
    requires o / 8 < |m| && b / 8 < |m|
    ensures Taken(m[o / 8 := m[o / 8] | (1 << ((o % 8) as bv3))], b) <==> Taken(m, b) || b == o
  {
    SetBit(m[o / 8], (o % 8) as bv3, (b % 8) as bv3);
    SmallInjective(o % 8, b % 8);
  }

  /** Byte `b` belongs to one of the first `n` requests or to the first `i` bytes
      of the next one. */
  ghost predicate Before(reqs: seq<AlignReq>, n: nat, i: nat, b: nat)
    requires n <= |reqs|
  {
    (exists m :: 0 <= m < n && Covers(reqs[m], b)) || (n < |reqs| && reqs[n].offset <= b < reqs[n].offset + i)
  }

  ghost predicate Marked(m: seq<bv8>, size: nat, reqs: seq<AlignReq>, n: nat, i: nat) {
    n <= |reqs| && |m| == (size + 7) / 8 && forall b: nat :: b < size ==> (Taken(m, b) <==> Before(reqs, n, i, b))
  }

  lemma MarkedStep(m: seq<bv8>, size: nat, reqs: seq<AlignReq>, n: nat, i: nat, o: nat)
    requires n < |reqs| && i < reqs[n].len && reqs[n].offset + reqs[n].len <= size && o == reqs[n].offset + i
    requires Marked(m, size, reqs, n, i)
    ensures Marked(m[o / 8 := m[o / 8] | (1 << ((o % 8) as bv3))], size, reqs, n, i + 1)
  {
    hide Taken;
    var m' := m[o / 8 := m[o / 8] | (1 << ((o % 8) as bv3))];
    forall b: nat | b < size ensures Taken(m', b) <==> Before(reqs, n, i + 1, b) {
      TakenSet(m, o, b);
    }
  }

  /** Marks the bytes of request `n`, unless one of them is taken. */
  method MarkRequest(size: nat, reqs: seq<AlignReq>, n: nat, bmp: array<bv8>) returns (ok: bool)
    requires n < |reqs| && reqs[n].offset + reqs[n].len <= size && Marked(bmp[..], size, reqs, n, 0)
    modifies bmp
    ensures ok ==> Marked(bmp[..], size, reqs, n, reqs[n].len)
    ensures ok <==> forall m :: 0 <= m < n ==> Apart(reqs[m], reqs[n])
  {
    hide Taken, Marked;
    var r := reqs[n];
    var i := 0;
    while i < r.len
      invariant 0 <= i <= r.len && Marked(bmp[..], size, reqs, n, i)
      invariant forall m, b: nat :: 0 <= m < n && r.offset <= b < r.offset + i ==> !Covers(reqs[m], b)
    {
      var o := r.offset + i;
      ghost var t := bmp[..];
      MarkedLength(t, size, reqs, n, i, o);
      if bmp[o / 8] & (1 << ((o % 8) as bv3)) != 0 {
        ghost var m :| 0 <= m < n && Covers(reqs[m], o);
        assert Covers(r, o) && !Apart(reqs[m], r);
        return false;
      }
      MarkedStep(t, size, reqs, n, i, o);
      bmp[o / 8] := bmp[o / 8] | (1 << ((o % 8) as bv3));
      assert bmp[..] == t[o / 8 := t[o / 8] | (1 << ((o % 8) as bv3))];
      i := i + 1;
    }
    return true;
  }

  lemma MarkedLength(m: seq<bv8>, size: nat, reqs: seq<AlignReq>, n: nat, i: nat, o: nat)
    requires Marked(m, size, reqs, n, i) && n < |reqs| && o < size && o == reqs[n].offset + i
    ensures o / 8 < |m|
    ensures m[o / 8] & (1 << ((o % 8) as bv3)) != 0 <==> exists k :: 0 <= k < n && Covers(reqs[k], o)
  {
    assert Taken(m, o) <==> Before(reqs, n, i, o);
  }

  lemma MarkedNext(m: seq<bv8>, size: nat, reqs: seq<AlignReq>, n: nat)
    requires n < |reqs| && Marked(m, size, reqs, n, reqs[n].len)
    ensures Marked(m, size, reqs, n + 1, 0)
  {
    hide Taken;
    forall b: nat ensures Before(reqs, n, reqs[n].len, b) <==> Before(reqs, n + 1, 0, b) {
      if Before(reqs, n, reqs[n].len, b) && Covers(reqs[n], b) { assert Covers(reqs[n], b); }
    }
  }

  /** Checks that the requests are inside the object and disjoint; `got` says
      whether the scratch memory could be allocated. */
  method CheckAlignReq(size: nat, reqs: seq<AlignReq>, got: bool) returns (ok: bool)
    requires size < WORD - 7
    requires forall i :: 0 <= i < |reqs| ==> reqs[i].offset < WORD && reqs[i].len < WORD
    ensures ok <==> got && ValidReqs(size, reqs)
  {
    hide Marked, Apart;
    if reqs == [] || !got {
      return false;
    }
    var bmp := new bv8[(size + 7) / 8](_ => 0);
    MarkedStart(bmp[..], size, reqs);
    var n := 0;
    while n < |reqs|
      invariant 0 <= n <= |reqs| && Marked(bmp[..], size, reqs, n, 0)
      invariant forall i :: 0 <= i < n ==> reqs[i].offset + reqs[i].len <= size
      invariant forall i, j :: 0 <= i < j < n ==> Apart(reqs[i], reqs[j])
    {
      if reqs[n].offset + reqs[n].len >= WORD || reqs[n].offset + reqs[n].len > size {
        return false;
      }
      ok := MarkRequest(size, reqs, n, bmp);
      if !ok {
        return;
      }
      MarkedNext(bmp[..], size, reqs, n);
      n := n + 1;
    }
    return true;
  }

  lemma MarkedStart(m: seq<bv8>, size: nat, reqs: seq<AlignReq>)
    requires |m| == (size + 7) / 8 && forall k :: 0 <= k < |m| ==> m[k] == 0
    ensures Marked(m, size, reqs, 0, 0)
  {}
}
