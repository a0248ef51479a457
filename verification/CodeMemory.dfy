/** Memory allocation in `getCode` and `getBatchGetCode` (multicalls/contracts/MultiCall.sol:236-267).
    Memory is byte addressed and reads zero where nothing was written; words are 32 bytes, big-endian. */
module CodeMemory {
  import opened MultiCall

  const WORD_LIMIT: nat := 0x1_0000000000000000_0000000000000000_0000000000000000_0000000000000000
  const FREE_POINTER: nat := 0x40
  const FIRST_FREE: nat := 0x80

  type Cells = nat -> byte

  function Read(m: Cells, a: nat, n: nat): (r: Bytes)
    ensures |r| == n && forall i :: 0 <= i < n ==> r[i] == m(a + i)
  {
    seq(n, i requires 0 <= i => m(a + i))
  }

  function Write(m: Cells, a: nat, data: Bytes): Cells {
    (i: nat) => if a <= i < a + |data| then data[i - a] else m(i)
  }

  function ToBytes(v: nat, n: nat): (r: Bytes)
    ensures |r| == n
  {
    if n == 0 then [] else ToBytes(v / 256, n - 1) + [(v % 256) as byte]
  }

  function FromBytes(b: Bytes): nat {
    if b == [] then 0 else FromBytes(b[..|b| - 1]) * 256 + b[|b| - 1] as nat
  }

  function Pow256(n: nat): (r: nat)
    ensures r > 0
  {
    if n == 0 then 1 else 256 * Pow256(n - 1)
  }

  lemma {:induction false} BytesRoundTrip(v: nat, n: nat)
    requires v < Pow256(n)
    ensures FromBytes(ToBytes(v, n)) == v
  {
    if n > 0 {
      BytesRoundTrip(v / 256, n - 1);
      var b := ToBytes(v, n);
      assert b[..n - 1] == ToBytes(v / 256, n - 1);
    }
  }

  lemma WordLimitIsPow()
    ensures Pow256(32) == WORD_LIMIT
  {
    assert Pow256(8) == 0x1_0000000000000000;
    assert Pow256(16) == 0x1_0000000000000000_0000000000000000;
    assert Pow256(24) == 0x1_0000000000000000_0000000000000000_0000000000000000;
  }

  function MLoad(m: Cells, a: nat): nat { FromBytes(Read(m, a, 32)) }

  function MStore(m: Cells, a: nat, v: nat): Cells { Write(m, a, ToBytes(v, 32)) }

  lemma LoadAfterStore(m: Cells, a: nat, v: nat)
    requires v < WORD_LIMIT
    ensures MLoad(MStore(m, a, v), a) == v
  {
    WordLimitIsPow();
    BytesRoundTrip(v, 32);
    assert Read(MStore(m, a, v), a, 32) == ToBytes(v, 32);
  }

  /** The two memories hold the same bytes in [lo, hi). */
  ghost predicate Same(m: Cells, m': Cells, lo: nat, hi: nat) {
    forall i :: lo <= i < hi ==> m'(i) == m(i)
  }

  lemma LoadSame(m: Cells, m': Cells, a: nat)
    requires Same(m, m', a, a + 32)
    ensures MLoad(m', a) == MLoad(m, a)
  {
    assert Read(m', a, 32) == Read(m, a, 32);
  }

  // 256-bit words as the EVM computes on them.
  function Add(x: nat, y: nat): nat { (x + y) % WORD_LIMIT }

  function Not(x: nat): nat
    requires x < WORD_LIMIT
  {
    WORD_LIMIT - 1 - x
  }

  function And(x: nat, y: nat): nat {
    if x == 0 || y == 0 then 0 else 2 * And(x / 2, y / 2) + (x % 2) * (y % 2)
  }

  function Pow2(n: nat): nat { if n == 0 then 1 else 2 * Pow2(n - 1) }

  lemma {:induction false} AndAllOnes(x: nat, n: nat)
    requires x < Pow2(n)
    ensures And(x, Pow2(n) - 1) == x
  {
    if n > 0 && x != 0 {
      AndAllOnes(x / 2, n - 1);
      assert (Pow2(n) - 1) / 2 == Pow2(n - 1) - 1 && (Pow2(n) - 1) % 2 == 1;
    }
  }

  lemma {:induction false} AndDropsLowBits(x: nat, n: nat, k: nat)
    requires x < Pow2(n) && k <= n
    ensures Pow2(k) > 0 && Pow2(n) >= Pow2(k)
    ensures And(x, Pow2(n) - Pow2(k)) == x - x % Pow2(k)
  {
    if k == 0 {
      AndAllOnes(x, n);
      AtLeastOne(n);
    } else {
      AndDropsLowBits(x / 2, n - 1, k - 1);
      var p := Pow2(k - 1);
      var y := Pow2(n) - Pow2(k);
      assert y == 2 * (Pow2(n - 1) - p);
      HalvingKeepsRemainder(x, p);
      if x == 0 || y == 0 {
        if y == 0 {
          assert And(x / 2, Pow2(n - 1) - p) == 0;
        }
      }
    }
  }

  lemma HalvingKeepsRemainder(x: nat, p: nat)
    requires p > 0
    ensures x - x % (2 * p) >= 0
    ensures 2 * (x / 2 - (x / 2) % p) == x - x % (2 * p)
  {
    var d := 2 * p;
    var q, r := x / d, x % d;
    var pq := p * q;
    assert x == d * q + r;
    assert d * q == 2 * pq by { TwiceProduct(p, q); }
    assert x / 2 == pq + r / 2;
    RemainderUnique(x / 2, p, q, r / 2);
  }

  lemma TwiceProduct(p: int, q: int)
    ensures (2 * p) * q == 2 * (p * q)
  {
  }

  lemma RemainderUnique(x: nat, p: nat, q: nat, r: nat)
    requires x == p * q + r && r < p
    ensures x % p == r
  {
    var q', r' := x / p, x % p;
    assert p * (q - q') == r' - r;
    MultipleBelow(p, q - q', r' - r);
  }

  lemma MultipleBelow(p: int, d: int, e: int)
    requires p * d == e && -p < e < p
    ensures d == 0
  {
    if d >= 1 {
      MulAtLeast(p, d);
      assert false;
    } else if d <= -1 {
      MulAtLeast(p, -d);
      assert false;
    }
  }

  lemma MulAtLeast(p: int, d: int)
    requires p > 0 && d >= 1
    ensures p * d >= p
  {
  }

  lemma {:induction false} AtLeastOne(n: nat)
    ensures Pow2(n) >= 1
  {
    if n > 0 {
      AtLeastOne(n - 1);
    }
  }

  /** `and(add(add(size, 0x20), 0x1f), not(0x1f))`. */
  function Reserved(size: nat): nat { And(Add(Add(size, 0x20), 0x1f), Not(0x1f)) }

  lemma WordLimitIsPow2(n: nat)
    requires n == 8
    ensures Pow2(32 * n) == WORD_LIMIT
  {
    assert Pow2(n) == 256;
    hide Pow2;
    Squared(n, 256);
    Squared(2 * n, 0x1_0000);
    Squared(4 * n, 0x1_0000_0000);
    Squared(8 * n, 0x1_0000000000000000);
    Squared(16 * n, 0x1_0000000000000000_0000000000000000);
  }

  lemma Squared(a: nat, v: nat)
    requires Pow2(a) == v
    ensures Pow2(2 * a) == v * v
  {
    hide Pow2;
    Doubling(a, a);
  }

  lemma {:induction false} Doubling(a: nat, b: nat)
    ensures Pow2(a + b) == Pow2(a) * Pow2(b)
  {
    if a > 0 {
      Doubling(a - 1, b);
    }
  }

  /** The masked round-up reserves a multiple of 32 that covers the length word and the code, with less than a word
      to spare. */
  lemma ReservedBounds(size: nat)
    requires size + 63 < WORD_LIMIT
    ensures Reserved(size) % 32 == 0
    ensures size + 32 <= Reserved(size) < size + 64
  {
    hide And, Not;
    assert Add(Add(size, 0x20), 0x1f) == size + 63;
    MaskDropsLowBits(size + 63);
  }

  /** The reservation covers the length word and the code iff the sums in it do not overflow 256 bits. */
  lemma ReservedCoversExactly(size: nat)
    requires size < WORD_LIMIT
    ensures size + 32 <= Reserved(size) <==> size + 63 < WORD_LIMIT
  {
    hide And, Not;
    var sum := Add(Add(size, 0x20), 0x1f);
    if size + 63 < WORD_LIMIT {
      ReservedBounds(size);
    } else {
      assert sum == size + 63 - WORD_LIMIT;
      MaskDropsLowBits(sum);
    }
  }

  lemma MaskDropsLowBits(x: nat)
    requires x < WORD_LIMIT
    ensures And(x, Not(0x1f)) == x - x % 32
  {
    var bits := 8;
    WordLimitIsPow2(bits);
    assert Pow2(5) == 32;
    AndDropsLowBits(x, 32 * bits, 5);
  }

  /** A `bytes` value at ptr: its length word, then its bytes. */
  ghost predicate Blob(m: Cells, ptr: nat, code: Bytes) {
    MLoad(m, ptr) == |code| && Read(m, ptr + 32, |code|) == code
  }

  lemma BlobSame(m: Cells, m': Cells, ptr: nat, code: Bytes)
    requires Blob(m, ptr, code) && Same(m, m', ptr, ptr + 32 + |code|)
    ensures Blob(m', ptr, code)
  {
    LoadSame(m, m', ptr);
    assert Read(m', ptr + 32, |code|) == Read(m, ptr + 32, |code|);
  }

  /** Where the i-th blob of a batch starts when the first one starts at base. */
  function Start(base: nat, codes: seq<Bytes>, i: nat): nat
    requires i <= |codes|
  {
    if i == 0 then base else Start(base, codes, i - 1) + Reserved(|codes[i - 1]|)
  }

  ghost predicate NoOverflow(base: nat, codes: seq<Bytes>) {
    && Start(base, codes, |codes|) < WORD_LIMIT
    && forall i :: 0 <= i < |codes| ==> |codes[i]| + 63 < WORD_LIMIT
  }

  lemma {:induction false} StartsApart(base: nat, codes: seq<Bytes>, i: nat, j: nat)
    requires i <= j <= |codes| && NoOverflow(base, codes) && base % 32 == 0
    ensures Start(base, codes, i) % 32 == 0
    ensures Start(base, codes, i) <= Start(base, codes, j)
    ensures i < j ==> Start(base, codes, i) + 32 + |codes[i]| <= Start(base, codes, j)
    decreases i + j
  {
    hide And, Reserved, FromBytes, ToBytes;
    if i < j {
      StartsApart(base, codes, i, j - 1);
      ReservedBounds(|codes[j - 1]|);
    } else if i > 0 {
      StartsApart(base, codes, i - 1, i - 1);
      ReservedBounds(|codes[i - 1]|);
    }
  }

  function Slot(arr: nat, i: nat): nat { arr + 32 + 32 * i }

  /** The first `done` slots of the array at arr point at the blobs of the first `done` codes. */
  ghost predicate Layout(m: Cells, arr: nat, codes: seq<Bytes>, done: nat)
    requires done <= |codes|
  {
    && MLoad(m, arr) == |codes|
    && forall i {:trigger Slot(arr, i)} :: 0 <= i < done ==>
                                MLoad(m, Slot(arr, i)) == Start(Slot(arr, |codes|), codes, i)
                                && Blob(m, Start(Slot(arr, |codes|), codes, i), codes[i])
  }

  lemma LayoutSame(m: Cells, m': Cells, arr: nat, codes: seq<Bytes>, done: nat)
    requires done <= |codes| && arr % 32 == 0
    requires Layout(m, arr, codes, done) && NoOverflow(Slot(arr, |codes|), codes)
    requires Same(m, m', arr, Slot(arr, done)) || Same(m, m', arr, Start(Slot(arr, |codes|), codes, done))
    requires Same(m, m', Slot(arr, |codes|), Start(Slot(arr, |codes|), codes, done))
    ensures Layout(m', arr, codes, done)
  {
    hide And, Reserved, FromBytes, ToBytes;
    var base := Slot(arr, |codes|);
    StartsApart(base, codes, 0, done);
    assert Same(m, m', arr, Slot(arr, done));
    LoadSame(m, m', arr);
    forall i {:trigger Slot(arr, i)} | 0 <= i < done
      ensures MLoad(m', Slot(arr, i)) == Start(base, codes, i) && Blob(m', Start(base, codes, i), codes[i])
    {
      LoadSame(m, m', Slot(arr, i));
      StartsApart(base, codes, 0, i);
      StartsApart(base, codes, i, done);
      BlobSame(m, m', Start(base, codes, i), codes[i]);
    }
  }

  lemma LayoutNext(m: Cells, ptr: nat, arr: nat, codes: seq<Bytes>, done: nat)
    requires done < |codes| && arr % 32 == 0 && NoOverflow(Slot(arr, |codes|), codes)
    requires Layout(m, arr, codes, done)
    requires ptr == Start(Slot(arr, |codes|), codes, done) < WORD_LIMIT && Blob(m, ptr, codes[done])
    ensures Layout(MStore(m, Slot(arr, done), ptr), arr, codes, done + 1)
  {
    hide And, Reserved, FromBytes, ToBytes, MLoad, MStore, Read, Layout, Blob;
    var slot := Slot(arr, done);
    var m' := MStore(m, slot, ptr);
    StoreTouchesOneWord(m, slot, ptr);
    StartsApart(Slot(arr, |codes|), codes, 0, done);
    LayoutSame(m, m', arr, codes, done);
    BlobSame(m, m', ptr, codes[done]);
    LoadAfterStore(m, slot, ptr);
    hide *;
    LayoutExtend(m', ptr, arr, codes, done);
  }

  lemma LayoutExtend(m: Cells, ptr: nat, arr: nat, codes: seq<Bytes>, done: nat)
    requires done < |codes| && Layout(m, arr, codes, done)
    requires MLoad(m, Slot(arr, done)) == ptr == Start(Slot(arr, |codes|), codes, done) && Blob(m, ptr, codes[done])
    ensures Layout(m, arr, codes, done + 1)
  {
    hide And, Reserved, MLoad, Read, Start, Slot, Blob;
  }

  /** A finished layout: the slots point, in order, at the codes, aligned and apart. */
  lemma LayoutMeans(m: Cells, arr: nat, codes: seq<Bytes>)
    requires Layout(m, arr, codes, |codes|) && arr % 32 == 0 && NoOverflow(Slot(arr, |codes|), codes)
    ensures forall i {:trigger Slot(arr, i)} :: 0 <= i < |codes| ==> Blob(m, MLoad(m, Slot(arr, i)), codes[i])
    ensures forall i {:trigger Slot(arr, i)} :: 0 <= i < |codes| ==> MLoad(m, Slot(arr, i)) % 32 == 0
    ensures forall i, j {:trigger Slot(arr, i), Slot(arr, j)} :: 0 <= i < j < |codes| ==>
              MLoad(m, Slot(arr, i)) + 32 + |codes[i]| <= MLoad(m, Slot(arr, j))
  {
    hide And, Reserved, Read, FromBytes, Blob, NoOverflow;
    var base := Slot(arr, |codes|);
    forall i {:trigger Slot(arr, i)} | 0 <= i < |codes|
      ensures MLoad(m, Slot(arr, i)) % 32 == 0
    {
      StartsApart(base, codes, i, |codes|);
    }
    forall i, j {:trigger Slot(arr, i), Slot(arr, j)} | 0 <= i < j < |codes|
      ensures MLoad(m, Slot(arr, i)) + 32 + |codes[i]| <= MLoad(m, Slot(arr, j))
    {
      StartsApart(base, codes, i, j);
    }
  }

  lemma StoreTouchesOneWord(m: Cells, a: nat, v: nat)
    ensures forall i :: (0 <= i < a || i >= a + 32) ==> MStore(m, a, v)(i) == m(i)
  {
  }

  class Memory {
    var cells: Cells

    ghost predicate Ready()
      reads this
    {
      MLoad(cells, FREE_POINTER) >= FIRST_FREE && MLoad(cells, FREE_POINTER) % 32 == 0
    }

    constructor ()
      ensures Ready()
    {
      cells := MStore((i: nat) => 0, FREE_POINTER, FIRST_FREE);
      new;
      LoadAfterStore((i: nat) => 0, FREE_POINTER, FIRST_FREE);
    }

    /** `getCode`: the code of the target is placed at the free pointer, nothing already allocated moves. */
    method GetCode(code: Bytes) returns (ptr: nat)
      requires Ready()
      requires |code| + 63 < WORD_LIMIT && MLoad(cells, FREE_POINTER) + Reserved(|code|) < WORD_LIMIT
      modifies this
      ensures Ready()
      ensures ptr == old(MLoad(cells, FREE_POINTER))
      ensures MLoad(cells, FREE_POINTER) == ptr + Reserved(|code|)
      ensures Blob(cells, ptr, code)
      ensures Same(old(cells), cells, FREE_POINTER + 32, ptr)
    {
      hide And, Reserved, FromBytes, ToBytes;
      var size := |code|;
      ReservedBounds(size);
      ptr := MLoad(cells, FREE_POINTER);
      var free := Add(ptr, Reserved(size));
      cells := MStore(cells, FREE_POINTER, free);
      LoadAfterStore(old(cells), FREE_POINTER, free);
      ghost var bumped := cells;
      cells := MStore(cells, ptr, size);
      LoadAfterStore(bumped, ptr, size);
      ghost var sized := cells;
      cells := Write(cells, ptr + 32, code);
      LoadSame(bumped, cells, FREE_POINTER);
      LoadSame(sized, cells, ptr);
    }

    /** `getBatchGetCode`: the returned array holds, in order, pointers to blobs that decode to exactly the
        codes; the blobs are aligned and occupy disjoint ranges. */
    method GetBatchGetCode(codes: seq<Bytes>) returns (arr: nat)
      requires Ready()
      requires NoOverflow(Slot(MLoad(cells, FREE_POINTER), |codes|), codes)
      modifies this
      ensures Ready()
      ensures arr == old(MLoad(cells, FREE_POINTER))
      ensures MLoad(cells, arr) == |codes|
      ensures forall i {:trigger Slot(arr, i)} :: 0 <= i < |codes| ==> Blob(cells, MLoad(cells, Slot(arr, i)), codes[i])
      ensures forall i {:trigger Slot(arr, i)} :: 0 <= i < |codes| ==> MLoad(cells, Slot(arr, i)) % 32 == 0
      ensures forall i, j {:trigger Slot(arr, i), Slot(arr, j)} :: 0 <= i < j < |codes| ==>
                MLoad(cells, Slot(arr, i)) + 32 + |codes[i]| <= MLoad(cells, Slot(arr, j))
      ensures Same(old(cells), cells, FREE_POINTER + 32, arr)
    {
      hide And, Reserved, FromBytes, ToBytes;
      arr := MLoad(cells, FREE_POINTER);
      ghost var base := Slot(arr, |codes|);
      StartsApart(base, codes, 0, |codes|);
      // code = new bytes[](n)
      cells := MStore(cells, FREE_POINTER, Slot(arr, |codes|));
      LoadAfterStore(old(cells), FREE_POINTER, base);
      ghost var bumped := cells;
      cells := MStore(cells, arr, |codes|);
      LoadAfterStore(bumped, arr, |codes|);
      LoadSame(bumped, cells, FREE_POINTER);
      for i := 0 to |codes|
        invariant Ready() && MLoad(cells, FREE_POINTER) == Start(base, codes, i)
        invariant Layout(cells, arr, codes, i)
        invariant Same(old(cells), cells, FREE_POINTER + 32, arr)
      {
        StartsApart(base, codes, 0, i);
        StartsApart(base, codes, i + 1, |codes|);
        ghost var before := cells;
        var ptr := GetCode(codes[i]);
        LayoutSame(before, cells, arr, codes, i);
        ghost var placed := cells;
        LayoutNext(cells, ptr, arr, codes, i);
        cells := MStore(cells, Slot(arr, i), ptr);
        LoadSame(placed, cells, FREE_POINTER);
      }
      LayoutMeans(cells, arr, codes);
    }
  }
}
