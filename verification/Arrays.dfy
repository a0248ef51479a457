/** The list helpers of libs/helper/src/array.ts, which every batched read and every crawl window uses. */
module Arrays {

  datatype Option<+T> = None | Some(value: T)

  function MapSeq<S, T>(f: S -> T, a: seq<S>): (r: seq<T>)
    ensures |r| == |a|
    ensures forall i :: 0 <= i < |a| ==> r[i] == f(a[i])
  {
    seq(|a|, i requires 0 <= i < |a| => f(a[i]))
  }

  function Filter<T>(p: T -> bool, a: seq<T>): seq<T> {
    if a == [] then [] else (if p(a[0]) then [a[0]] else []) + Filter(p, a[1..])
  }

  /** `array.flat()`: one level. */
  function Flat<T>(a: seq<seq<T>>): seq<T> {
    if a == [] then [] else a[0] + Flat(a[1..])
  }

  /** lodash `chunk`: consecutive pieces of `size`, the last one possibly shorter. */
  function Chunk<T>(a: seq<T>, size: nat): seq<seq<T>> {
    if size == 0 || a == [] then []
    else if |a| <= size then [a]
    else [a[..size]] + Chunk(a[size..], size)
  }

  /** lodash `zip`: the shorter list is padded with undefined. */
  function Zip<S, T>(a: seq<S>, b: seq<T>): (r: seq<(Option<S>, Option<T>)>)
    ensures |r| == if |a| < |b| then |b| else |a|
    ensures forall i :: 0 <= i < |r| ==>
                          r[i] == (if i < |a| then Some(a[i]) else None, if i < |b| then Some(b[i]) else None)
  {
    seq(if |a| < |b| then |b| else |a|,
        i requires 0 <= i => (if i < |a| then Some(a[i]) else None, if i < |b| then Some(b[i]) else None))
  }

  function FillSequenceNumber(number: nat, start: nat): (r: seq<nat>)
    ensures |r| == number
    ensures forall i :: 0 <= i < number ==> r[i] == start + i
  {
    seq(number, i requires 0 <= i => i + start)
  }

  /** `[...new Set(a)]`: first occurrences, in order. */
  function Unique<T(==)>(a: seq<T>): seq<T> {
    if a == [] then []
    else
      var front := Unique(a[..|a| - 1]);
      if a[|a| - 1] in front then front else front + [a[|a| - 1]]
  }

  ghost predicate Distinct<T>(a: seq<T>) {
    forall i, j :: 0 <= i < j < |a| ==> a[i] != a[j]
  }

  lemma {:induction false} UniqueIsSet<T>(a: seq<T>)
    ensures Distinct(Unique(a))
    ensures forall x :: x in Unique(a) <==> x in a
  {
    if a != [] {
      var init, last := a[..|a| - 1], a[|a| - 1];
      UniqueIsSet(init);
      assert a == init + [last];
    }
  }

  /** What comes later changes nothing: the first occurrences of a prefix come first, in the same order. */
  lemma {:induction false} UniqueKeepsFirsts<T>(a: seq<T>, n: nat)
    requires n <= |a|
    ensures Unique(a[..n]) <= Unique(a)
    decreases |a|
  {
    if n < |a| {
      UniqueKeepsFirsts(a[..|a| - 1], n);
      assert a[..|a| - 1][..n] == a[..n];
    } else {
      assert a[..n] == a;
    }
  }

  lemma {:induction false} FilterMembers<T>(p: T -> bool, a: seq<T>)
    ensures forall x :: x in Filter(p, a) <==> x in a && p(x)
    ensures Distinct(a) ==> Distinct(Filter(p, a))
  {
    if a != [] {
      FilterMembers(p, a[1..]);
      assert a == [a[0]] + a[1..];
    }
  }

  lemma {:induction false} FilterAppend<T>(p: T -> bool, a: seq<T>, b: seq<T>)
    ensures Filter(p, a + b) == Filter(p, a) + Filter(p, b)
  {
    if a == [] {
      assert a + b == b;
    } else {
      FilterAppend(p, a[1..], b);
      assert (a + b)[0] == a[0] && (a + b)[1..] == a[1..] + b;
      var first := if p(a[0]) then [a[0]] else [];
      assert Filter(p, a + b) == first + Filter(p, a[1..] + b);
      hide Filter;
    }
  }

  lemma {:induction false} FlatAppend<T>(a: seq<seq<T>>, b: seq<seq<T>>)
    ensures Flat(a + b) == Flat(a) + Flat(b)
  {
    if a == [] {
      assert a + b == b;
    } else {
      FlatAppend(a[1..], b);
      assert (a + b)[1..] == a[1..] + b;
    }
  }

  lemma FlatOne<T>(g: seq<T>)
    ensures Flat([g]) == g
  {
    assert [g][1..] == [] && Flat([g]) == g + Flat([g][1..]);
  }

  lemma FlatLast<T>(a: seq<seq<T>>)
    requires a != []
    ensures Flat(a) == Flat(a[..|a| - 1]) + a[|a| - 1]
  {
    var init, last := a[..|a| - 1], [a[|a| - 1]];
    FlatAppend(init, last);
    assert init + last == a;
    assert last[1..] == [];
    assert Flat(last) == last[0] + Flat(last[1..]);
  }

  lemma {:induction false} FlatMembers<T>(a: seq<seq<T>>)
    ensures forall x :: x in Flat(a) <==> exists i :: 0 <= i < |a| && x in a[i]
  {
    if a != [] {
      FlatMembers(a[1..]);
      forall x
        ensures x in Flat(a) <==> exists i :: 0 <= i < |a| && x in a[i]
      {
        if x in Flat(a[1..]) {
          var i :| 0 <= i < |a[1..]| && x in a[1..][i];
          assert x in a[i + 1];
        }
        if i :| 0 <= i < |a| && x in a[i] {
          if i > 0 {
            assert x in a[1..][i - 1];
          }
        }
      }
    }
  }

  /** Flattening a chunked list gives the list back. */
  lemma {:induction false} FlatOfChunk<T>(a: seq<T>, size: nat)
    requires size > 0
    ensures Flat(Chunk(a, size)) == a
    decreases |a|
  {
    if a != [] {
      if |a| <= size {
        assert Flat([a]) == a + Flat([][..]);
      } else {
        FlatOfChunk(a[size..], size);
        assert ([a[..size]] + Chunk(a[size..], size))[1..] == Chunk(a[size..], size);
        assert a[..size] + a[size..] == a;
      }
    }
  }

  /** Every piece is non-empty and at most `size` long, and there are ceil(|a| / size) of them. */
  lemma {:induction false} ChunkShape<T>(a: seq<T>, size: nat)
    requires size > 0
    ensures forall i :: 0 <= i < |Chunk(a, size)| ==> 1 <= |Chunk(a, size)[i]| <= size
    ensures forall i :: 0 <= i < |Chunk(a, size)| - 1 ==> |Chunk(a, size)[i]| == size
    ensures (|Chunk(a, size)| - 1) * size < |a| <= |Chunk(a, size)| * size || a == []
    decreases |a|
  {
    if |a| > size {
      ChunkShape(a[size..], size);
      assert (|Chunk(a, size)| - 1) * size == (|Chunk(a[size..], size)| - 1) * size + size;
    }
  }

  /** Chunking the flattening of equally long groups gives the groups back. */
  lemma {:induction false} ChunkOfFlat<T>(groups: seq<seq<T>>, k: nat)
    requires k > 0
    requires forall i :: 0 <= i < |groups| ==> |groups[i]| == k
    ensures Chunk(Flat(groups), k) == groups
  {
    if groups == [] {
    } else {
      var rest := groups[1..];
      ChunkOfFlat(rest, k);
      FlatLength(rest, k);
      var flat := Flat(groups);
      assert flat[k..] == Flat(rest) && flat[..k] == groups[0];
      if rest == [] {
        assert flat == groups[0];
        assert groups == [groups[0]];
      } else {
        assert groups == [groups[0]] + rest;
      }
    }
  }

  lemma {:induction false} FlatLength<T>(groups: seq<seq<T>>, k: nat)
    requires forall i :: 0 <= i < |groups| ==> |groups[i]| == k
    ensures |Flat(groups)| == |groups| * k
    ensures groups != [] && k > 0 ==> |Flat(groups)| >= k
  {
    if groups != [] {
      FlatLength(groups[1..], k);
      assert |groups| * k == (|groups| - 1) * k + k;
    }
  }

  lemma {:induction false} MapOfFlat<S, T>(f: S -> T, groups: seq<seq<S>>)
    ensures MapSeq(f, Flat(groups)) == Flat(MapSeq((g: seq<S>) => MapSeq(f, g), groups))
  {
    var each := (g: seq<S>) => MapSeq(f, g);
    if groups != [] {
      MapOfFlat(f, groups[1..]);
      assert MapSeq(each, groups)[1..] == MapSeq(each, groups[1..]);
      assert MapSeq(f, groups[0] + Flat(groups[1..])) == MapSeq(f, groups[0]) + MapSeq(f, Flat(groups[1..]));
    }
  }

  /** lodash `groupBy` on a numeric key: the keys of the object in the order `Object.keys` lists them. */
  function GroupKeys<T>(a: seq<T>, key: T -> nat): seq<nat> {
    if a == [] then [] else InsertKey(key(a[0]), GroupKeys(a[1..], key))
  }

  function InsertKey(k: nat, ks: seq<nat>): seq<nat> {
    if ks == [] || k < ks[0] then [k] + ks
    else if k == ks[0] then ks
    else [ks[0]] + InsertKey(k, ks[1..])
  }

  function Group<T>(a: seq<T>, key: T -> nat, k: nat): seq<T> {
    Filter(x => key(x) == k, a)
  }

  lemma GroupMembers<T>(a: seq<T>, key: T -> nat, k: nat)
    ensures forall x :: x in Group(a, key, k) <==> x in a && key(x) == k
  {
    FilterMembers(x => key(x) == k, a);
  }

  ghost predicate Ascending(ks: seq<nat>) {
    forall i, j :: 0 <= i < j < |ks| ==> ks[i] < ks[j]
  }

  lemma {:induction false} InsertKeyKeepsAscending(k: nat, ks: seq<nat>)
    requires Ascending(ks)
    ensures Ascending(InsertKey(k, ks))
    ensures forall x :: x in InsertKey(k, ks) <==> x == k || x in ks
  {
    if ks == [] || k < ks[0] {
    } else if k > ks[0] {
      var rest := InsertKey(k, ks[1..]);
      InsertKeyKeepsAscending(k, ks[1..]);
      assert ks == [ks[0]] + ks[1..];
      forall j | 0 <= j < |rest|
        ensures ks[0] < rest[j]
      {
        assert rest[j] == k || rest[j] in ks[1..];
      }
    }
  }

  lemma {:induction false} GroupKeysExact<T>(a: seq<T>, key: T -> nat)
    ensures Ascending(GroupKeys(a, key))
    ensures forall k :: k in GroupKeys(a, key) <==> exists i :: 0 <= i < |a| && key(a[i]) == k
  {
    if a != [] {
      GroupKeysExact(a[1..], key);
      InsertKeyKeepsAscending(key(a[0]), GroupKeys(a[1..], key));
      forall k
        ensures k in GroupKeys(a, key) <==> exists i :: 0 <= i < |a| && key(a[i]) == k
      {
        if k in GroupKeys(a[1..], key) {
          var i :| 0 <= i < |a[1..]| && key(a[1..][i]) == k;
          assert key(a[i + 1]) == k;
        }
        if i :| 0 <= i < |a| && key(a[i]) == k {
          if i > 0 {
            assert key(a[1..][i - 1]) == k;
          }
        }
      }
    }
  }

  lemma {:induction false} FilterCount<T>(p: T -> bool, a: seq<T>, x: T)
    ensures multiset(Filter(p, a))[x] == if p(x) then multiset(a)[x] else 0
  {
    if a != [] {
      FilterCount(p, a[1..], x);
      assert a == [a[0]] + a[1..];
    }
  }

  function Groups<T>(a: seq<T>, key: T -> nat, ks: seq<nat>): (r: seq<seq<T>>)
    ensures |r| == |ks| && forall i :: 0 <= i < |ks| ==> r[i] == Group(a, key, ks[i])
  {
    seq(|ks|, i requires 0 <= i < |ks| => Group(a, key, ks[i]))
  }

  lemma {:induction false} GroupsCount<T>(a: seq<T>, key: T -> nat, ks: seq<nat>, x: T)
    requires Ascending(ks)
    ensures multiset(Flat(Groups(a, key, ks)))[x] == if key(x) in ks then multiset(a)[x] else 0
  {
    if ks != [] {
      GroupsCount(a, key, ks[1..], x);
      assert Groups(a, key, ks)[1..] == Groups(a, key, ks[1..]);
      FilterCount(y => key(y) == ks[0], a, x);
      assert ks == [ks[0]] + ks[1..];
    }
  }

  /** Grouping and flattening the groups again keeps every element with its multiplicity. */
  lemma {:induction false} GroupsPartition<T(!new)>(a: seq<T>, key: T -> nat)
    ensures multiset(Flat(Groups(a, key, GroupKeys(a, key)))) == multiset(a)
  {
    GroupKeysExact(a, key);
    var all, grouped := multiset(a), multiset(Flat(Groups(a, key, GroupKeys(a, key))));
    forall x
      ensures grouped[x] == all[x]
    {
      GroupsCount(a, key, GroupKeys(a, key), x);
      if x in a {
        var i :| 0 <= i < |a| && a[i] == x;
        assert key(a[i]) in GroupKeys(a, key);
      }
    }
    assert grouped == all;
  }
}
