/** The record-collection operations every page re-implements inline:
    `Array.prototype.filter` behind each search box and each delete button,
    `Array.prototype.map` behind each update-by-id, and the
    `id = length + 1` convention of each add dialog. */
module Collections {

  /** `a` is obtained from `b` by dropping elements, keeping their order. */
  ghost predicate Subsequence<T>(a: seq<T>, b: seq<T>)
    decreases |b|
  {
    |a| == 0 || (|b| > 0 && ((a[0] == b[0] && Subsequence(a[1..], b[1..])) || Subsequence(a, b[1..])))
  }

  /** Model of `s.filter(p)`. The result is the order-preserving subsequence
      of `s` holding exactly the elements satisfying `p`, each with its
      original multiplicity. */
  function Filter<T(==,!new)>(s: seq<T>, p: T -> bool): (r: seq<T>)
    ensures Subsequence(r, s)
    ensures forall i :: 0 <= i < |r| ==> p(r[i])
    ensures forall x :: multiset(r)[x] == if p(x) then multiset(s)[x] else 0
    ensures forall x :: x in r <==> x in s && p(x)
    ensures (forall i :: 0 <= i < |s| ==> p(s[i])) ==> r == s
  {
    if |s| == 0 then []
    else
      assert s == [s[0]] + s[1..];
      var rest := Filter(s[1..], p);
      if p(s[0]) then
        assert ([s[0]] + rest)[1..] == rest;
        [s[0]] + rest
      else
        rest
  }

  /** Filtering distributes over concatenation. */
  lemma {:induction false} FilterAppend<T(!new)>(s: seq<T>, t: seq<T>, p: T -> bool)
    ensures Filter(s + t, p) == Filter(s, p) + Filter(t, p)
  {
    if |s| == 0 {
      assert s + t == t;
    } else {
      assert (s + t)[1..] == s[1..] + t;
      FilterAppend(s[1..], t, p);
    }
  }

  /** When exactly one position satisfies `p`, the filter yields that
      element alone. */
  lemma {:induction false} FilterSingleHit<T(!new)>(s: seq<T>, p: T -> bool, k: int)
    requires 0 <= k < |s| && p(s[k])
    requires forall i :: 0 <= i < |s| && i != k ==> !p(s[i])
    ensures Filter(s, p) == [s[k]]
    decreases k
  {
    if k == 0 {
      var rest := Filter(s[1..], p);
      assert forall i :: 0 <= i < |s| - 1 ==> !p(s[1..][i]);
    } else {
      assert !p(s[0]);
      FilterSingleHit(s[1..], p, k - 1);
    }
  }

  /** Filtering twice with the same predicate is filtering once. */
  lemma FilterIdempotent<T(!new)>(s: seq<T>, p: T -> bool)
    ensures Filter(Filter(s, p), p) == Filter(s, p)
  {
  }

  /** No element of `s` has key `id`. */
  ghost predicate KeyAbsent<T, K>(s: seq<T>, key: T -> K, id: K)
  {
    forall i :: 0 <= i < |s| ==> key(s[i]) != id
  }

  /** Model of `s.filter(x => x.id !== id)`, the delete handler of every page. */
  function RemoveById<T(==,!new), K(==)>(s: seq<T>, key: T -> K, id: K): (r: seq<T>)
    ensures Subsequence(r, s)
    ensures KeyAbsent(r, key, id)
    ensures forall x :: multiset(r)[x] == if key(x) != id then multiset(s)[x] else 0
    ensures KeyAbsent(s, key, id) ==> r == s
  {
    Filter(s, x => key(x) != id)
  }

  /** Deleting the same id twice is deleting it once. */
  lemma RemoveByIdIdempotent<T(!new), K>(s: seq<T>, key: T -> K, id: K)
    ensures RemoveById(RemoveById(s, key, id), key, id) == RemoveById(s, key, id)
  {
  }

  /** Deleting distributes over concatenation. */
  lemma RemoveByIdAppend<T(!new), K>(s: seq<T>, t: seq<T>, key: T -> K, id: K)
    ensures RemoveById(s + t, key, id) == RemoveById(s, key, id) + RemoveById(t, key, id)
  {
    FilterAppend(s, t, x => key(x) != id);
  }

  /** Appending a record whose id was absent and then deleting that id gives
      back the original sequence. */
  lemma RemoveAppended<T(!new), K>(s: seq<T>, x: T, key: T -> K)
    requires KeyAbsent(s, key, key(x))
    ensures RemoveById(s + [x], key, key(x)) == s
  {
    RemoveByIdAppend(s, [x], key, key(x));
  }

  /** With unique ids, the id at position `k` occurs nowhere else. */
  lemma UniqueIdOnlyAt<T>(s: seq<T>, key: T -> int, k: int)
    requires 0 <= k < |s|
    requires UniqueIds(s, key)
    ensures KeyAbsent(s[..k], key, key(s[k]))
    ensures KeyAbsent(s[k + 1..], key, key(s[k]))
  {
    var post := s[k + 1..];
    forall i | 0 <= i < |post| ensures key(post[i]) != key(s[k]) {
      assert post[i] == s[k + 1 + i];
    }
  }

  /** Deleting an id held by exactly one record removes that record and
      nothing else. */
  lemma RemoveUniqueAt<T(!new)>(s: seq<T>, key: T -> int, k: int)
    requires 0 <= k < |s|
    requires UniqueIds(s, key)
    ensures RemoveById(s, key, key(s[k])) == s[..k] + s[k + 1..]
  {
    var id := key(s[k]);
    var pre, post := s[..k], s[k + 1..];
    UniqueIdOnlyAt(s, key, k);
    assert s == pre + ([s[k]] + post);
    RemoveByIdAppend(pre, [s[k]] + post, key, id);
    RemoveByIdAppend([s[k]], post, key, id);
    assert RemoveById([s[k]], key, id) == [];
  }

  /** Model of `s.map(x => x.id === id ? f(x) : x)`: each record with key
      `id` is replaced by `f` of it, every other record stays where it was. */
  function UpdateById<T, K(==)>(s: seq<T>, key: T -> K, id: K, f: T -> T): (r: seq<T>)
    ensures |r| == |s|
    ensures forall i :: 0 <= i < |s| && key(s[i]) != id ==> r[i] == s[i]
    ensures forall i :: 0 <= i < |s| && key(s[i]) == id ==> r[i] == f(s[i])
  {
    if |s| == 0 then []
    else [if key(s[0]) == id then f(s[0]) else s[0]] + UpdateById(s[1..], key, id, f)
  }

  /** An update of an id that is not present changes nothing. */
  lemma UpdateAbsent<T, K>(s: seq<T>, key: T -> K, id: K, f: T -> T)
    requires KeyAbsent(s, key, id)
    ensures UpdateById(s, key, id, f) == s
  {
  }

  /** Two sequences that differ only at records with key `id` (and keep that
      key there) agree once `id` is deleted from both. */
  lemma {:induction false} RemoveByIdIgnoresUpdated<T(!new), K>(a: seq<T>, s: seq<T>, key: T -> K, id: K)
    requires |a| == |s|
    requires forall i :: 0 <= i < |s| && key(s[i]) != id ==> a[i] == s[i]
    requires forall i :: 0 <= i < |s| && key(s[i]) == id ==> key(a[i]) == id
    ensures RemoveById(a, key, id) == RemoveById(s, key, id)
  {
    if |s| > 0 {
      RemoveByIdIgnoresUpdated(a[1..], s[1..], key, id);
      assert RemoveById(a[1..], key, id) == RemoveById(s[1..], key, id);
      if key(s[0]) == id {
        assert key(a[0]) == id;
      } else {
        assert a[0] == s[0];
      }
    }
  }

  /** The id-by-count convention stays collision-free only while the ids are
      exactly 1, 2, ..., n in position order. */
  ghost predicate IdsAreOneToN<T>(s: seq<T>, key: T -> int)
  {
    forall i :: 0 <= i < |s| ==> key(s[i]) == i + 1
  }

  /** No two records share an id. */
  ghost predicate UniqueIds<T, K>(s: seq<T>, key: T -> K)
  {
    forall i, j :: 0 <= i < j < |s| ==> key(s[i]) != key(s[j])
  }

  /** With ids 1..n, `length + 1` is fresh, the ids stay unique, and
      appending a record with that id keeps the ids 1..n+1. */
  lemma NextIdFresh<T>(s: seq<T>, key: T -> int, x: T)
    requires IdsAreOneToN(s, key)
    requires key(x) == |s| + 1
    ensures UniqueIds(s, key)
    ensures KeyAbsent(s, key, |s| + 1)
    ensures IdsAreOneToN(s + [x], key)
    ensures UniqueIds(s + [x], key)
  {
  }

  /** Ids 1..n in position order are pairwise distinct. */
  lemma OneToNUnique<T>(s: seq<T>, key: T -> int)
    requires IdsAreOneToN(s, key)
    ensures UniqueIds(s, key)
  {
  }

  /** Appending a record with the same id as the last one breaks uniqueness. */
  lemma AppendDuplicate<T>(r: seq<T>, x: T, key: T -> int)
    requires |r| > 0 && key(r[|r| - 1]) == key(x)
    ensures !UniqueIds(r + [x], key)
  {
    var t := r + [x];
    assert t[|r| - 1] == r[|r| - 1] && t[|r|] == x;
  }

  /** The flaw of the id-by-count convention: with ids 1..n, deleting any
      id but the last and then appending a record with id `length + 1`
      duplicates the last id. */
  lemma DeleteThenAppendCollides<T(!new)>(s: seq<T>, key: T -> int, id: int, x: T)
    requires IdsAreOneToN(s, key)
    requires 1 <= id < |s|
    requires key(x) == |RemoveById(s, key, id)| + 1
    ensures !UniqueIds(RemoveById(s, key, id) + [x], key)
  {
    OneToNUnique(s, key);
    assert key(s[id - 1]) == id;
    RemoveUniqueAt(s, key, id - 1);
    var r := RemoveById(s, key, id);
    assert r == s[..id - 1] + s[id..];
    assert r[|r| - 1] == s[|s| - 1];
    AppendDuplicate(r, x, key);
  }
}
