/** The analyser's bucket maps (`defaultdict(list)` from a key to a list of paths) as
    association lists: Python dictionaries keep their keys in insertion order, and the
    analyser's results depend on that order. */
module Buckets {
  import opened Wrappers
  import opened Text
  import opened Paths

  datatype Bucket<K> = Bucket(key: K, paths: seq<Path>)

  type Buckets<K> = seq<Bucket<K>>

  function Keys<K>(b: Buckets<K>): (ks: seq<K>)
    ensures |ks| == |b| && forall i :: 0 <= i < |b| ==> ks[i] == b[i].key
  {
    seq(|b|, i requires 0 <= i < |b| => b[i].key)
  }

  /** A dictionary has each key once. */
  ghost predicate UniqueKeys<K>(b: Buckets<K>)
  {
    forall i, j :: 0 <= i < j < |b| ==> b[i].key != b[j].key
  }

  /** `d[k]` of a `defaultdict(list)` that is only read: the list under `k`, or []. */
  function Lookup<K(==)>(b: Buckets<K>, k: K): (r: seq<Path>)
    ensures k !in Keys(b) ==> r == []
    ensures UniqueKeys(b) ==> forall i :: 0 <= i < |b| && b[i].key == k ==> r == b[i].paths
  {
    if b == [] then []
    else if b[0].key == k then b[0].paths
    else Lookup(b[1..], k)
  }

  lemma KeysCons<K>(x: Bucket<K>, b: Buckets<K>)
    ensures Keys([x] + b) == [x.key] + Keys(b)
  {
    var l, r := Keys([x] + b), [x.key] + Keys(b);
    forall i | 0 <= i < |l| ensures l[i] == r[i] {
      if i > 0 {
        assert ([x] + b)[i] == b[i - 1];
      }
    }
  }

  /** `d[k].append(p)` on a `defaultdict(list)`: a missing key is added at the end. */
  function Append<K(==)>(b: Buckets<K>, k: K, p: Path): (r: Buckets<K>)
    ensures Keys(r) == if k in Keys(b) then Keys(b) else Keys(b) + [k]
    ensures UniqueKeys(b) ==> UniqueKeys(r)
  {
    if b == [] then [Bucket(k, [p])]
    else
      assert b == [b[0]] + b[1..];
      KeysCons(b[0], b[1..]);
      if b[0].key == k then
        var x := Bucket(k, b[0].paths + [p]);
        KeysCons(x, b[1..]);
        assert UniqueKeys(b) ==> UniqueKeys([x] + b[1..]) by {
          UniqueCons(b[0], b[1..]);
          UniqueCons(x, b[1..]);
        }
        [x] + b[1..]
      else
        var rest := Append(b[1..], k, p);
        KeysCons(b[0], rest);
        assert UniqueKeys(b) ==> UniqueKeys([b[0]] + rest) by {
          UniqueCons(b[0], b[1..]);
          UniqueCons(b[0], rest);
        }
        [b[0]] + rest
  }

  /** A list of buckets has unique keys exactly when its tail has and its head's key is
      not among the tail's. */
  lemma UniqueCons<K>(x: Bucket<K>, b: Buckets<K>)
    ensures UniqueKeys([x] + b) <==> UniqueKeys(b) && x.key !in Keys(b)
  {
    var l := [x] + b;
    if UniqueKeys(b) && x.key !in Keys(b) {
      forall i, j | 0 <= i < j < |l| ensures l[i].key != l[j].key {
        assert l[j] == b[j - 1];
        if i > 0 {
          assert l[i] == b[i - 1];
        } else {
          assert Keys(b)[j - 1] == b[j - 1].key;
        }
      }
    }
    if UniqueKeys(l) {
      forall i, j | 0 <= i < j < |b| ensures b[i].key != b[j].key {
        assert l[i + 1] == b[i] && l[j + 1] == b[j];
      }
      forall j | 0 <= j < |b| ensures Keys(b)[j] != x.key {
        assert l[0] == x && l[j + 1] == b[j];
        assert l[0].key != l[j + 1].key;
      }
    }
  }

  /** Appending leaves no empty list behind: every list is the new one, non-empty, or an
      old one where it was. */
  lemma {:induction false} AppendNonEmpty<K>(b: Buckets<K>, k: K, p: Path)
    ensures var r := Append(b, k, p);
      forall i :: 0 <= i < |r| ==> r[i].paths != [] || (i < |b| && r[i] == b[i])
  {
    if b != [] && b[0].key != k {
      AppendNonEmpty(b[1..], k, p);
      var r := Append(b, k, p);
      assert r == [b[0]] + Append(b[1..], k, p);
    }
  }

  /** After the append, the list under `k` has gained `p` at its end and every other list
      is as it was. */
  lemma {:induction false} AppendLookup<K>(b: Buckets<K>, k: K, p: Path, k': K)
    ensures Lookup(Append(b, k, p), k') == if k' == k then Lookup(b, k) + [p] else Lookup(b, k')
  {
    if b != [] && b[0].key != k {
      AppendLookup(b[1..], k, p, k');
    }
  }

  /** Two bucket lists with the same keys in the same order have unique keys alike. */
  lemma SameKeysUnique<K>(a: Buckets<K>, b: Buckets<K>)
    requires Keys(a) == Keys(b)
    ensures UniqueKeys(a) <==> UniqueKeys(b)
  {
    assert forall i :: 0 <= i < |a| ==> a[i].key == Keys(a)[i] && b[i].key == Keys(b)[i];
  }

  /** The number of paths held by all buckets together. */
  function Total<K>(b: Buckets<K>): nat
  {
    if b == [] then 0 else |b[0].paths| + Total(b[1..])
  }

  /** Each append files exactly one more path. */
  lemma {:induction false} AppendTotal<K>(b: Buckets<K>, k: K, p: Path)
    ensures Total(Append(b, k, p)) == Total(b) + 1
  {
    if b != [] && b[0].key != k {
      AppendTotal(b[1..], k, p);
      assert Append(b, k, p)[1..] == Append(b[1..], k, p);
    } else if b != [] {
      assert Append(b, k, p)[1..] == b[1..];
    }
  }

  /** The position of the first occurrence of `x`, which `list.remove(x)` takes out. */
  function FirstIndex(s: seq<Path>, x: Path): (i: nat)
    requires x in s
    ensures i < |s| && s[i] == x && x !in s[..i]
  {
    if s[0] == x then 0
    else
      assert x in s[1..];
      var j := FirstIndex(s[1..], x);
      assert s[..j + 1] == [s[0]] + s[1..][..j];
      j + 1
  }

  /** `list.remove(x)` when `x` is in the list, and the list itself otherwise (the source
      always tests `x in list` first). */
  function RemoveFirst(s: seq<Path>, x: Path): (r: seq<Path>)
    ensures multiset(r) == multiset(s) - multiset{x}
    ensures x in s ==> |r| == |s| - 1
    ensures x !in s ==> r == s
  {
    if s == [] then []
    else if s[0] == x then
      assert s == [s[0]] + s[1..];
      s[1..]
    else
      assert s == [s[0]] + s[1..];
      [s[0]] + RemoveFirst(s[1..], x)
  }

  /** It is the first occurrence that goes, and the other paths keep their order. */
  lemma {:induction false} RemoveFirstOccurrence(s: seq<Path>, x: Path)
    requires x in s
    ensures RemoveFirst(s, x) == s[..FirstIndex(s, x)] + s[FirstIndex(s, x) + 1..]
  {
    if s[0] != x {
      var t := s[1..];
      assert x in t;
      RemoveFirstOccurrence(t, x);
      var j := FirstIndex(t, x);
      assert FirstIndex(s, x) == j + 1;
      assert RemoveFirst(s, x) == [s[0]] + RemoveFirst(t, x);
      DropAfterHead(s, j);
    }
  }

  lemma DropAfterHead(s: seq<Path>, j: nat)
    requires j + 1 < |s|
    ensures [s[0]] + (s[1..][..j] + s[1..][j + 1..]) == s[..j + 1] + s[j + 2..]
  {
    assert s[..j + 1] == [s[0]] + s[1..][..j];
    assert s[j + 2..] == s[1..][j + 1..];
  }

  /** The removal loops of `remove_file`: every list loses its first occurrence of `p`. */
  function RemoveFromAll<K>(b: Buckets<K>, p: Path): (r: Buckets<K>)
    ensures Keys(r) == Keys(b)
    ensures forall i :: 0 <= i < |b| ==> multiset(r[i].paths) == multiset(b[i].paths) - multiset{p}
    ensures forall i :: 0 <= i < |b| && p !in b[i].paths ==> r[i] == b[i]
    ensures forall i :: 0 <= i < |b| && p in b[i].paths ==> |r[i].paths| == |b[i].paths| - 1
  {
    seq(|b|, i requires 0 <= i < |b| => Bucket(b[i].key, RemoveFirst(b[i].paths, p)))
  }

  /** The loops of `update_file_path`: a list holding `src` loses its first `src` and gets
      `dst` appended at its end; other lists are untouched. */
  function RenameInAll<K>(b: Buckets<K>, src: Path, dst: Path): (r: Buckets<K>)
    ensures Keys(r) == Keys(b)
    ensures forall i :: 0 <= i < |b| && src in b[i].paths ==>
      multiset(r[i].paths) == multiset(b[i].paths) - multiset{src} + multiset{dst} &&
      |r[i].paths| == |b[i].paths| && r[i].paths[|r[i].paths| - 1] == dst
    ensures forall i :: 0 <= i < |b| && src !in b[i].paths ==> r[i] == b[i]
  {
    seq(|b|, i requires 0 <= i < |b| =>
      if src in b[i].paths then Bucket(b[i].key, RemoveFirst(b[i].paths, src) + [dst]) else b[i])
  }

  /** The round trip on one list. */
  lemma ListRoundTrip(s: seq<Path>, src: Path, dst: Path)
    requires dst !in s
    ensures var m := if src in s then RemoveFirst(s, src) + [dst] else s;
      multiset(if dst in m then RemoveFirst(m, dst) + [src] else m) == multiset(s)
  {
    if src in s {
      var m := RemoveFirst(s, src) + [dst];
      assert dst in m;
      assert src in multiset(s);
    }
  }

  /** Renaming `src` to `dst` and back gives every list its former contents, as a multiset,
      provided no list held `dst` before. */
  lemma RenameRoundTrip<K>(b: Buckets<K>, src: Path, dst: Path)
    requires forall i :: 0 <= i < |b| ==> dst !in b[i].paths
    ensures var r := RenameInAll(RenameInAll(b, src, dst), dst, src);
      Keys(r) == Keys(b) &&
      forall i :: 0 <= i < |b| ==> multiset(r[i].paths) == multiset(b[i].paths)
  {
    var m := RenameInAll(b, src, dst);
    var r := RenameInAll(m, dst, src);
    forall i | 0 <= i < |b| ensures multiset(r[i].paths) == multiset(b[i].paths) {
      ListRoundTrip(b[i].paths, src, dst);
    }
  }

  /** The round trip restores contents but not order: the renamed path moves to the end. */
  lemma RenameRoundTripReorders(a: Path, b: Path, c: Path)
    requires a != b && a != c && b != c
    ensures RenameInAll(RenameInAll([Bucket("k", [a, b])], a, c), c, a) == [Bucket("k", [b, a])]
  {
    var once := RenameInAll([Bucket("k", [a, b])], a, c);
    assert RemoveFirst([a, b], a) == [b];
    assert |once| == 1 && once[0] == Bucket("k", [b, c]);
    assert RemoveFirst([b, c], c) == [b] by {
      assert [b, c][1..] == [c];
      assert RemoveFirst([c], c) == [];
    }
    var twice := RenameInAll(once, c, a);
    assert c in once[0].paths;
    assert twice[0] == Bucket("k", RemoveFirst([b, c], c) + [a]);
    assert |twice| == 1 && twice[0] == Bucket("k", [b, a]);
  }

  /** The dictionary comprehension `{k: v for k, v in d.items() if v}`. */
  function Prune<K(!new)>(b: Buckets<K>): (r: Buckets<K>)
    ensures forall x :: x in r <==> x in b && x.paths != []
    ensures UniqueKeys(b) ==> UniqueKeys(r)
  {
    if b == [] then []
    else
      var rest := Prune(b[1..]);
      if b[0].paths == [] then rest else [b[0]] + rest
  }

  /** Dropping the empty lists keeps the order of the lists that stay: a list added at the
      end of the map lands, when non-empty, after every list kept before it. */
  lemma {:induction false} PruneKeepsOrder<K(!new)>(b: Buckets<K>, x: Bucket<K>)
    ensures Prune(b + [x]) == Prune(b) + (if x.paths == [] then [] else [x])
  {
    if b != [] {
      var t, bx := b[1..], b + [x];
      assert bx[0] == b[0] && bx[1..] == t + [x];
      PruneKeepsOrder(t, x);
      PruneHead(b);
      PruneHead(bx);
      var head := if b[0].paths == [] then [] else [b[0]];
      var tail := if x.paths == [] then [] else [x];
      assert head + (Prune(t) + tail) == (head + Prune(t)) + tail;
    }
  }

  lemma PruneHead<K(!new)>(b: Buckets<K>)
    requires b != []
    ensures Prune(b) == (if b[0].paths == [] then [] else [b[0]]) + Prune(b[1..])
  {
  }

  /** Dropping the empty lists changes no lookup. */
  lemma {:induction false} PruneLookup<K(!new)>(b: Buckets<K>, k: K)
    requires UniqueKeys(b)
    ensures Lookup(Prune(b), k) == Lookup(b, k)
  {
    if b != [] {
      PruneLookup(b[1..], k);
      if b[0].key == k {
        assert k !in Keys(b[1..]) by {
          assert forall j :: 0 <= j < |b| - 1 ==> Keys(b[1..])[j] == b[j + 1].key;
        }
      }
    }
  }

  /** Keys in strictly increasing lexicographic order. */
  ghost predicate SortedByKey(b: Buckets<string>)
  {
    forall i, j :: 0 <= i < j < |b| ==> LexLess(b[i].key, b[j].key)
  }

  lemma SortedHasUniqueKeys(b: Buckets<string>)
    requires SortedByKey(b)
    ensures UniqueKeys(b)
  {
    forall i, j | 0 <= i < j < |b| ensures b[i].key != b[j].key {
      LexIrreflexive(b[i].key);
    }
  }

  lemma InsertFrontSorted(x: Bucket<string>, s: Buckets<string>)
    requires SortedByKey(s) && s != [] && LexLess(x.key, s[0].key)
    ensures SortedByKey([x] + s)
  {
    forall j | 0 < j < |s| ensures LexLess(x.key, s[j].key) {
      LexTransitive(x.key, s[0].key, s[j].key);
    }
  }

  /** Inserts `x` before the first bucket whose key is lexicographically greater. */
  function InsertByKey(x: Bucket<string>, s: Buckets<string>): (r: Buckets<string>)
    ensures multiset(r) == multiset(s) + multiset{x}
  {
    if s == [] then [x]
    else if LexLess(x.key, s[0].key) then [x] + s
    else
      assert s == [s[0]] + s[1..];
      [s[0]] + InsertByKey(x, s[1..])
  }

  lemma {:induction false} InsertByKeySorted(x: Bucket<string>, s: Buckets<string>)
    requires SortedByKey(s) && x.key !in Keys(s)
    ensures SortedByKey(InsertByKey(x, s))
  {
    if s == [] {
    } else if LexLess(x.key, s[0].key) {
      InsertFrontSorted(x, s);
    } else {
      assert Keys(s)[0] == s[0].key;
      LexTotal(x.key, s[0].key);
      var tail := s[1..];
      assert x.key !in Keys(tail) by {
        assert forall j :: 0 <= j < |tail| ==> Keys(tail)[j] == Keys(s)[j + 1];
      }
      InsertByKeySorted(x, tail);
      var rest := InsertByKey(x, tail);
      forall j | 0 <= j < |tail| ensures LexLess(s[0].key, tail[j].key) {
        assert tail[j] == s[j + 1];
      }
      InsertKeepsAbove(x, tail, s[0].key);
      ConsSorted(s[0], rest);
      assert InsertByKey(x, s) == [s[0]] + rest;
    }
  }

  /** A key below `x` and below every key of `s` stays below every key after inserting `x`. */
  lemma InsertKeepsAbove(x: Bucket<string>, s: Buckets<string>, low: string)
    requires LexLess(low, x.key) && forall j :: 0 <= j < |s| ==> LexLess(low, s[j].key)
    ensures forall j :: 0 <= j < |InsertByKey(x, s)| ==> LexLess(low, InsertByKey(x, s)[j].key)
  {
    var r := InsertByKey(x, s);
    forall j | 0 <= j < |r| ensures LexLess(low, r[j].key) {
      assert r[j] in multiset(r);
      if r[j] != x {
        assert r[j] in multiset(s);
        var m :| 0 <= m < |s| && s[m] == r[j];
      }
    }
  }

  /** A bucket whose key is below every key of a sorted list sorts first. */
  lemma ConsSorted(h: Bucket<string>, s: Buckets<string>)
    requires SortedByKey(s) && forall j :: 0 <= j < |s| ==> LexLess(h.key, s[j].key)
    ensures SortedByKey([h] + s)
  {
    var r := [h] + s;
    forall i, j | 0 <= i < j < |r| ensures LexLess(r[i].key, r[j].key) {
      assert r[j] == s[j - 1];
      if i > 0 {
        assert r[i] == s[i - 1];
      }
    }
  }

  /** `dict(sorted(d.items()))`: the same buckets, in increasing key order. */
  function SortByKey(b: Buckets<string>): (r: Buckets<string>)
    ensures multiset(r) == multiset(b)
  {
    if b == [] then []
    else
      assert b == b[..|b| - 1] + [b[|b| - 1]];
      InsertByKey(b[|b| - 1], SortByKey(b[..|b| - 1]))
  }

  /** Sorting keeps exactly the same buckets. */
  lemma SortByKeyMembers(b: Buckets<string>)
    ensures forall x :: x in SortByKey(b) <==> x in b
  {
    var r := SortByKey(b);
    assert forall x :: x in r <==> x in multiset(r);
    assert forall x :: x in b <==> x in multiset(b);
  }

  /** The last bucket's key is not among the sorted keys of the buckets before it. */
  lemma LastKeyFresh(b: Buckets<string>)
    requires b != [] && UniqueKeys(b)
    ensures b[|b| - 1].key !in Keys(SortByKey(b[..|b| - 1]))
  {
    var init := b[..|b| - 1];
    var sorted := SortByKey(init);
    SortByKeyMembers(init);
    forall i | 0 <= i < |sorted| ensures sorted[i].key != b[|b| - 1].key {
      assert sorted[i] in init;
      var j :| 0 <= j < |init| && init[j] == sorted[i];
      assert b[j] == sorted[i];
    }
  }

  /** Sorting a dictionary's items gives strictly increasing keys, each bucket kept. */
  lemma {:induction false} SortByKeySorted(b: Buckets<string>)
    requires UniqueKeys(b)
    ensures SortedByKey(SortByKey(b)) && UniqueKeys(SortByKey(b))
    ensures forall x :: x in SortByKey(b) <==> x in b
  {
    SortByKeyMembers(b);
    if b != [] {
      var init := b[..|b| - 1];
      SortByKeySorted(init);
      LastKeyFresh(b);
      InsertByKeySorted(b[|b| - 1], SortByKey(init));
      SortedHasUniqueKeys(SortByKey(b));
    }
  }
}
