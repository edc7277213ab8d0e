/** `find_files_without_episode_numbers`: the folder's entries grouped by the first date in
    their names (`files_by_date`), and, for every date shared by several entries, those of
    its entries whose names carry no episode marker. */
module Grouping {
  import opened Wrappers
  import opened Paths
  import opened Buckets
  import opened Dates
  import opened Episodes

  /** The entries of `fs` whose first date is `d`, in listing order. */
  function DatedAs(fs: seq<Path>, d: string): (r: seq<Path>)
    ensures forall p :: p in r <==> p in fs && FindDate(p.name) == Some(d)
  {
    if fs == [] then []
    else
      var init, p := fs[..|fs| - 1], fs[|fs| - 1];
      assert forall q :: q in fs <==> q in init || q == p by {
        assert fs == init + [p];
      }
      if FindDate(p.name) == Some(d) then DatedAs(init, d) + [p] else DatedAs(init, d)
  }

  /** The comprehension `[file for file in files if not episode_pattern.search(file.name)]`. */
  function Unmarked(ps: seq<Path>): (r: seq<Path>)
    ensures |r| <= |ps|
    ensures forall p :: p in r <==> p in ps && !HasEpisodeMarker(p.name)
  {
    if ps == [] then []
    else
      var init, p := ps[..|ps| - 1], ps[|ps| - 1];
      assert forall q :: q in ps <==> q in init || q == p by {
        assert ps == init + [p];
      }
      if HasEpisodeMarker(p.name) then Unmarked(init) else Unmarked(init) + [p]
  }

  /** One iteration of the grouping loop: an entry with a date is appended to its date's
      list, a list that is created the first time the date is seen. */
  function GroupStep(g: Buckets<string>, p: Path): Buckets<string>
  {
    match FindDate(p.name)
    case None => g
    case Some(d) => Append(g, d, p)
  }

  /** `files_by_date` after the grouping loop has seen the entries of `fs` in order. */
  function GroupByDate(fs: seq<Path>): Buckets<string>
  {
    if fs == [] then [] else GroupStep(GroupByDate(fs[..|fs| - 1]), fs[|fs| - 1])
  }

  /** `files_by_date` has each date once; the list under a date holds exactly the entries
      whose first date it is, in listing order, and a date is a key exactly when some entry
      has it. */
  lemma {:induction false} GroupByDateLookup(fs: seq<Path>, d: string)
    ensures UniqueKeys(GroupByDate(fs))
    ensures Lookup(GroupByDate(fs), d) == DatedAs(fs, d)
    ensures d in Keys(GroupByDate(fs)) <==> DatedAs(fs, d) != []
  {
    if fs != [] {
      var init, p := fs[..|fs| - 1], fs[|fs| - 1];
      GroupByDateLookup(init, d);
      var g := GroupByDate(init);
      match FindDate(p.name)
      case None =>
      case Some(e) =>
        AppendLookup(g, e, p, d);
        if d != e {
          assert d in Keys(Append(g, e, p)) <==> d in Keys(g);
        }
    }
  }

  /** Every list of `files_by_date` is non-empty. */
  lemma {:induction false} GroupsNonEmpty(fs: seq<Path>)
    ensures forall i :: 0 <= i < |GroupByDate(fs)| ==> GroupByDate(fs)[i].paths != []
  {
    if fs != [] {
      GroupsNonEmpty(fs[..|fs| - 1]);
      var d := FindDate(fs[|fs| - 1].name);
      if d.Some? {
        AppendNonEmpty(GroupByDate(fs[..|fs| - 1]), d.value, fs[|fs| - 1]);
      }
    }
  }

  /** What the second loop keeps of one date's list: the unmarked entries of a list of
      several, when there are any. */
  function Kept(b: Bucket<string>): Option<Bucket<string>>
  {
    var missing := Unmarked(b.paths);
    if |b.paths| == 1 || missing == [] then None else Some(Bucket(b.key, missing))
  }

  /** `files_without_episode_numbers` after the second loop has seen the items of `g`. */
  function Unnumbered(g: Buckets<string>): (r: Buckets<string>)
    ensures forall k :: k in Keys(r) ==> k in Keys(g)
  {
    if g == [] then []
    else
      var init := g[..|g| - 1];
      var rest := Unnumbered(init);
      assert forall k :: k in Keys(init) ==> k in Keys(g) by {
        assert forall i :: 0 <= i < |init| ==> Keys(init)[i] == Keys(g)[i];
      }
      match Kept(g[|g| - 1])
      case None => rest
      case Some(b) =>
        assert Keys(rest + [b]) == Keys(rest) + [b.key];
        rest + [b]
  }

  /** One more entry for the grouping loop. */
  lemma GroupByDateNext(fs: seq<Path>, i: nat)
    requires i < |fs|
    ensures GroupByDate(fs[..i + 1]) == GroupStep(GroupByDate(fs[..i]), fs[i])
  {
    assert fs[..i + 1][..i] == fs[..i];
  }

  /** One more item for the second loop. */
  lemma UnnumberedNext(g: Buckets<string>, j: nat)
    requires j < |g|
    ensures Kept(g[j]).None? ==> Unnumbered(g[..j + 1]) == Unnumbered(g[..j])
    ensures Kept(g[j]).Some? ==> Unnumbered(g[..j + 1]) == Unnumbered(g[..j]) + [Kept(g[j]).value]
  {
    assert g[..j + 1][..j] == g[..j];
  }

  /** Looking a key up after a bucket was added at the end. */
  lemma {:induction false} LookupSnoc(b: Buckets<string>, x: Bucket<string>, k: string)
    ensures Lookup(b + [x], k) == if k in Keys(b) then Lookup(b, k) else if x.key == k then x.paths else []
    ensures k in Keys(b + [x]) <==> k in Keys(b) || k == x.key
  {
    assert Keys(b + [x]) == Keys(b) + [x.key];
    if b != [] {
      assert (b + [x])[1..] == b[1..] + [x];
      LookupSnoc(b[1..], x, k);
      assert Keys(b) == [b[0].key] + Keys(b[1..]);
    }
  }

  /** Adding a bucket with a new key at the end keeps the keys unique. */
  lemma SnocUnique(b: Buckets<string>, x: Bucket<string>)
    requires UniqueKeys(b) && x.key !in Keys(b)
    ensures UniqueKeys(b + [x])
  {
    forall i, j | 0 <= i < j < |b + [x]| ensures (b + [x])[i].key != (b + [x])[j].key {
      if j == |b| {
        assert (b + [x])[i].key == Keys(b)[i];
      }
    }
  }

  /** The last bucket of a dictionary with unique keys is the only one with its key. */
  lemma LastKeyNew(g: Buckets<string>)
    requires g != [] && UniqueKeys(g)
    ensures UniqueKeys(g[..|g| - 1]) && g[|g| - 1].key !in Keys(g[..|g| - 1])
  {
    assert forall i :: 0 <= i < |g| - 1 ==> g[..|g| - 1][i] == g[i];
  }

  /** The result has each date once. */
  lemma {:induction false} UnnumberedUnique(g: Buckets<string>)
    requires UniqueKeys(g)
    ensures UniqueKeys(Unnumbered(g))
  {
    if g != [] {
      var init, x := g[..|g| - 1], g[|g| - 1];
      LastKeyNew(g);
      UnnumberedUnique(init);
      match Kept(x)
      case None =>
      case Some(b) =>
        SnocUnique(Unnumbered(init), b);
    }
  }

  /** The second loop after one more item of `files_by_date`. */
  lemma UnnumberedSnoc(init: Buckets<string>, x: Bucket<string>)
    ensures Unnumbered(init + [x]) == if Kept(x).Some? then Unnumbered(init) + [Kept(x).value] else Unnumbered(init)
  {
    assert (init + [x])[..|init|] == init;
  }

  /** Another date's list is not touched by the item for `x`. */
  lemma KeptLookupOther(rest: Buckets<string>, u: Buckets<string>, x: Bucket<string>, d: string)
    requires d != x.key
    requires u == if Kept(x).Some? then rest + [Kept(x).value] else rest
    ensures Lookup(u, d) == Lookup(rest, d)
    ensures d in Keys(u) <==> d in Keys(rest)
  {
    if Kept(x).Some? {
      LookupSnoc(rest, Kept(x).value, d);
    }
  }

  /** The item for `x`, under a date not seen before, holds its unmarked entries. */
  lemma KeptLookupNew(rest: Buckets<string>, u: Buckets<string>, x: Bucket<string>)
    requires x.key !in Keys(rest)
    requires u == if Kept(x).Some? then rest + [Kept(x).value] else rest
    ensures Lookup(u, x.key) == if |x.paths| == 1 then [] else Unmarked(x.paths)
    ensures x.key in Keys(u) <==> |x.paths| != 1 && Unmarked(x.paths) != []
  {
    if Kept(x).Some? {
      LookupSnoc(rest, Kept(x).value, x.key);
    }
  }

  /** A date's list in the result is the unmarked part of its list in `files_by_date` when
      that list has more than one entry, and the date is a key exactly when that part is
      non-empty. */
  lemma {:induction false} UnnumberedLookup(g: Buckets<string>, d: string)
    requires UniqueKeys(g)
    ensures Lookup(Unnumbered(g), d) == if |Lookup(g, d)| == 1 then [] else Unmarked(Lookup(g, d))
    ensures d in Keys(Unnumbered(g)) <==> |Lookup(g, d)| != 1 && Unmarked(Lookup(g, d)) != []
  {
    if g != [] {
      var init, x := g[..|g| - 1], g[|g| - 1];
      LastKeyNew(g);
      UnnumberedLookup(init, d);
      assert g == init + [x];
      var rest := Unnumbered(init);
      UnnumberedSnoc(init, x);
      LookupSnoc(init, x, d);
      if d == x.key {
        assert d !in Keys(rest);
        KeptLookupNew(rest, Unnumbered(g), x);
      } else {
        assert Lookup(g, d) == Lookup(init, d);
        KeptLookupOther(rest, Unnumbered(g), x, d);
      }
    }
  }

  /** The result of `find_files_without_episode_numbers` for the listing `fs`. */
  function WithoutNumbers(fs: seq<Path>): Buckets<string>
  {
    Unnumbered(GroupByDate(fs))
  }

  /** For every date: the files returned under it are exactly the unmarked entries that have
      it as their first date, provided more than one entry has it; the date is returned
      exactly when there are such files. */
  lemma WithoutNumbersLookup(fs: seq<Path>, d: string)
    ensures UniqueKeys(WithoutNumbers(fs))
    ensures Lookup(WithoutNumbers(fs), d) == if |DatedAs(fs, d)| <= 1 then [] else Unmarked(DatedAs(fs, d))
    ensures d in Keys(WithoutNumbers(fs)) <==> |DatedAs(fs, d)| > 1 && Unmarked(DatedAs(fs, d)) != []
  {
    GroupByDateLookup(fs, d);
    UnnumberedUnique(GroupByDate(fs));
    UnnumberedLookup(GroupByDate(fs), d);
  }

  /** Every file returned has a date, lacks an episode marker and is an entry of the
      listing. */
  lemma WithoutNumbersMembers(fs: seq<Path>, d: string, p: Path)
    requires p in Lookup(WithoutNumbers(fs), d)
    ensures p in fs && FindDate(p.name) == Some(d) && !HasEpisodeMarker(p.name)
  {
    WithoutNumbersLookup(fs, d);
  }
}
