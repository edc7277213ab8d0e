/** `pad_episode_numbers`: every episode number in the folder is zero-padded to the number of
    digits of the largest one. The folder is its listing, a sequence of paths; a rename
    replaces an entry. */
module Padding {
  import opened Wrappers
  import opened Text
  import opened Paths
  import opened Episodes

  /** An entry of `files_with_episodes`: where the file is in the listing, and the first
      episode number of its name. */
  datatype Hit = Hit(pos: nat, number: nat)

  /** The first episode number of every entry's name, in listing order. */
  function Numbers(fs: seq<Path>): (ns: seq<Option<nat>>)
    ensures |ns| == |fs| && forall k :: 0 <= k < |fs| ==> ns[k] == FirstEpisodeNumber(fs[k].name)
  {
    seq(|fs|, k requires 0 <= k < |fs| => FirstEpisodeNumber(fs[k].name))
  }

  /** `files_with_episodes` once the first loop has seen the first `i` entries: every entry
      that has a number, in listing order. */
  function Hits(ns: seq<Option<nat>>, i: nat): (r: seq<Hit>)
    requires i <= |ns|
  {
    if i == 0 then []
    else
      var r := Hits(ns, i - 1);
      match ns[i - 1]
      case None => r
      case Some(n) => r + [Hit(i - 1, n)]
  }

  /** Each hit is an entry among the first `i` that has a number, with that number. */
  lemma {:induction false} HitsFacts(ns: seq<Option<nat>>, i: nat)
    requires i <= |ns|
    ensures var r := Hits(ns, i);
      |r| <= i && forall h :: 0 <= h < |r| ==> r[h].pos < i && ns[r[h].pos] == Some(r[h].number)
  {
    if i > 0 {
      HitsFacts(ns, i - 1);
      var r := Hits(ns, i - 1);
      if ns[i - 1].Some? {
        assert forall h :: 0 <= h < |r| ==> (r + [Hit(i - 1, ns[i - 1].value)])[h] == r[h];
      }
    }
  }

  /** One step of the first loop: an entry with a number is appended, any other skipped. */
  lemma HitsStep(ns: seq<Option<nat>>, i: nat)
    requires 0 < i <= |ns|
    ensures ns[i - 1].None? ==> Hits(ns, i) == Hits(ns, i - 1)
    ensures ns[i - 1].Some? ==> Hits(ns, i) == Hits(ns, i - 1) + [Hit(i - 1, ns[i - 1].value)]
  {
  }

  /** One step of the first loop, on the folder itself. */
  lemma HitsNext(fs: seq<Path>, i: nat, n: Option<nat>)
    requires i < |fs| && n == FirstEpisodeNumber(fs[i].name)
    ensures n.None? ==> Hits(Numbers(fs), i + 1) == Hits(Numbers(fs), i)
    ensures n.Some? ==> Hits(Numbers(fs), i + 1) == Hits(Numbers(fs), i) + [Hit(i, n.value)]
  {
    HitsStep(Numbers(fs), i + 1);
  }

  /** The hits are in listing order. */
  lemma {:induction false} HitsOrdered(ns: seq<Option<nat>>, i: nat)
    requires i <= |ns|
    ensures var r := Hits(ns, i); forall a, b :: 0 <= a < b < |r| ==> r[a].pos < r[b].pos
  {
    if i > 0 {
      HitsOrdered(ns, i - 1);
      HitsFacts(ns, i - 1);
      HitsStep(ns, i);
      var r := Hits(ns, i - 1);
      if ns[i - 1].Some? {
        var r' := r + [Hit(i - 1, ns[i - 1].value)];
        assert Hits(ns, i) == r';
        forall a, b | 0 <= a < b < |r'| ensures r'[a].pos < r'[b].pos {
          if b == |r| {
            assert r'[a] == r[a];
          } else {
            assert r'[a] == r[a] && r'[b] == r[b];
          }
        }
      }
    }
  }

  /** Every entry among the first `i` that has a number is one of the hits. */
  lemma {:induction false} HitsComplete(ns: seq<Option<nat>>, i: nat)
    requires i <= |ns|
    ensures forall k :: 0 <= k < i && ns[k].Some? ==> exists h :: 0 <= h < |Hits(ns, i)| && Hits(ns, i)[h].pos == k
  {
    if i > 0 {
      HitsComplete(ns, i - 1);
      HitsStep(ns, i);
      var r := Hits(ns, i - 1);
      var r' := Hits(ns, i);
      assert r' == r || r' == r + [Hit(i - 1, ns[i - 1].value)];
      forall k | 0 <= k < i && ns[k].Some? ensures exists h :: 0 <= h < |r'| && r'[h].pos == k {
        if k == i - 1 {
          assert r'[|r|].pos == k;
        } else {
          var h :| 0 <= h < |r| && r[h].pos == k;
          assert r'[h] == r[h];
        }
      }
    }
  }

  /** The first position the rename loop has not reached after renaming the first `k` hits. */
  function Reached(hs: seq<Hit>, k: nat): nat
    requires k <= |hs|
  {
    if k == 0 then 0 else hs[k - 1].pos + 1
  }

  /** Between the hits the rename loop visits, no entry has a number: after `k` hits, every
      entry from where the loop has reached up to the next hit (or the end) is unnumbered. */
  lemma HitsGap(ns: seq<Option<nat>>, k: nat)
    requires k <= |Hits(ns, |ns|)|
    ensures var hs := Hits(ns, |ns|);
      var next := if k < |hs| then hs[k].pos else |ns|;
      Reached(hs, k) <= next <= |ns| &&
      forall p :: Reached(hs, k) <= p < next ==> ns[p].None?
  {
    var hs := Hits(ns, |ns|);
    HitsFacts(ns, |ns|);
    HitsOrdered(ns, |ns|);
    HitsComplete(ns, |ns|);
    var next := if k < |hs| then hs[k].pos else |ns|;
    if 0 < k < |hs| {
      assert hs[k - 1].pos < hs[k].pos;
    }
    forall h | 0 <= h < |hs| ensures hs[h].pos < Reached(hs, k) || next <= hs[h].pos {
      if h < k - 1 {
        assert hs[h].pos < hs[k - 1].pos;
      } else if k < h {
        assert hs[k].pos < hs[h].pos;
      }
    }
  }

  /** `HitsGap` on the folder itself. */
  lemma GapUnnumbered(fs: seq<Path>, k: nat)
    requires k <= |Hits(Numbers(fs), |fs|)|
    ensures var hs := Hits(Numbers(fs), |fs|);
      var next := if k < |hs| then hs[k].pos else |fs|;
      Reached(hs, k) <= next <= |fs| &&
      forall q :: Reached(hs, k) <= q < next ==> FirstEpisodeNumber(fs[q].name).None?
  {
    HitsGap(Numbers(fs), k);
  }

  /** The folder while the rename loop runs: the entries before `lim` renamed, the others
      not yet. */
  function PaddedUpTo(fs: seq<Path>, width: nat, lim: nat): (r: seq<Path>)
    ensures |r| == |fs|
  {
    seq(|fs|, q requires 0 <= q < |fs| => if q < lim then PadName(fs[q], width) else fs[q])
  }

  /** Before the rename loop nothing is renamed. */
  lemma PaddedUpToStart(fs: seq<Path>, width: nat)
    ensures PaddedUpTo(fs, width, 0) == fs
  {
  }

  /** Renaming the next numbered entry, past unnumbered ones, moves the loop up to it. */
  lemma PaddedUpToNext(fs: seq<Path>, width: nat, lo: nat, p: nat)
    requires lo <= p < |fs| && FirstEpisodeNumber(fs[p].name).Some?
    requires forall q :: lo <= q < p ==> FirstEpisodeNumber(fs[q].name).None?
    ensures PaddedUpTo(fs, width, lo)[p := WithName(fs[p], PadAll(fs[p].name, width))] == PaddedUpTo(fs, width, p + 1)
  {
  }

  /** Once the loop is past the last numbered entry, the folder is padded. */
  lemma PaddedUpToEnd(fs: seq<Path>, lo: nat)
    requires lo <= |fs|
    requires forall q :: lo <= q < |fs| ==> FirstEpisodeNumber(fs[q].name).None?
    ensures PaddedUpTo(fs, PadWidth(fs), lo) == PaddedFolder(fs)
  {
  }

  /** One turn of the rename loop: renaming hit `k` moves the loop past it. */
  lemma {:induction false} PadStep(fs: seq<Path>, width: nat, hs: seq<Hit>, k: nat)
    requires hs == Hits(Numbers(fs), |fs|) && k < |hs|
    ensures hs[k].pos < |fs| && Reached(hs, k + 1) <= |fs|
    ensures PaddedUpTo(fs, width, Reached(hs, k))[hs[k].pos := WithName(fs[hs[k].pos], PadAll(fs[hs[k].pos].name, width))] ==
      PaddedUpTo(fs, width, Reached(hs, k + 1))
  {
    HitsFacts(Numbers(fs), |fs|);
    GapUnnumbered(fs, k);
    PaddedUpToNext(fs, width, Reached(hs, k), hs[k].pos);
  }

  /** After the last hit the rename loop has padded the folder. */
  lemma {:induction false} PadDone(fs: seq<Path>, hs: seq<Hit>, width: nat, lim: nat)
    requires hs == Hits(Numbers(fs), |fs|) && hs != []
    requires width == |NatToString(MaxNumber(hs))| && lim == Reached(hs, |hs|)
    ensures PaddedUpTo(fs, width, lim) == PaddedFolder(fs)
  {
    PadWidthOfLargest(fs);
    GapUnnumbered(fs, |hs|);
    PaddedUpToEnd(fs, lim);
  }

  /** `max(ep_num for _, ep_num in files_with_episodes)`. */
  function MaxNumber(hs: seq<Hit>): (m: nat)
    requires hs != []
    ensures exists h :: 0 <= h < |hs| && hs[h].number == m
    ensures forall h :: 0 <= h < |hs| ==> hs[h].number <= m
  {
    if |hs| == 1 then hs[0].number
    else
      var m := MaxNumber(hs[..|hs| - 1]);
      var x := hs[|hs| - 1].number;
      assert forall h :: 0 <= h < |hs| - 1 ==> hs[..|hs| - 1][h] == hs[h];
      if x > m then x else m
  }

  /** `num_digits`: the number of decimal digits of the largest episode number, and 0 when
      no name has one. */
  function PadWidth(fs: seq<Path>): nat
  {
    var hs := Hits(Numbers(fs), |fs|);
    if hs == [] then 0 else |NatToString(MaxNumber(hs))|
  }

  /** With some numbered entry, `num_digits` is the length of the largest number. */
  lemma PadWidthOfLargest(fs: seq<Path>)
    requires Hits(Numbers(fs), |fs|) != []
    ensures PadWidth(fs) == |NatToString(MaxNumber(Hits(Numbers(fs), |fs|)))|
  {
  }

  /** The rename of one entry: every match in the name padded to `width`. An entry without
      a match is not renamed. */
  function PadName(p: Path, width: nat): Path
  {
    if FirstEpisodeNumber(p.name).Some? then WithName(p, PadAll(p.name, width)) else p
  }

  /** The folder after `pad_episode_numbers`: each entry renamed in place, in its own
      directory, and with the first episode number of its name unchanged. */
  function PaddedFolder(fs: seq<Path>): (r: seq<Path>)
    ensures |r| == |fs|
  {
    var w := PadWidth(fs);
    seq(|fs|, k requires 0 <= k < |fs| => PadName(fs[k], w))
  }

  /** Padding renames in place: every entry stays in its folder and keeps its episode
      number. */
  lemma PaddedFolderKeeps(fs: seq<Path>)
    ensures forall k :: 0 <= k < |fs| ==> PaddedFolder(fs)[k].dir == fs[k].dir
    ensures forall k :: 0 <= k < |fs| ==> FirstEpisodeNumber(PaddedFolder(fs)[k].name) == FirstEpisodeNumber(fs[k].name)
  {
    forall k | 0 <= k < |fs| ensures FirstEpisodeNumber(PaddedFolder(fs)[k].name) == FirstEpisodeNumber(fs[k].name) {
      PadKeepsFirstNumber(fs[k].name, PadWidth(fs));
    }
  }

  /** Every episode number has at most `num_digits` digits, and the largest has exactly that
      many. */
  lemma WidthCoversAll(fs: seq<Path>)
    ensures forall k, n :: 0 <= k < |fs| && FirstEpisodeNumber(fs[k].name) == Some(n) ==>
      |NatToString(n)| <= PadWidth(fs)
    ensures Hits(Numbers(fs), |fs|) != [] ==> exists k :: (0 <= k < |fs| && FirstEpisodeNumber(fs[k].name).Some? &&
      |NatToString(FirstEpisodeNumber(fs[k].name).value)| == PadWidth(fs))
  {
    var hs := Hits(Numbers(fs), |fs|);
    HitsFacts(Numbers(fs), |fs|);
    HitsComplete(Numbers(fs), |fs|);
    forall k, n | 0 <= k < |fs| && FirstEpisodeNumber(fs[k].name) == Some(n)
      ensures |NatToString(n)| <= PadWidth(fs)
    {
      var h :| 0 <= h < |hs| && hs[h].pos == k;
      NatToStringMonotonic(n, MaxNumber(hs));
    }
    if hs != [] {
      var h :| 0 <= h < |hs| && hs[h].number == MaxNumber(hs);
      assert FirstEpisodeNumber(fs[hs[h].pos].name).Some?;
    }
  }

  /** After padding, every numbered entry keeps its number, which is now written with exactly
      `num_digits` digits: the padded numbers are uniform. */
  lemma PaddedNumbersUniform(fs: seq<Path>, k: nat)
    requires k < |fs| && FirstEpisodeNumber(fs[k].name).Some?
    ensures var n := FirstEpisodeNumber(fs[k].name).value;
      FirstDigits(PaddedFolder(fs)[k].name) == Some(PaddedDigits(n, PadWidth(fs))) &&
      |PaddedDigits(n, PadWidth(fs))| == PadWidth(fs)
  {
    WidthCoversAll(fs);
    PadAllFirstDigits(fs[k].name, PadWidth(fs));
  }

  /** With no numbered entry there is no rename. */
  lemma {:induction false} NoHitsNoRenames(fs: seq<Path>)
    requires Hits(Numbers(fs), |fs|) == []
    ensures PaddedFolder(fs) == fs
  {
    HitsComplete(Numbers(fs), |fs|);
    assert forall k :: 0 <= k < |fs| ==> Numbers(fs)[k].None?;
  }

  /** Running `pad_episode_numbers` on its own output renames nothing: the numbers, hence
      the largest and the width, are unchanged, and padding a padded name is the identity. */
  lemma PaddedFolderIdempotent(fs: seq<Path>)
    ensures PaddedFolder(PaddedFolder(fs)) == PaddedFolder(fs)
  {
    var r := PaddedFolder(fs);
    PaddedFolderKeeps(fs);
    assert Numbers(r) == Numbers(fs);
    forall k | 0 <= k < |fs| ensures PadName(r[k], PadWidth(r)) == r[k] {
      if FirstEpisodeNumber(fs[k].name).Some? {
        PadAllIdempotent(fs[k].name, PadWidth(fs));
      }
    }
  }
}
