/** The bounds `get_date_range` derives from the date buckets' keys: the earliest year,
    the first and last episode dates of the current scan, and the "real" first and last
    dates that also cover the keys of an earlier scan's snapshot. Keys are compared as
    Python compares strings. */
module Timeline {
  import opened Wrappers
  import opened Text
  import opened Dates

  datatype Bounds = Bounds(
    earliestYear: Option<int>,
    first: Option<string>,
    last: Option<string>,
    realFirst: Option<string>,
    realLast: Option<string>)

  const NoBounds: Bounds := Bounds(None, None, None, None, None)

  /** `int(str(key)[:4])`, None where it raises `ValueError`. */
  function KeyYear(k: string): Option<int>
  {
    PyInt(if |k| < 4 then k else k[..4])
  }

  /** A date key's year is its first four digits. */
  lemma IsoKeyYear(k: string)
    requires IsoShape(k)
    ensures Dated(k) && KeyYear(k) == Some(YearOf(k))
  {
    assert |k| != |"Unknown"|;
    PyIntDigits(k[..4]);
  }

  /** A key the scan takes into account: not "Unknown", with an integer prefix. */
  predicate Dated(k: string)
  {
    k != "Unknown" && KeyYear(k).Some?
  }

  /** `a <= b` on Python strings. */
  predicate LexLeq(a: string, b: string)
  {
    a == b || LexLess(a, b)
  }

  /** One iteration of the scan loop over the current keys. */
  function ScanStep(b: Bounds, k: string): Bounds
  {
    if !Dated(k) then b
    else
      var y := KeyYear(k).value;
      var ey := if b.earliestYear.None? || (y != 0 && y < b.earliestYear.value) then Some(y) else b.earliestYear;
      var moveFirst := b.first.None? || LexLess(k, b.first.value);
      var moveLast := b.last.None? || LexLess(b.last.value, k);
      Bounds(ey,
        if moveFirst then Some(k) else b.first,
        if moveLast then Some(k) else b.last,
        if moveFirst then Some(k) else b.realFirst,
        if moveLast then Some(k) else b.realLast)
  }

  /** The scan over `keys` in order, from cleared bounds. */
  function ScanKeys(keys: seq<string>): Bounds
  {
    if keys == [] then NoBounds else ScanStep(ScanKeys(keys[..|keys| - 1]), keys[|keys| - 1])
  }

  lemma ScanSnoc(keys: seq<string>, k: string)
    ensures ScanKeys(keys + [k]) == ScanStep(ScanKeys(keys), k)
  {
    assert (keys + [k])[..|keys|] == keys;
  }

  /** One more key of a list, for the loop over it. */
  lemma ScanKeysNext(keys: seq<string>, i: nat)
    requires i < |keys|
    ensures ScanKeys(keys[..i + 1]) == ScanStep(ScanKeys(keys[..i]), keys[i])
  {
    assert keys[..i + 1] == keys[..i] + [keys[i]];
    ScanSnoc(keys[..i], keys[i]);
  }

  /** One iteration of the loop over the snapshot's keys: "Unknown" is skipped; a bound
      that is still None takes any key, otherwise only a non-empty key that lies beyond. */
  function ExtendStep(b: Bounds, k: string): Bounds
  {
    if k == "Unknown" then b
    else
      b.(realFirst := if b.realFirst.None? || (k != "" && LexLess(k, b.realFirst.value)) then Some(k) else b.realFirst,
         realLast := if b.realLast.None? || (k != "" && LexLess(b.realLast.value, k)) then Some(k) else b.realLast)
  }

  function ExtendKeys(b: Bounds, keys: seq<string>): Bounds
  {
    if keys == [] then b else ExtendStep(ExtendKeys(b, keys[..|keys| - 1]), keys[|keys| - 1])
  }

  lemma ExtendSnoc(b: Bounds, keys: seq<string>, k: string)
    ensures ExtendKeys(b, keys + [k]) == ExtendStep(ExtendKeys(b, keys), k)
  {
    assert (keys + [k])[..|keys|] == keys;
  }

  lemma ExtendKeysNext(b: Bounds, keys: seq<string>, j: nat)
    requires j < |keys|
    ensures ExtendKeys(b, keys[..j + 1]) == ExtendStep(ExtendKeys(b, keys[..j]), keys[j])
  {
    assert keys[..j + 1] == keys[..j] + [keys[j]];
    ExtendSnoc(b, keys[..j], keys[j]);
  }

  /** All of `get_date_range` after the pruning: the scan over the current keys, then the
      extension over the snapshot's keys when there is a non-empty snapshot. */
  function DateRange(keys: seq<string>, original: Option<seq<string>>): Bounds
  {
    var s := ScanKeys(keys);
    if original.Some? && original.value != [] then ExtendKeys(s, original.value) else s
  }

  predicate IsMin(m: string, keys: seq<string>)
  {
    m in keys && Dated(m) && forall k :: k in keys && Dated(k) ==> LexLeq(m, k)
  }

  predicate IsMax(m: string, keys: seq<string>)
  {
    m in keys && Dated(m) && forall k :: k in keys && Dated(k) ==> LexLeq(k, m)
  }

  /** The first and last episode dates are the lexical minimum and maximum of the dated
      keys, they are None exactly when no key is dated, and the real bounds coincide with
      them after the scan. */
  lemma {:induction false} ScanFirstLast(keys: seq<string>)
    ensures var b := ScanKeys(keys);
      (b.first.None? <==> forall k :: k in keys ==> !Dated(k)) &&
      (b.last.None? <==> b.first.None?) &&
      (b.first.Some? ==> IsMin(b.first.value, keys)) &&
      (b.last.Some? ==> IsMax(b.last.value, keys)) &&
      b.realFirst == b.first && b.realLast == b.last
  {
    if keys != [] {
      var init, k := keys[..|keys| - 1], keys[|keys| - 1];
      assert keys == init + [k];
      ScanFirstLast(init);
      var p := ScanKeys(init);
      if Dated(k) && p.first.Some? {
        var f := p.first.value;
        if LexLess(k, f) {
          forall x | x in keys && Dated(x) ensures LexLeq(k, x) {
            if x != k {
              assert x in init;
              if x != f { LexTransitive(k, f, x); }
            }
          }
        } else {
          LexTotal(k, f);
        }
        var l := p.last.value;
        if LexLess(l, k) {
          forall x | x in keys && Dated(x) ensures LexLeq(x, k) {
            if x != k {
              assert x in init;
              if x != l { LexTransitive(x, l, k); }
            }
          }
        } else {
          LexTotal(k, l);
        }
      }
    }
  }

  /** The earliest year is the year of a dated key and no later than any non-zero dated
      year. */
  lemma {:induction false} ScanEarliestYear(keys: seq<string>)
    ensures var b := ScanKeys(keys);
      (b.earliestYear.None? <==> forall k :: k in keys ==> !Dated(k)) &&
      (b.earliestYear.Some? ==>
        (exists k :: k in keys && Dated(k) && KeyYear(k) == b.earliestYear) &&
        forall k :: k in keys && Dated(k) && KeyYear(k).value != 0 ==> b.earliestYear.value <= KeyYear(k).value)
  {
    if keys != [] {
      var init, k := keys[..|keys| - 1], keys[|keys| - 1];
      assert keys == init + [k];
      ScanEarliestYear(init);
      ScanEarliestSnoc(init, k);
      assert forall x :: x in keys <==> x in init || x == k;
      var e := ScanKeys(init).earliestYear;
      if e.Some? {
        var w :| w in init && Dated(w) && KeyYear(w) == e;
        assert w in keys;
      }
    }
  }

  /** When no dated key has year 0, the earliest year is exactly the smallest year. */
  lemma EarliestYearIsMinimum(keys: seq<string>)
    requires forall k :: k in keys && Dated(k) ==> KeyYear(k).value != 0
    ensures var b := ScanKeys(keys);
      b.earliestYear.Some? ==> forall k :: k in keys && Dated(k) ==> b.earliestYear.value <= KeyYear(k).value
  {
    ScanEarliestYear(keys);
  }

  /** A year-0 key seen first is never displaced by a later positive year: the earliest
      year depends on the order of the keys. */
  lemma EarliestYearOrderDependent()
    ensures ScanKeys(["0000-01-01", "2020-01-01"]).earliestYear == Some(0)
    ensures ScanKeys(["2020-01-01", "0000-01-01"]).earliestYear == Some(2020)
  {
    var a, b := "0000-01-01", "2020-01-01";
    ExampleYears();
    var none: seq<string> := [];
    assert none + [a] == [a] && none + [b] == [b];
    assert [a] + [b] == [a, b] && [b] + [a] == [b, a];
    ScanEarliestSnoc(none, a);
    ScanEarliestSnoc([a], b);
    ScanEarliestSnoc(none, b);
    ScanEarliestSnoc([b], a);
  }

  /** The two keys of `EarliestYearOrderDependent` are dated, with years 0 and 2020. */
  lemma ExampleYears()
    ensures Dated("0000-01-01") && KeyYear("0000-01-01") == Some(0)
    ensures Dated("2020-01-01") && KeyYear("2020-01-01") == Some(2020)
  {
    var a, b := "0000-01-01", "2020-01-01";
    assert IsoShape(a) && IsoShape(b);
    IsoKeyYear(a);
    IsoKeyYear(b);
    DateFields(a);
    DateFields(b);
    assert a[0] == a[1] == a[2] == a[3] == '0' && b[0] == b[2] == '2' && b[1] == b[3] == '0';
    assert DigitValue('0') == 0 && DigitValue('2') == 2;
    assert YearOf(a) == 0 && YearOf(b) == 2020;
  }

  /** The earliest year after one more key, apart from the other bounds. */
  lemma ScanEarliestSnoc(keys: seq<string>, k: string)
    ensures var e := ScanKeys(keys).earliestYear;
      ScanKeys(keys + [k]).earliestYear ==
        if !Dated(k) then e
        else if e.None? || (KeyYear(k).value != 0 && KeyYear(k).value < e.value) then KeyYear(k)
        else e
  {
    ScanSnoc(keys, k);
  }

  /** The extension only moves the real bounds outwards: afterwards the real first date is
      at most where it was and at most every non-empty snapshot key, and symmetrically for
      the real last date; each real bound is its old value or a snapshot key, never
      "Unknown" when the old one was not. */
  lemma {:induction false} ExtendBounds(b: Bounds, keys: seq<string>)
    ensures var e := ExtendKeys(b, keys);
      e.earliestYear == b.earliestYear && e.first == b.first && e.last == b.last &&
      (b.realFirst.Some? ==> e.realFirst.Some? && LexLeq(e.realFirst.value, b.realFirst.value)) &&
      (b.realLast.Some? ==> e.realLast.Some? && LexLeq(b.realLast.value, e.realLast.value)) &&
      (forall k :: k in keys && k != "Unknown" ==> e.realFirst.Some? && e.realLast.Some?) &&
      (forall k :: k in keys && k != "Unknown" && k != "" ==>
        LexLeq(e.realFirst.value, k) && LexLeq(k, e.realLast.value)) &&
      (e.realFirst == b.realFirst || (e.realFirst.Some? && e.realFirst.value in keys && e.realFirst.value != "Unknown")) &&
      (e.realLast == b.realLast || (e.realLast.Some? && e.realLast.value in keys && e.realLast.value != "Unknown"))
  {
    if keys != [] {
      var init, k := keys[..|keys| - 1], keys[|keys| - 1];
      assert keys == init + [k];
      ExtendBounds(b, init);
      var p := ExtendKeys(b, init);
      if k != "Unknown" {
        if p.realFirst.Some? {
          var f := p.realFirst.value;
          if k != "" && LexLess(k, f) {
            if b.realFirst.Some? && f != b.realFirst.value {
              LexTransitive(k, f, b.realFirst.value);
            }
            forall x | x in keys && x != "Unknown" && x != "" ensures LexLeq(k, x) {
              if x != k {
                assert x in init;
                if x != f { LexTransitive(k, f, x); }
              }
            }
          } else if k != "" {
            LexTotal(k, f);
          }
        } else {
          assert forall x :: x in init ==> x == "Unknown";
        }
        if p.realLast.Some? {
          var l := p.realLast.value;
          if k != "" && LexLess(l, k) {
            if b.realLast.Some? && l != b.realLast.value {
              LexTransitive(b.realLast.value, l, k);
            }
            forall x | x in keys && x != "Unknown" && x != "" ensures LexLeq(x, k) {
              if x != k {
                assert x in init;
                if x != l { LexTransitive(x, l, k); }
              }
            }
          } else if k != "" {
            LexTotal(k, l);
          }
        } else {
          assert forall x :: x in init ==> x == "Unknown";
        }
      }
    }
  }

  /** After `get_date_range`: the real first date is at most the first date and the real
      last date at least the last date; both real bounds cover every non-empty, non-"Unknown"
      snapshot key; no bound is "Unknown". */
  lemma RealBoundsExtend(keys: seq<string>, original: Option<seq<string>>)
    ensures var r := DateRange(keys, original);
      (r.first.Some? ==> r.realFirst.Some? && LexLeq(r.realFirst.value, r.first.value)) &&
      (r.last.Some? ==> r.realLast.Some? && LexLeq(r.last.value, r.realLast.value)) &&
      (original.Some? ==> forall k :: k in original.value && k != "Unknown" && k != "" ==>
        r.realFirst.Some? && r.realLast.Some? &&
        LexLeq(r.realFirst.value, k) && LexLeq(k, r.realLast.value)) &&
      r.first != Some("Unknown") && r.last != Some("Unknown") &&
      r.realFirst != Some("Unknown") && r.realLast != Some("Unknown")
  {
    var s := ScanKeys(keys);
    ScanFirstLast(keys);
    if original.Some? && original.value != [] {
      ExtendBounds(s, original.value);
    }
  }

  /** The example of a resumed download: the snapshot holds an older episode than the
      current scan, so only the real first date reaches back to it. */
  lemma SnapshotExtendsFirst()
    ensures var r := DateRange(["2021-01-01"], Some(["2020-01-01"]));
      r.first == Some("2021-01-01") && r.realFirst == Some("2020-01-01") &&
      r.last == Some("2021-01-01") && r.realLast == Some("2021-01-01")
  {
    var k, o := "2021-01-01", "2020-01-01";
    assert IsoShape(k);
    IsoKeyYear(k);
    var none: seq<string> := [];
    ScanSnoc(none, k);
    ExtendSnoc(ScanKeys([k]), none, o);
    assert none + [k] == [k] && none + [o] == [o];
    assert LexLess(o, k) by {
      assert o[1..][1..][1..] == "0-01-01" && k[1..][1..][1..] == "1-01-01";
    }
    LexAsymmetric(o, k);
  }
}
