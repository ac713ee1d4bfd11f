/**
 * The option registry of `Commander`: lookup of an option by its short or long form, and the
 * order `add_option` keeps the options in (ascending by short form, by a stable sort).
 */
module Registry {
  import opened Wrappers
  import opened Strings
  import opened Types

  /** The test `get_supported_option` applies: the long form when `isLong`, else the short form. */
  predicate Matches(o: CmdLineOption, token: string, isLong: bool)
  {
    (!isLong && o.shortform == token) || (isLong && o.longform == token)
  }

  /**
   * `get_supported_option`: the first option, in registry order, that matches `token`; `None`
   * exactly when no option matches.
   */
  function FindOption(opts: seq<CmdLineOption>, token: string, isLong: bool): (r: Option<CmdLineOption>)
    ensures r.None? <==> forall i :: 0 <= i < |opts| ==> !Matches(opts[i], token, isLong)
    ensures r.Some? ==> exists i :: 0 <= i < |opts| && opts[i] == r.value && Matches(opts[i], token, isLong)
                                    && forall j :: 0 <= j < i ==> !Matches(opts[j], token, isLong)
    decreases |opts|
  {
    if opts == [] then None
    else if Matches(opts[0], token, isLong) then Some(opts[0])
    else FindOption(opts[1..], token, isLong)
  }

  /** An option that matches, with no match before it, is the one the lookup returns. */
  lemma FindFirstMatch(opts: seq<CmdLineOption>, token: string, isLong: bool, i: nat)
    requires i < |opts| && Matches(opts[i], token, isLong)
    requires forall j :: 0 <= j < i ==> !Matches(opts[j], token, isLong)
    ensures FindOption(opts, token, isLong) == Some(opts[i])
  {
    var r := FindOption(opts, token, isLong);
    var i' :| 0 <= i' < |opts| && opts[i'] == r.value && Matches(opts[i'], token, isLong)
              && forall j :: 0 <= j < i' ==> !Matches(opts[j], token, isLong);
    assert i' == i;
  }

  /** The options at `i` and `i + 1` are in ascending order of short form. */
  predicate InOrderAt(s: seq<CmdLineOption>, i: nat)
    requires i + 1 < |s|
  {
    NotAfter(s[i].shortform, s[i + 1].shortform)
  }

  /** Neighbouring options are in ascending order of short form. */
  predicate SortedByShort(s: seq<CmdLineOption>)
  {
    forall i :: 0 <= i < |s| - 1 ==> InOrderAt(s, i)
  }

  /** In a sorted registry every option sorts no later than every option after it. */
  lemma {:induction false} SortedPairwise(s: seq<CmdLineOption>, i: nat, j: nat)
    requires SortedByShort(s) && i <= j < |s|
    ensures NotAfter(s[i].shortform, s[j].shortform)
    decreases j - i
  {
    if i == j {
      CmpEqualIff(s[i].shortform, s[j].shortform);
    } else {
      SortedPairwise(s, i, j - 1);
      assert InOrderAt(s, j - 1);
      CmpTransitive(s[i].shortform, s[j - 1].shortform, s[j].shortform);
    }
  }

  /** The options of `s` whose short form is `k`, in their order in `s`. */
  function KeyFilter(s: seq<CmdLineOption>, k: string): (r: seq<CmdLineOption>)
    decreases |s|
  {
    if s == [] then [] else (if s[0].shortform == k then [s[0]] else []) + KeyFilter(s[1..], k)
  }

  lemma {:induction false} KeyFilterConcat(a: seq<CmdLineOption>, b: seq<CmdLineOption>, k: string)
    ensures KeyFilter(a + b, k) == KeyFilter(a, k) + KeyFilter(b, k)
    decreases |a|
  {
    if a == [] {
      assert a + b == b;
    } else {
      assert (a + b)[1..] == a[1..] + b;
      KeyFilterConcat(a[1..], b, k);
    }
  }

  lemma {:induction false} KeyFilterAbsent(s: seq<CmdLineOption>, k: string)
    requires forall m :: 0 <= m < |s| ==> s[m].shortform != k
    ensures KeyFilter(s, k) == []
    decreases |s|
  {
    if s != [] {
      KeyFilterAbsent(s[1..], k);
    }
  }

  /** Putting `x` before a run `b` of options with other short forms keeps the options of short form `k` in order. */
  lemma MoveBeforeKeepsKeyFilter(a: seq<CmdLineOption>, b: seq<CmdLineOption>, x: CmdLineOption, c: seq<CmdLineOption>, k: string)
    requires forall m :: 0 <= m < |b| ==> b[m].shortform != x.shortform
    ensures KeyFilter(a + [x] + b + c, k) == KeyFilter(a + b + [x] + c, k)
  {
    var fa, fx, fb, fc := KeyFilter(a, k), KeyFilter([x], k), KeyFilter(b, k), KeyFilter(c, k);
    KeyFilterConcat(a + [x] + b, c, k);
    KeyFilterConcat(a + [x], b, k);
    KeyFilterConcat(a, [x], k);
    assert KeyFilter(a + [x] + b + c, k) == fa + fx + fb + fc;
    KeyFilterConcat(a + b + [x], c, k);
    KeyFilterConcat(a + b, [x], k);
    KeyFilterConcat(a, b, k);
    assert KeyFilter(a + b + [x] + c, k) == fa + fb + fx + fc;
    if k == x.shortform {
      KeyFilterAbsent(b, k);
      assert fa + fx + [] == fa + [] + fx;
    } else {
      assert fx == [];
      assert fa + [] + fb == fa + fb + [];
    }
  }

  /** Moving `x` in front of options with other short forms permutes the options stably. */
  lemma MoveBeforeIsStable(a: seq<CmdLineOption>, b: seq<CmdLineOption>, x: CmdLineOption, c: seq<CmdLineOption>)
    requires forall m :: 0 <= m < |b| ==> b[m].shortform != x.shortform
    ensures multiset(a + [x] + b + c) == multiset(a + b + [x] + c)
    ensures forall k :: KeyFilter(a + [x] + b + c, k) == KeyFilter(a + b + [x] + c, k)
  {
    forall k
      ensures KeyFilter(a + [x] + b + c, k) == KeyFilter(a + b + [x] + c, k)
    {
      MoveBeforeKeepsKeyFilter(a, b, x, c, k);
    }
  }

  /** Inserting `x` after everything no greater and before a run of greater short forms keeps the order. */
  lemma InsertKeepsSorted(a: seq<CmdLineOption>, x: CmdLineOption, b: seq<CmdLineOption>)
    requires SortedByShort(a + b)
    requires a != [] ==> Cmp(x.shortform, a[|a| - 1].shortform) != Less
    requires forall m :: 0 <= m < |b| ==> Cmp(x.shortform, b[m].shortform) == Less
    ensures SortedByShort(a + [x] + b)
  {
    var t := a + [x] + b;
    var ab := a + b;
    if a != [] {
      CmpReverse(x.shortform, a[|a| - 1].shortform);
    }
    forall i | 0 <= i < |t| - 1
      ensures InOrderAt(t, i)
    {
      if i < |a| - 1 {
        assert InOrderAt(ab, i);
        assert t[i] == ab[i] && t[i + 1] == ab[i + 1];
      } else if i == |a| - 1 {
        assert t[i] == a[|a| - 1] && t[i + 1] == x;
      } else if i == |a| {
        assert t[i] == x && t[i + 1] == b[0];
      } else {
        assert InOrderAt(ab, i - 1);
        assert t[i] == ab[i - 1] && t[i + 1] == ab[i];
      }
    }
  }

  /** `r` with its element at `i` moved to position `j <= i`. */
  function MoveTo(r: seq<CmdLineOption>, i: nat, j: nat): (r': seq<CmdLineOption>)
    requires j <= i < |r|
    ensures |r'| == |r|
  {
    r[..j] + [r[i]] + r[j..i] + r[i + 1..]
  }

  lemma SplitAround(r: seq<CmdLineOption>, i: nat, j: nat)
    requires j <= i < |r|
    ensures r == r[..j] + r[j..i] + [r[i]] + r[i + 1..]
    ensures r[..i] == r[..j] + r[j..i]
  {
    assert r[..j] + r[j..i] == r[..i];
    assert r[..i] + [r[i]] == r[..i + 1];
    assert r[..i + 1] + r[i + 1..] == r;
  }

  /** One step of insertion sort keeps the prefix sorted: `r[i]` moved into place in the sorted `r[..i]`. */
  lemma InsertionStepSorted(r: seq<CmdLineOption>, i: nat, j: nat)
    requires j <= i < |r|
    requires SortedByShort(r[..i])
    requires j > 0 ==> Cmp(r[i].shortform, r[j - 1].shortform) != Less
    requires forall m :: j <= m < i ==> Cmp(r[i].shortform, r[m].shortform) == Less
    ensures SortedByShort(MoveTo(r, i, j)[..i + 1])
  {
    var x, a, b := r[i], r[..j], r[j..i];
    SplitAround(r, i, j);
    assert MoveTo(r, i, j)[..i + 1] == a + [x] + b;
    forall m | 0 <= m < |b|
      ensures Cmp(x.shortform, b[m].shortform) == Less
    {
      assert b[m] == r[j + m];
    }
    InsertKeepsSorted(a, x, b);
  }

  /** One step of insertion sort keeps the options, and the order of those with equal short forms. */
  lemma InsertionStepStable(r: seq<CmdLineOption>, i: nat, j: nat)
    requires j <= i < |r|
    requires forall m :: j <= m < i ==> Cmp(r[i].shortform, r[m].shortform) == Less
    ensures multiset(MoveTo(r, i, j)) == multiset(r)
    ensures forall k :: KeyFilter(MoveTo(r, i, j), k) == KeyFilter(r, k)
  {
    var x, a, b, c := r[i], r[..j], r[j..i], r[i + 1..];
    SplitAround(r, i, j);
    assert MoveTo(r, i, j) == a + [x] + b + c;
    forall m | 0 <= m < |b|
      ensures b[m].shortform != x.shortform
    {
      assert b[m] == r[j + m];
      CmpEqualIff(x.shortform, b[m].shortform);
    }
    MoveBeforeIsStable(a, b, x, c);
  }

  /**
   * The library's stable sort by short form (`sort_by` comparing short forms), by insertion:
   * the result is sorted, holds the same options, and options with equal short forms keep
   * their relative order.
   */
  method SortByShortform(s: seq<CmdLineOption>) returns (r: seq<CmdLineOption>)
    ensures SortedByShort(r)
    ensures multiset(r) == multiset(s)
    ensures forall k :: KeyFilter(r, k) == KeyFilter(s, k)
  {
    r := s;
    var i := 0;
    while i < |r|
      invariant 0 <= i <= |r| == |s|
      invariant SortedByShort(r[..i])
      invariant multiset(r) == multiset(s)
      invariant forall k :: KeyFilter(r, k) == KeyFilter(s, k)
    {
      var x := r[i];
      var j := i;
      while j > 0 && Cmp(x.shortform, r[j - 1].shortform) == Less
        invariant 0 <= j <= i
        invariant forall m :: j <= m < i ==> Cmp(x.shortform, r[m].shortform) == Less
      {
        j := j - 1;
      }
      InsertionStepSorted(r, i, j);
      InsertionStepStable(r, i, j);
      r := MoveTo(r, i, j);
      i := i + 1;
    }
    assert r[..i] == r;
  }

  /** How many leading options of `s` have a short form no greater than `k`. */
  function InsertionPoint(s: seq<CmdLineOption>, k: string): (p: nat)
    ensures p <= |s|
    decreases |s|
  {
    if s == [] || Cmp(s[0].shortform, k) == Greater then 0 else 1 + InsertionPoint(s[1..], k)
  }

  /** `o` placed after every option whose short form is no greater than its own. */
  function Inserted(s: seq<CmdLineOption>, o: CmdLineOption): seq<CmdLineOption>
  {
    var p := InsertionPoint(s, o.shortform);
    s[..p] + [o] + s[p..]
  }

  /** In a sorted registry the insertion point splits the options into "no greater" and "greater". */
  lemma {:induction false} InsertionPointSplits(s: seq<CmdLineOption>, k: string)
    requires SortedByShort(s)
    ensures forall m :: 0 <= m < InsertionPoint(s, k) ==> NotAfter(s[m].shortform, k)
    ensures forall m :: InsertionPoint(s, k) <= m < |s| ==> Cmp(s[m].shortform, k) == Greater
    decreases |s|
  {
    if s != [] {
      if Cmp(s[0].shortform, k) == Greater {
        forall m | 0 <= m < |s|
          ensures Cmp(s[m].shortform, k) == Greater
        {
          SortedPairwise(s, 0, m);
          if Cmp(s[m].shortform, k) != Greater {
            CmpTransitive(s[0].shortform, s[m].shortform, k);
          }
        }
      } else {
        assert SortedByShort(s[1..]) by {
          forall i | 0 <= i < |s[1..]| - 1
            ensures InOrderAt(s[1..], i)
          {
            assert InOrderAt(s, i + 1);
            assert s[1..][i] == s[i + 1] && s[1..][i + 1] == s[i + 2];
          }
        }
        InsertionPointSplits(s[1..], k);
        forall m | 1 <= m < |s|
          ensures s[m] == s[1..][m - 1]
        {
        }
      }
    }
  }

  /**
   * In a sorted registry, `o` sorts no earlier than the options before its insertion point and
   * strictly before those after it, so none of the latter shares its short form.
   */
  lemma InsertionSplit(s: seq<CmdLineOption>, o: CmdLineOption)
    requires SortedByShort(s)
    ensures var p := InsertionPoint(s, o.shortform);
      p > 0 ==> Cmp(o.shortform, s[..p][p - 1].shortform) != Less
    ensures var p := InsertionPoint(s, o.shortform);
      forall m :: 0 <= m < |s[p..]| ==> Cmp(o.shortform, s[p..][m].shortform) == Less && s[p..][m].shortform != o.shortform
  {
    var p := InsertionPoint(s, o.shortform);
    var a, b := s[..p], s[p..];
    InsertionPointSplits(s, o.shortform);
    if p > 0 {
      assert a[p - 1] == s[p - 1];
      CmpReverse(s[p - 1].shortform, o.shortform);
    }
    forall m | 0 <= m < |b|
      ensures Cmp(o.shortform, b[m].shortform) == Less && b[m].shortform != o.shortform
    {
      assert b[m] == s[p + m];
      CmpReverse(b[m].shortform, o.shortform);
      CmpEqualIff(o.shortform, b[m].shortform);
    }
  }

  lemma InsertedSorted(s: seq<CmdLineOption>, o: CmdLineOption)
    requires SortedByShort(s)
    ensures SortedByShort(Inserted(s, o))
  {
    var p := InsertionPoint(s, o.shortform);
    var a, b := s[..p], s[p..];
    assert s == a + b;
    InsertionSplit(s, o);
    InsertKeepsSorted(a, o, b);
  }

  /** In the pushed vector, the pushed option sorts strictly before every option after its insertion point. */
  lemma PushedSortsBefore(s: seq<CmdLineOption>, o: CmdLineOption)
    requires SortedByShort(s)
    ensures forall m :: InsertionPoint(s, o.shortform) <= m < |s| ==>
      Cmp((s + [o])[|s|].shortform, (s + [o])[m].shortform) == Less
  {
    var p := InsertionPoint(s, o.shortform);
    var r := s + [o];
    InsertionSplit(s, o);
    forall m | p <= m < |s|
      ensures Cmp(r[|s|].shortform, r[m].shortform) == Less
    {
      assert r[m] == s[p..][m - p];
    }
  }

  /** Inserting `o` is moving it, once pushed, back to its insertion point. */
  lemma InsertedIsMoveTo(s: seq<CmdLineOption>, o: CmdLineOption)
    ensures MoveTo(s + [o], |s|, InsertionPoint(s, o.shortform)) == Inserted(s, o)
  {
    var p := InsertionPoint(s, o.shortform);
    PushSlices(s, o, p);
    AppendEmpty(s[..p] + [o] + s[p..]);
  }

  lemma PushSlices(s: seq<CmdLineOption>, o: CmdLineOption, p: nat)
    requires p <= |s|
    ensures (s + [o])[..p] == s[..p] && (s + [o])[p..|s|] == s[p..]
    ensures (s + [o])[|s|] == o && (s + [o])[|s| + 1..] == []
  {
  }

  lemma AppendEmpty(x: seq<CmdLineOption>)
    ensures x + [] == x
  {
  }

  lemma InsertedPermutes(s: seq<CmdLineOption>, o: CmdLineOption)
    requires SortedByShort(s)
    ensures multiset(Inserted(s, o)) == multiset(s + [o])
    ensures forall k :: KeyFilter(Inserted(s, o), k) == KeyFilter(s + [o], k)
  {
    PushedSortsBefore(s, o);
    InsertionStepStable(s + [o], |s|, InsertionPoint(s, o.shortform));
    InsertedIsMoveTo(s, o);
  }

  /**
   * Inserting into a sorted registry keeps it sorted, adds exactly `o`, and puts `o` after the
   * options that share its short form, as appending it would.
   */
  lemma InsertedIsStable(s: seq<CmdLineOption>, o: CmdLineOption)
    requires SortedByShort(s)
    ensures SortedByShort(Inserted(s, o))
    ensures multiset(Inserted(s, o)) == multiset(s + [o])
    ensures forall k :: KeyFilter(Inserted(s, o), k) == KeyFilter(s + [o], k)
  {
    InsertedSorted(s, o);
    InsertedPermutes(s, o);
  }

  /** Dropping the first option of a sorted registry leaves it sorted. */
  lemma SortedTail(r: seq<CmdLineOption>)
    requires r != [] && SortedByShort(r)
    ensures SortedByShort(r[1..])
  {
    forall m | 0 <= m < |r| - 2
      ensures InOrderAt(r[1..], m)
    {
      assert InOrderAt(r, m + 1);
      assert r[1..][m] == r[m + 1];
    }
  }

  /** Two sorted arrangements of the same options, stable per short form, start with the same option. */
  lemma SameFirst(r1: seq<CmdLineOption>, r2: seq<CmdLineOption>)
    requires r1 != [] && SortedByShort(r1) && SortedByShort(r2)
    requires multiset(r1) == multiset(r2)
    requires forall k :: KeyFilter(r1, k) == KeyFilter(r2, k)
    ensures r2 != [] && r1[0] == r2[0]
  {
    var x1 := r1[0];
    assert x1 in multiset(r1);
    assert x1 in r2;
    var j :| 0 <= j < |r2| && r2[j] == x1;
    var x2 := r2[0];
    SortedPairwise(r2, 0, j);
    assert x2 in multiset(r2);
    assert x2 in r1;
    var i :| 0 <= i < |r1| && r1[i] == x2;
    SortedPairwise(r1, 0, i);
    CmpReverse(x1.shortform, x2.shortform);
    CmpEqualIff(x1.shortform, x2.shortform);
    assert x1.shortform == x2.shortform;
    var k := x1.shortform;
    assert KeyFilter(r1, k) == [x1] + KeyFilter(r1[1..], k);
    assert KeyFilter(r2, k) == [x2] + KeyFilter(r2[1..], k);
    assert x1 == KeyFilter(r1, k)[0] == KeyFilter(r2, k)[0] == x2;
  }

  /** Removing the same first option from two stable arrangements keeps them stable arrangements of each other. */
  lemma SameTails(r1: seq<CmdLineOption>, r2: seq<CmdLineOption>)
    requires r1 != [] && r2 != [] && r1[0] == r2[0]
    requires multiset(r1) == multiset(r2)
    requires forall k :: KeyFilter(r1, k) == KeyFilter(r2, k)
    ensures multiset(r1[1..]) == multiset(r2[1..])
    ensures forall k :: KeyFilter(r1[1..], k) == KeyFilter(r2[1..], k)
  {
    var x := r1[0];
    assert r1 == [x] + r1[1..];
    assert r2 == [x] + r2[1..];
    assert multiset(r1[1..]) == multiset(r1) - multiset{x};
    assert multiset(r2[1..]) == multiset(r2) - multiset{x};
    forall k ensures KeyFilter(r1[1..], k) == KeyFilter(r2[1..], k)
    {
      var h := if x.shortform == k then [x] else [];
      assert KeyFilter(r1[1..], k) == KeyFilter(r1, k)[|h|..];
      assert KeyFilter(r2[1..], k) == KeyFilter(r2, k)[|h|..];
    }
  }

  /**
   * A sorted arrangement is fixed by its options and by the order of the options within each
   * short form: any two such arrangements are equal.
   */
  lemma {:induction false} SortedArrangementUnique(r1: seq<CmdLineOption>, r2: seq<CmdLineOption>)
    requires SortedByShort(r1) && SortedByShort(r2)
    requires multiset(r1) == multiset(r2)
    requires forall k :: KeyFilter(r1, k) == KeyFilter(r2, k)
    ensures r1 == r2
    decreases |r1|
  {
    if r1 == [] {
      assert |multiset(r2)| == 0;
    } else {
      SameFirst(r1, r2);
      SameTails(r1, r2);
      SortedTail(r1);
      SortedTail(r2);
      SortedArrangementUnique(r1[1..], r2[1..]);
      assert r1 == [r1[0]] + r1[1..];
      assert r2 == [r2[0]] + r2[1..];
    }
  }

  /**
   * Pushing `o` onto a sorted registry and re-sorting it stably gives `Inserted(s, o)`,
   * whatever stable sort does the work.
   */
  lemma SortedPushIsInserted(s: seq<CmdLineOption>, o: CmdLineOption, r: seq<CmdLineOption>)
    requires SortedByShort(s)
    requires SortedByShort(r) && multiset(r) == multiset(s + [o])
    requires forall k :: KeyFilter(r, k) == KeyFilter(s + [o], k)
    ensures r == Inserted(s, o)
  {
    InsertedIsStable(s, o);
    SortedArrangementUnique(r, Inserted(s, o));
  }
}
