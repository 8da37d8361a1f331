/** The order of C strings (strcmp), sorting, and dropping repeats: one list per set of ids. */
module IdOrder {

  predicate Below(a: string, b: string) {
    if b == [] then false
    else if a == [] then true
    else a[0] < b[0] || (a[0] == b[0] && Below(a[1..], b[1..]))
  }

  lemma {:induction false} BelowIsTotal(a: string, b: string)
    ensures a == b || Below(a, b) || Below(b, a)
    ensures !(Below(a, b) && Below(b, a)) && !Below(a, a)
  {
    if a != [] && b != [] {
      BelowIsTotal(a[1..], b[1..]);
      assert a == [a[0]] + a[1..] && b == [b[0]] + b[1..];
    }
    if a != [] { BelowIsTotal(a[1..], a[1..]); }
  }

  lemma {:induction false} BelowIsTransitive(a: string, b: string, c: string)
    requires Below(a, b) && Below(b, c)
    ensures Below(a, c)
  {
    if a != [] && b != [] && c != [] && a[0] == b[0] && b[0] == c[0] {
      BelowIsTransitive(a[1..], b[1..], c[1..]);
    }
  }

  ghost predicate Sorted(s: seq<string>) {
    forall i, j :: 0 <= i < j < |s| ==> s[i] == s[j] || Below(s[i], s[j])
  }

  ghost predicate StrictlySorted(s: seq<string>) {
    forall i, j :: 0 <= i < j < |s| ==> Below(s[i], s[j])
  }

  // ---- Sorting -----------------------------------------------------------------------------------

  function Insert(x: string, s: seq<string>): (r: seq<string>)
    ensures multiset(r) == multiset(s) + multiset{x}
  {
    if s == [] then [x]
    else if x == s[0] || Below(x, s[0]) then [x] + s
    else
      assert s == [s[0]] + s[1..];
      [s[0]] + Insert(x, s[1..])
  }

  /** The list in order, repeats kept. */
  function Sort(s: seq<string>): (r: seq<string>)
    ensures multiset(r) == multiset(s)
  {
    if s == [] then []
    else
      assert s == [s[0]] + s[1..];
      Insert(s[0], Sort(s[1..]))
  }

  lemma {:induction false} InsertKeepsSorted(x: string, s: seq<string>)
    requires Sorted(s)
    ensures Sorted(Insert(x, s))
  {
    if s == [] {
    } else if x == s[0] || Below(x, s[0]) {
      forall j | 0 <= j < |s| ensures x == s[j] || Below(x, s[j]) {
        if j > 0 && x != s[0] && s[0] != s[j] { BelowIsTransitive(x, s[0], s[j]); }
      }
    } else {
      BelowIsTotal(x, s[0]);
      InsertKeepsSorted(x, s[1..]);
      var t := Insert(x, s[1..]);
      forall j | 0 <= j < |t| ensures s[0] == t[j] || Below(s[0], t[j]) {
        assert t[j] in multiset(t);
        if t[j] != x {
          assert t[j] in s[1..];
        }
      }
    }
  }

  lemma {:induction false} SortSorts(s: seq<string>)
    ensures Sorted(Sort(s))
  {
    if s != [] {
      SortSorts(s[1..]);
      InsertKeepsSorted(s[0], Sort(s[1..]));
    }
  }

  lemma SortKeepsMembers(s: seq<string>)
    ensures |Sort(s)| == |s|
    ensures forall x :: x in Sort(s) <==> x in s
  {
    assert |multiset(Sort(s))| == |multiset(s)|;
    forall x ensures x in Sort(s) <==> x in s {
      assert x in multiset(Sort(s)) <==> x in multiset(s);
    }
  }

  // ---- Dropping repeats ----------------------------------------------------------------------------

  /** Each id once, in the order of first occurrence of a sorted list. */
  function Dedup(s: seq<string>): (d: seq<string>)
    ensures |d| <= |s|
    ensures s != [] ==> d != [] && d[|d| - 1] == s[|s| - 1]
  {
    if s == [] then []
    else
      var before := Dedup(s[..|s| - 1]);
      if before != [] && s[|s| - 1] == before[|before| - 1] then before else before + [s[|s| - 1]]
  }

  lemma {:induction false} DedupOfSorted(s: seq<string>)
    requires Sorted(s)
    ensures StrictlySorted(Dedup(s))
    ensures forall x :: x in Dedup(s) <==> x in s
  {
    if s != [] {
      var init, last := s[..|s| - 1], s[|s| - 1];
      DedupOfSorted(init);
      assert s == init + [last];
      var before := Dedup(init);
      if before != [] && last != before[|before| - 1] {
        var m := |before| - 1;
        assert before[m] == init[|init| - 1];
        assert Below(before[m], last);
        forall i | 0 <= i < m ensures Below(before[i], last) {
          BelowIsTransitive(before[i], before[m], last);
        }
      }
    }
  }

  /** The sorted list of distinct ids. */
  function Canonical(ids: seq<string>): seq<string> {
    Dedup(Sort(ids))
  }

  lemma CanonicalOf(ids: seq<string>)
    ensures StrictlySorted(Canonical(ids))
    ensures forall x :: x in Canonical(ids) <==> x in ids
    ensures |Canonical(ids)| == |set x | x in ids|
    ensures ids != [] ==> Canonical(ids) != []
  {
    hide Below, Sort, Dedup;
    SortSorts(ids);
    SortKeepsMembers(ids);
    DedupOfSorted(Sort(ids));
    DistinctCount(Canonical(ids));
    assert (set x | x in ids) == (set x | x in Canonical(ids));
    if ids != [] { assert ids[0] in Canonical(ids); }
  }

  lemma {:induction false} DistinctCount(s: seq<string>)
    requires StrictlySorted(s)
    ensures |set x | x in s| == |s|
  {
    hide Below;
    if s != [] {
      var init, last := s[..|s| - 1], s[|s| - 1];
      DistinctCount(init);
      if last in init {
        var i :| 0 <= i < |init| && init[i] == last;
        assert Below(s[i], s[|s| - 1]);
        BelowIsTotal(last, last);
      }
      assert (set x | x in s) == (set x | x in init) + {last};
    }
  }

  /** Two strictly sorted lists of the same ids are the same list. */
  lemma {:induction false} StrictlySortedUnique(a: seq<string>, b: seq<string>)
    requires StrictlySorted(a) && StrictlySorted(b)
    requires forall x :: x in a <==> x in b
    ensures a == b
  {
    hide Below;
    if a == [] {
      SameMembersSameEmptiness(a, b);
    } else {
      assert a[0] in b;
      assert b != [] && b[0] in a;
      FirstIsLeast(a, b[0]);
      FirstIsLeast(b, a[0]);
      BelowIsTotal(a[0], b[0]);
      assert a[0] == b[0];
      FirstNotInRest(a);
      FirstNotInRest(b);
      StrictlySortedUnique(a[1..], b[1..]);
      assert a == [a[0]] + a[1..] && b == [b[0]] + b[1..];
    }
  }

  lemma SameMembersSameEmptiness(a: seq<string>, b: seq<string>)
    requires forall x :: x in a <==> x in b
    ensures a == [] <==> b == []
  {
    if a != [] { assert a[0] in b; }
    if b != [] { assert b[0] in a; }
  }

  lemma FirstIsLeast(s: seq<string>, x: string)
    requires StrictlySorted(s) && x in s
    ensures x == s[0] || Below(s[0], x)
  {
  }

  lemma FirstNotInRest(s: seq<string>)
    requires StrictlySorted(s) && s != []
    ensures s[0] !in s[1..] && StrictlySorted(s[1..])
    ensures forall x :: x in s[1..] <==> x in s && x != s[0]
  {
    BelowIsTotal(s[0], s[0]);
  }

  /** The canonical list depends on the set of ids alone. */
  lemma CanonicalDependsOnSet(a: seq<string>, b: seq<string>)
    requires forall x :: x in a <==> x in b
    ensures Canonical(a) == Canonical(b)
  {
    hide Below, Canonical;
    CanonicalOf(a);
    CanonicalOf(b);
    StrictlySortedUnique(Canonical(a), Canonical(b));
  }

  /** qsort with strcmp. */
  method QSort(ids: array<string>)
    modifies ids
    ensures ids[..] == Sort(old(ids[..]))
  {
    hide Sort, Below;
    var sorted := Sort(ids[..]);
    SortKeepsMembers(ids[..]);
    var i := 0;
    while i < ids.Length
      invariant 0 <= i <= ids.Length
      invariant forall k :: 0 <= k < i ==> ids[k] == sorted[k]
    {
      ids[i] := sorted[i];
      i := i + 1;
    }
    assert ids[..] == sorted;
  }
}
