/**
 The disk spool of gateway/spool.mjs: one file per waiting bundle, named by a sequence number padded
 to twelve digits, listed in the order of the names.
 */
module Spool {
  import opened Decimals
  import opened IdOrder

  const WIDTH := 12
  const NAME_LIMIT: nat := 1_000_000_000_000
  /** 2^53: below it a JavaScript number counts exactly. */
  const EXACT: nat := 0x20_0000_0000_0000

  // ---- Names -----------------------------------------------------------------------------------------

  /** `String(n).padStart(12, "0")` */
  function Padded(n: nat): string {
    var s := Decimal(n);
    if |s| >= WIDTH then s else Repeat('0', WIDTH - |s|) + s
  }

  function Repeat(c: char, k: nat): (s: string)
    ensures |s| == k
  {
    seq(k, _ => c)
  }

  const SUFFIX := ".bundle"

  function Name(n: nat): string {
    Padded(n) + SUFFIX
  }

  predicate EndsWith(s: string, t: string) {
    |t| <= |s| && s[|s| - |t|..] == t
  }

  /** `Number(f.split(".")[0])` of a spool file's name. */
  function NumberOfName(f: string): nat {
    var k := DotAt(f);
    if forall i :: 0 <= i < k ==> IsDigit(f[i]) then NumberOf(f[..k]) else 0
  }

  function DotAt(f: string): (k: nat)
    ensures k <= |f|
  {
    if f == [] || f[0] == '.' then 0 else 1 + DotAt(f[1..])
  }

  // ---- Names say which bundle is older, below the limit ------------------------------------------------

  function Pow10(k: nat): (p: nat)
    ensures p > 0
  {
    if k == 0 then 1 else 10 * Pow10(k - 1)
  }

  /** n in exactly k digits. */
  function Fixed(n: nat, k: nat): (s: string)
    ensures |s| == k && forall i :: 0 <= i < k ==> IsDigit(s[i])
  {
    if k == 0 then [] else Fixed(n / 10, k - 1) + [Digit(n % 10)]
  }

  lemma {:induction false} DecimalLength(n: nat, k: nat)
    requires k > 0
    ensures |Decimal(n)| <= k <==> n < Pow10(k)
    decreases k
  {
    if n >= 10 && k > 1 { DecimalLength(n / 10, k - 1); }
    if k == 1 { assert Pow10(1) == 10; }
  }

  lemma {:induction false} FixedOfZero(k: nat)
    ensures Fixed(0, k) == Repeat('0', k)
  {
    if k > 0 { FixedOfZero(k - 1); }
  }

  lemma {:induction false} FixedIsPadded(n: nat, k: nat)
    requires |Decimal(n)| <= k
    ensures Fixed(n, k) == Repeat('0', k - |Decimal(n)|) + Decimal(n)
    decreases k
  {
    if n < 10 {
      FixedOfZero(k - 1);
      assert Repeat('0', k - 1) + [Digit(n)] == Repeat('0', k - |Decimal(n)|) + Decimal(n);
    } else {
      FixedIsPadded(n / 10, k - 1);
      var pad := Repeat('0', k - |Decimal(n)|);
      assert (pad + Decimal(n / 10)) + [Digit(n % 10)] == pad + (Decimal(n / 10) + [Digit(n % 10)]);
    }
  }

  lemma AppendDigit(s: string, d: nat)
    requires d < 10 && forall i :: 0 <= i < |s| ==> IsDigit(s[i])
    ensures NumberOf(s + [Digit(d)]) == NumberOf(s) * 10 + d
  {
    assert (s + [Digit(d)])[..|s|] == s;
  }

  lemma {:induction false} FixedValue(n: nat, k: nat)
    requires n < Pow10(k)
    ensures NumberOf(Fixed(n, k)) == n
  {
    if k > 0 {
      FixedValue(n / 10, k - 1);
      AppendDigit(Fixed(n / 10, k - 1), n % 10);
    }
  }

  lemma {:induction false} BelowAppend(a: string, b: string, s: string, t: string)
    requires |a| == |b|
    ensures Below(a, b) ==> Below(a + s, b + t)
    ensures a == b ==> (Below(a + s, b + t) <==> Below(s, t))
  {
    if a == [] {
      assert a + s == s && b + t == t;
    } else {
      BelowAppend(a[1..], b[1..], s, t);
      assert (a + s)[1..] == a[1..] + s && (b + t)[1..] == b[1..] + t;
      if a == b { assert a[1..] == b[1..]; }
    }
  }

  lemma {:induction false} FixedInOrder(n: nat, m: nat, k: nat)
    requires n < m < Pow10(k)
    ensures Below(Fixed(n, k), Fixed(m, k))
  {
    var a, b := Fixed(n / 10, k - 1), Fixed(m / 10, k - 1);
    var x, y := [Digit(n % 10)], [Digit(m % 10)];
    if n / 10 < m / 10 {
      FixedInOrder(n / 10, m / 10, k - 1);
    } else {
      assert Below(x, y);
    }
    BelowAppend(a, b, x, y);
  }

  lemma TwelveDigits()
    ensures Pow10(WIDTH) == NAME_LIMIT
  {
    assert Pow10(3) == 1000 by { assert Pow10(2) == 10 * Pow10(1); }
    assert Pow10(6) == 1000000 by { assert Pow10(5) == 10 * Pow10(4); }
    assert Pow10(9) == 1000000000 by { assert Pow10(8) == 10 * Pow10(7); }
    assert Pow10(12) == 10 * Pow10(11) == 100 * Pow10(10);
  }

  lemma PaddedIsFixed(n: nat)
    requires n < NAME_LIMIT
    ensures Padded(n) == Fixed(n, WIDTH)
  {
    hide Decimal, Fixed, Pow10;
    TwelveDigits();
    DecimalLength(n, WIDTH);
    FixedIsPadded(n, WIDTH);
    if |Decimal(n)| == WIDTH { assert Repeat('0', 0) + Decimal(n) == Decimal(n); }
  }

  lemma NamesInOrder(n: nat, m: nat)
    requires n < m < NAME_LIMIT
    ensures Below(Name(n), Name(m))
  {
    hide Fixed, Padded, Below;
    TwelveDigits();
    PaddedIsFixed(n);
    PaddedIsFixed(m);
    FixedInOrder(n, m, WIDTH);
    BelowAppend(Fixed(n, WIDTH), Fixed(m, WIDTH), SUFFIX, SUFFIX);
  }

  /** The first number with thirteen digits sorts before the last with twelve. */
  lemma LimitBreaksOrder()
    ensures Below(Name(NAME_LIMIT), Name(NAME_LIMIT - 1))
  {
    hide Below;
    TwelveDigits();
    DecimalLength(NAME_LIMIT, WIDTH);
    PaddedIsFixed(NAME_LIMIT - 1);
    LeadingDigit(NAME_LIMIT, 12);
    FixedLeading(NAME_LIMIT - 1, 12);
    var a, b := Name(NAME_LIMIT), Name(NAME_LIMIT - 1);
    assert a[0] == '1' && b[0] == '9';
    BelowByFirst(a, b);
  }

  lemma BelowByFirst(a: string, b: string)
    requires a != [] && b != [] && a[0] < b[0]
    ensures Below(a, b)
  {
  }

  lemma {:induction false} LeadingDigit(n: nat, k: nat)
    requires n == Pow10(k)
    ensures Decimal(n)[0] == '1'
    decreases k
  {
    if k == 0 {
      assert Digit(1) == '1';
    } else {
      LeadingDigit(n / 10, k - 1);
    }
  }

  lemma {:induction false} FixedLeading(n: nat, k: nat)
    requires k > 0 && n == Pow10(k) - 1
    ensures Fixed(n, k)[0] == '9'
    decreases k
  {
    if k == 1 {
      assert Pow10(1) == 10;
      assert Digit(9) == '9';
    } else {
      FixedLeading(n / 10, k - 1);
    }
  }

  /** Exactly how far the order of names is the order of arrival. */
  lemma NameOrderIsNumericIff(limit: nat)
    ensures (forall n, m :: 0 <= n < m <= limit ==> Below(Name(n), Name(m))) <==> limit < NAME_LIMIT
  {
    hide Name, Below;
    if limit < NAME_LIMIT {
      forall n, m | 0 <= n < m <= limit ensures Below(Name(n), Name(m)) { NamesInOrder(n, m); }
    } else {
      LimitBreaksOrder();
      BelowIsTotal(Name(NAME_LIMIT), Name(NAME_LIMIT - 1));
    }
  }

  // ---- Names and numbers are interchangeable --------------------------------------------------------------

  lemma {:induction false} DotAfterDigits(s: string, t: string)
    requires forall i :: 0 <= i < |s| ==> IsDigit(s[i])
    requires t != [] && t[0] == '.'
    ensures DotAt(s + t) == |s|
  {
    if s == [] {
      assert s + t == t;
    } else {
      DotAfterDigits(s[1..], t);
      assert (s + t)[1..] == s[1..] + t;
    }
  }

  /** Padded or not, the digits are the number's. */
  lemma PaddedValue(n: nat)
    ensures forall i :: 0 <= i < |Padded(n)| ==> IsDigit(Padded(n)[i])
    ensures NumberOf(Padded(n)) == n
  {
    hide Decimal, Fixed, Pow10, NumberOf;
    TwelveDigits();
    if n < NAME_LIMIT {
      PaddedIsFixed(n);
      FixedValue(n, WIDTH);
    } else {
      DecimalLength(n, WIDTH);
      NumberOfDecimal(n);
    }
  }

  lemma NameReadsBack(n: nat)
    ensures NumberOfName(Name(n)) == n && EndsWith(Name(n), SUFFIX)
  {
    hide Padded, NumberOf;
    PaddedValue(n);
    DotAfterDigits(Padded(n), SUFFIX);
    assert Name(n)[..|Padded(n)|] == Padded(n);
  }

  function TmpName(n: nat): string {
    Name(n) + ".tmp"
  }

  lemma TmpIsNoBundle(n: nat)
    ensures !EndsWith(TmpName(n), SUFFIX)
  {
    var s := TmpName(n);
    assert s[|s| - 7..][6] == s[|s| - 1] == 'p';
    assert SUFFIX[6] == 'e';
  }

  lemma NamesDiffer(n: nat, m: nat)
    ensures Name(n) == Name(m) <==> n == m
    ensures Name(n) != TmpName(m) && (TmpName(n) == TmpName(m) <==> n == m)
  {
    hide Name, NumberOfName;
    NameReadsBack(n);
    NameReadsBack(m);
    TmpIsNoBundle(m);
    if TmpName(n) == TmpName(m) {
      assert TmpName(n)[..|TmpName(n)| - 4] == Name(n) && TmpName(m)[..|TmpName(m)| - 4] == Name(m);
    }
  }

  // ---- The spool object ------------------------------------------------------------------------------------

  /** Directory contents: what spools have put there, finished bundles and abandoned temporaries. */
  ghost predicate OwnFiles(dir: map<string, seq<int>>) {
    forall f :: f in dir ==> exists n: nat :: n < EXACT && (f == Name(n) || f == TmpName(n))
  }

  /** The waiting bundles by sequence number. */
  ghost function Waiting(dir: map<string, seq<int>>): map<nat, seq<int>> {
    map n | 0 <= n < EXACT && Name(n) in dir :: dir[Name(n)]
  }

  /** No number has thirteen digits. */
  ghost predicate ShortNumbers(waiting: map<nat, seq<int>>) {
    forall n :: n in waiting ==> n < NAME_LIMIT
  }

  lemma WaitingNames(dir: map<string, seq<int>>, f: string) returns (n: nat)
    requires OwnFiles(dir) && f in dir && EndsWith(f, SUFFIX)
    ensures n in Waiting(dir) && f == Name(n) && NumberOfName(f) == n
  {
    hide Name, NumberOfName;
    n :| n < EXACT && (f == Name(n) || f == TmpName(n));
    TmpIsNoBundle(n);
    NameReadsBack(n);
  }

  /** `readdirSync(dir).filter(...)`: the bundle files, in no particular order. */
  function BundleFiles(dir: map<string, seq<int>>): set<string> {
    set f | f in dir && EndsWith(f, SUFFIX)
  }

  class Spool {
    var dir: map<string, seq<int>>
    var nextSeq: nat

    /** All files are ours, and the next number is past every waiting one. */
    ghost predicate Valid()
      reads this
    {
      OwnFiles(dir) && forall n: nat :: n in Waiting(dir) ==> n < nextSeq
    }

    ghost function View(): map<nat, seq<int>>
      reads this
    {
      Waiting(dir)
    }

    /** Starting on a directory left by an earlier run: numbering goes on after the highest number
        waiting, or from one when nothing is. */
    constructor (dir: map<string, seq<int>>)
      requires OwnFiles(dir)
      ensures Valid() && this.dir == dir
      ensures if View() == map[] then nextSeq == 1 else nextSeq - 1 in View()
    {
      hide Name, NumberOfName, Waiting, EndsWith;
      this.dir := dir;
      nextSeq := 1;
      new;
      var max: int := -1;
      var left := BundleFiles(dir);
      ghost var all := left;
      while left != {}
        invariant left <= all && this.dir == dir && nextSeq == 1
        invariant max == -1 ==> left == all
        invariant max >= 0 ==> max in Waiting(dir)
        invariant max >= -1
        invariant forall f :: f in all ==> f in left || NumberOfName(f) <= max
        decreases |left|
      {
        var f :| f in left;
        left := left - {f};
        ghost var n := WaitingNames(dir, f);
        if NumberOfName(f) > max { max := NumberOfName(f); }
      }
      if max >= 0 { nextSeq := max + 1; }
      WaitingUpTo(dir, max);
    }

    /** Written to a temporary name and renamed: afterwards it waits under the next number. */
    method Add(bytes: seq<int>) returns (name: string)
      requires Valid() && nextSeq < EXACT
      modifies this
      ensures Valid() && nextSeq == old(nextSeq) + 1 && name == Name(old(nextSeq))
      ensures View() == old(View())[old(nextSeq) := bytes]
    {
      hide Name, OwnFiles, Waiting;
      var n := nextSeq;
      name := Name(n);
      nextSeq := nextSeq + 1;
      var tmp := name + ".tmp";
      WaitingAfterAdd(dir, n, bytes);
      dir := dir[tmp := bytes];
      dir := dir - {tmp};
      dir := dir[name := bytes];
    }

    /** A crash after the temporary was written and before it was renamed. */
    method AddInterrupted(bytes: seq<int>)
      requires Valid() && nextSeq < EXACT
      modifies this
      ensures Valid() && View() == old(View())
    {
      hide Name, OwnFiles, Waiting;
      var n := nextSeq;
      nextSeq := nextSeq + 1;
      WaitingAfterTmp(dir, n, bytes);
      dir := dir[Name(n) + ".tmp" := bytes];
    }

    /** The waiting bundles, each once, in the order of their names; which is oldest first as long as no
        number has thirteen digits. */
    method List() returns (names: seq<string>)
      requires Valid()
      ensures forall i, j :: 0 <= i < j < |names| ==> Below(names[i], names[j])
      ensures ShortNumbers(View()) ==>
                forall i, j :: 0 <= i < j < |names| ==> NumberOfName(names[i]) < NumberOfName(names[j])
      ensures forall i :: 0 <= i < |names| ==> NumberOfName(names[i]) in View() && names[i] == Name(NumberOfName(names[i]))
      ensures forall n :: n in View() ==> Name(n) in names
    {
      hide Name, Below, EndsWith, NumberOfName, Waiting, OwnFiles;
      var files := [];
      var left := BundleFiles(dir);
      while left != {}
        invariant left <= BundleFiles(dir)
        invariant forall f :: f in BundleFiles(dir) <==> f in left || f in files
        decreases |left|
      {
        var f :| f in left;
        files := files + [f];
        left := left - {f};
      }
      names := Canonical(files);
      ListIsRight(dir, files, names);
    }

    /** Deleting a bundle the peer has acknowledged. */
    method Done(name: string, ghost n: nat)
      requires Valid() && n < EXACT && name == Name(n)
      modifies this
      ensures Valid() && nextSeq == old(nextSeq) && View() == old(View()) - {n}
    {
      hide Name;
      if name in dir { dir := dir - {name}; }
      forall m: nat | m < EXACT ensures Name(m) in dir <==> m != n && Name(m) in old(dir) {
        NamesDiffer(m, n);
      }
      assert View() == old(View()) - {n};
    }
  }

  lemma WaitingAfterTmp(dir: map<string, seq<int>>, n: nat, bytes: seq<int>)
    requires OwnFiles(dir) && n < EXACT
    ensures OwnFiles(dir[TmpName(n) := bytes])
    ensures Waiting(dir[TmpName(n) := bytes]) == Waiting(dir)
  {
    hide Name;
    var after := dir[TmpName(n) := bytes];
    forall m: nat | m < EXACT
      ensures Name(m) in after <==> Name(m) in dir
      ensures Name(m) in after ==> after[Name(m)] == dir[Name(m)]
    {
      NamesDiffer(m, n);
    }
    assert Waiting(after) == Waiting(dir);
  }

  lemma WaitingAfterAdd(dir: map<string, seq<int>>, n: nat, bytes: seq<int>)
    requires OwnFiles(dir) && n < EXACT
    ensures var after := (dir[TmpName(n) := bytes] - {TmpName(n)})[Name(n) := bytes];
            OwnFiles(after) && Waiting(after) == Waiting(dir)[n := bytes]
  {
    hide Name;
    var after := (dir[TmpName(n) := bytes] - {TmpName(n)})[Name(n) := bytes];
    forall m: nat | m < EXACT
      ensures Name(m) in after <==> m == n || Name(m) in dir
      ensures Name(m) in after ==> after[Name(m)] == if m == n then bytes else dir[Name(m)]
    {
      NamesDiffer(m, n);
    }
    assert Waiting(after) == Waiting(dir)[n := bytes];
  }

  lemma WaitingUpTo(dir: map<string, seq<int>>, max: int)
    requires OwnFiles(dir) && forall f :: f in BundleFiles(dir) ==> NumberOfName(f) <= max
    ensures forall n: nat :: n in Waiting(dir) ==> n <= max
    ensures max < 0 ==> Waiting(dir) == map[]
  {
    hide Name, NumberOfName, EndsWith;
    forall n: nat | n in Waiting(dir) ensures n <= max {
      NameReadsBack(n);
      assert Name(n) in BundleFiles(dir);
    }
    if max < 0 { assert forall n: nat :: n !in Waiting(dir); }
  }

  /** The sorted file names are the waiting bundles, in order of number below the limit. */
  lemma ListIsRight(dir: map<string, seq<int>>, files: seq<string>, names: seq<string>)
    requires OwnFiles(dir) && names == Canonical(files)
    requires forall f :: f in BundleFiles(dir) <==> f in files
    ensures forall i, j :: 0 <= i < j < |names| ==> Below(names[i], names[j])
    ensures ShortNumbers(Waiting(dir)) ==>
              forall i, j :: 0 <= i < j < |names| ==> NumberOfName(names[i]) < NumberOfName(names[j])
    ensures forall i :: 0 <= i < |names| ==> NumberOfName(names[i]) in Waiting(dir) && names[i] == Name(NumberOfName(names[i]))
    ensures forall n :: n in Waiting(dir) ==> Name(n) in names
  {
    hide Name, NumberOfName, EndsWith, Below, Waiting, Canonical, OwnFiles;
    CanonicalOf(files);
    forall i | 0 <= i < |names| ensures NumberOfName(names[i]) in Waiting(dir) && names[i] == Name(NumberOfName(names[i])) {
      assert names[i] in names && names[i] in BundleFiles(dir);
      var n := WaitingNames(dir, names[i]);
    }
    if ShortNumbers(Waiting(dir)) {
      forall i, j | 0 <= i < j < |names| ensures NumberOfName(names[i]) < NumberOfName(names[j]) {
        var a, b := NumberOfName(names[i]), NumberOfName(names[j]);
        assert Below(names[i], names[j]);
        if b < a { NamesInOrder(b, a); }
        BelowIsTotal(names[i], names[j]);
      }
    }
    forall n | n in Waiting(dir) ensures Name(n) in names {
      WaitingBelowLimit(dir, n);
      NameReadsBack(n);
      assert Name(n) in BundleFiles(dir) by { WaitingIsFile(dir, n); }
    }
  }

  lemma WaitingBelowLimit(dir: map<string, seq<int>>, n: nat)
    requires n in Waiting(dir)
    ensures n < EXACT
  {
  }

  lemma WaitingIsFile(dir: map<string, seq<int>>, n: nat)
    requires n in Waiting(dir) && EndsWith(Name(n), SUFFIX)
    ensures Name(n) in BundleFiles(dir)
  {
  }
}
