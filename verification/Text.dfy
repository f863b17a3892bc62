/** Decimal numerals, splitting at a separator, and sorting of strings. */
module Text {

  function Digit(d: nat): (c: char)
    requires d < 10
    ensures '0' <= c <= '9'
  {
    ('0' as int + d) as char
  }

  function NatText(n: nat): (s: string)
    ensures |s| >= 1 && forall i | 0 <= i < |s| :: '0' <= s[i] <= '9'
  {
    if n < 10 then [Digit(n)] else NatText(n / 10) + [Digit(n % 10)]
  }

  function IntText(n: int): string {
    if n < 0 then "-" + NatText(-n) else NatText(n)
  }

  /** The number a string of digits stands for, leading zeros allowed. */
  function ValueOf(s: string): int {
    if s == "" then 0 else 10 * ValueOf(s[..|s| - 1]) + (s[|s| - 1] as int - '0' as int)
  }

  lemma {:induction false} ValueOfNatText(n: nat)
    ensures ValueOf(NatText(n)) == n
  {
    var s := NatText(n);
    if n < 10 {
      assert s[..|s| - 1] == "";
      assert ValueOf("") == 0;
    } else {
      assert s[..|s| - 1] == NatText(n / 10);
      ValueOfNatText(n / 10);
    }
  }

  lemma {:induction false} LeadingZero(s: string)
    ensures ValueOf("0" + s) == ValueOf(s)
  {
    var t := "0" + s;
    if s == "" {
      assert t[..|t| - 1] == "";
      assert ValueOf("") == 0;
    } else {
      assert t[..|t| - 1] == "0" + s[..|s| - 1];
      LeadingZero(s[..|s| - 1]);
    }
  }

  lemma NatTextInjective(a: nat, b: nat)
    requires NatText(a) == NatText(b)
    ensures a == b
  {
    ValueOfNatText(a);
    ValueOfNatText(b);
  }

  /** A numeral filled up with zeros on the left to a width; longer numerals are left as they are. */
  function Padded(s: string, width: nat): string
    decreases width - |s|
  {
    if |s| >= width then s else Padded("0" + s, width)
  }

  lemma {:induction false} ValueOfPadded(s: string, width: nat)
    ensures ValueOf(Padded(s, width)) == ValueOf(s)
    decreases width - |s|
  {
    if |s| < width {
      LeadingZero(s);
      ValueOfPadded("0" + s, width);
    }
  }

  lemma SignShows(a: int)
    ensures IntText(a) != "" && (IntText(a)[0] == '-' <==> a < 0)
  {
  }

  lemma IntTextInjective(a: int, b: int)
    requires IntText(a) == IntText(b)
    ensures a == b
  {
    SignShows(a);
    SignShows(b);
    if a < 0 {
      assert IntText(a)[1..] == NatText(-a) && IntText(b)[1..] == NatText(-b);
      NatTextInjective(-a, -b);
    } else {
      NatTextInjective(a, b);
    }
  }

  lemma SplitUnique(a: string, x: string, b: string, y: string, sep: char)
    requires a + [sep] + x == b + [sep] + y && sep !in a && sep !in b
    ensures a == b && x == y
  {
    var l, r := a + [sep] + x, b + [sep] + y;
    assert l[|a|] == sep && r[|b|] == sep;
    assert forall i | 0 <= i < |a| :: l[i] == a[i] && l[i] != sep;
    assert forall i | 0 <= i < |b| :: r[i] == b[i] && r[i] != sep;
    assert |a| == |b|;
    assert a == l[..|a|] && b == r[..|b|];
    assert x == l[|a| + 1..] && y == r[|b| + 1..];
  }

  /** Join with a separator between elements. */
  function Join(xs: seq<string>, sep: string): string {
    if xs == [] then "" else if |xs| == 1 then xs[0] else xs[0] + sep + Join(xs[1..], sep)
  }

  // ---- Lexicographic order ----

  predicate Le(a: string, b: string) {
    a == "" || (b != "" && (a[0] < b[0] || (a[0] == b[0] && Le(a[1..], b[1..]))))
  }

  lemma {:induction false} LeTotal(a: string, b: string)
    ensures Le(a, b) || Le(b, a)
  {
    if a != "" && b != "" && a[0] == b[0] { LeTotal(a[1..], b[1..]); }
  }

  lemma {:induction false} LeAntisymmetric(a: string, b: string)
    requires Le(a, b) && Le(b, a)
    ensures a == b
  {
    if a != "" && b != "" {
      LeAntisymmetric(a[1..], b[1..]);
      assert a == [a[0]] + a[1..] && b == [b[0]] + b[1..];
    }
  }

  lemma {:induction false} LeTransitive(a: string, b: string, c: string)
    requires Le(a, b) && Le(b, c)
    ensures Le(a, c)
  {
    if a != "" && a[0] == b[0] && b[0] == c[0] { LeTransitive(a[1..], b[1..], c[1..]); }
  }

  predicate Below(x: string, xs: seq<string>) {
    forall y | y in xs :: Le(x, y)
  }

  predicate Sorted(xs: seq<string>) {
    xs == [] || (Below(xs[0], xs[1..]) && Sorted(xs[1..]))
  }

  function Insert(x: string, xs: seq<string>): (ys: seq<string>)
    ensures multiset(ys) == multiset(xs) + multiset{x}
  {
    if xs == [] then [x]
    else if Le(x, xs[0]) then [x] + xs
    else
      assert xs == [xs[0]] + xs[1..];
      [xs[0]] + Insert(x, xs[1..])
  }

  function Sort(xs: seq<string>): (ys: seq<string>)
    ensures multiset(ys) == multiset(xs)
  {
    if xs == [] then []
    else
      assert xs == [xs[0]] + xs[1..];
      Insert(xs[0], Sort(xs[1..]))
  }

  lemma InsertMembers(x: string, xs: seq<string>, y: string)
    ensures y in Insert(x, xs) <==> y == x || y in xs
  {
  }

  lemma {:induction false} InsertSorted(x: string, xs: seq<string>)
    requires Sorted(xs)
    ensures Sorted(Insert(x, xs))
  {
    if xs != [] {
      LeTotal(x, xs[0]);
      if Le(x, xs[0]) {
        forall y | y in xs ensures Le(x, y) {
          if y in xs[1..] { LeTransitive(x, xs[0], y); }
        }
        assert Insert(x, xs)[1..] == xs;
      } else {
        InsertSorted(x, xs[1..]);
        forall y | y in Insert(x, xs[1..]) ensures Le(xs[0], y) { InsertMembers(x, xs[1..], y); }
        assert Insert(x, xs)[1..] == Insert(x, xs[1..]);
      }
    }
  }

  lemma {:induction false} SortSorted(xs: seq<string>)
    ensures Sorted(Sort(xs))
  {
    if xs != [] {
      SortSorted(xs[1..]);
      InsertSorted(xs[0], Sort(xs[1..]));
    }
  }

  lemma SameMembers(a: seq<string>, b: seq<string>)
    requires multiset(a) == multiset(b)
    ensures |a| == |b| && forall x :: x in a <==> x in b
  {
    assert |a| == |multiset(a)| == |multiset(b)| == |b|;
    assert forall x :: x in a <==> x in multiset(a);
    assert forall x :: x in b <==> x in multiset(b);
  }

  lemma PullOut(xs: seq<string>, x: string) returns (l: seq<string>, r: seq<string>)
    requires x in xs
    ensures xs == l + ([x] + r) && multiset(l + r) == multiset(xs) - multiset{x}
  {
    var p :| 0 <= p < |xs| && xs[p] == x;
    l, r := xs[..p], xs[p + 1..];
    assert xs == l + ([x] + r);
  }

  lemma SortedHeads(a: seq<string>, b: seq<string>)
    requires Sorted(a) && Sorted(b) && a != [] && b != [] && a[0] in b && b[0] in a
    ensures a[0] == b[0]
  {
    if a[0] != b[0] {
      LeAntisymmetric(a[0], b[0]);
    }
  }

  lemma TailMultiset(a: seq<string>)
    requires a != []
    ensures multiset(a[1..]) == multiset(a) - multiset{a[0]}
  {
    assert a == [a[0]] + a[1..];
  }

  lemma {:induction false} SortedUnique(a: seq<string>, b: seq<string>)
    requires Sorted(a) && Sorted(b) && multiset(a) == multiset(b)
    ensures a == b
  {
    SameMembers(a, b);
    if a != [] {
      SortedHeads(a, b);
      TailMultiset(a);
      TailMultiset(b);
      SortedUnique(a[1..], b[1..]);
      assert a == [a[0]] + a[1..] && b == [b[0]] + b[1..];
    }
  }

  /** Sorting forgets the order its input came in. */
  lemma SortCanonical(a: seq<string>, b: seq<string>)
    requires multiset(a) == multiset(b)
    ensures Sort(a) == Sort(b)
  {
    SortSorted(a);
    SortSorted(b);
    SortedUnique(Sort(a), Sort(b));
  }

  // ---- Stable ordering by length ----

  predicate ShortestFirst(xs: seq<string>) {
    xs == [] || ((forall y | y in xs[1..] :: |xs[0]| <= |y|) && ShortestFirst(xs[1..]))
  }

  function InsertByLength(x: string, xs: seq<string>): (ys: seq<string>)
    ensures multiset(ys) == multiset(xs) + multiset{x}
  {
    if xs == [] then [x]
    else
      assert xs == [xs[0]] + xs[1..];
      if |x| <= |xs[0]| then [x] + xs else [xs[0]] + InsertByLength(x, xs[1..])
  }

  function OrderByLength(xs: seq<string>): (ys: seq<string>)
    ensures multiset(ys) == multiset(xs)
  {
    if xs == [] then []
    else
      assert xs == [xs[0]] + xs[1..];
      InsertByLength(xs[0], OrderByLength(xs[1..]))
  }

  lemma {:induction false} InsertByLengthKeeps(x: string, xs: seq<string>)
    requires ShortestFirst(xs)
    ensures ShortestFirst(InsertByLength(x, xs))
  {
    if xs != [] {
      if |x| <= |xs[0]| {
        assert InsertByLength(x, xs)[1..] == xs;
        assert forall y | y in xs :: y == xs[0] || y in xs[1..];
      } else {
        var rest := InsertByLength(x, xs[1..]);
        InsertByLengthKeeps(x, xs[1..]);
        assert InsertByLength(x, xs)[1..] == rest;
        forall y | y in rest ensures |xs[0]| <= |y| {
          assert y in multiset(rest);
          assert y == x || y in xs[1..];
        }
      }
    }
  }

  lemma {:induction false} OrderByLengthShortestFirst(xs: seq<string>)
    ensures ShortestFirst(OrderByLength(xs))
  {
    if xs != [] {
      OrderByLengthShortestFirst(xs[1..]);
      InsertByLengthKeeps(xs[0], OrderByLength(xs[1..]));
    }
  }
}
