/** Order-preserving survival: one sequence is left after dropping elements of another. */
module Subsequences {

  predicate Sub(a: string, b: string) {
    a == "" || (b != "" && ((a[0] == b[0] && Sub(a[1..], b[1..])) || Sub(a, b[1..])))
  }

  lemma {:induction false} SubRefl(a: string)
    ensures Sub(a, a)
  {
    if a != "" { SubRefl(a[1..]); }
  }

  lemma {:induction false} SubPrepend(a: string, x: string, b: string)
    requires Sub(a, b)
    ensures Sub(a, x + b)
  {
    if x == "" {
      assert x + b == b;
    } else {
      assert (x + b)[1..] == x[1..] + b;
      SubPrepend(a, x[1..], b);
    }
  }

  lemma {:induction false} SubConcat(a: string, b: string, c: string, d: string)
    requires Sub(a, b) && Sub(c, d)
    ensures Sub(a + c, b + d)
    decreases |b|
  {
    if a == "" {
      assert a + c == c;
      SubPrepend(c, b, d);
    } else {
      assert (b + d)[1..] == b[1..] + d && (a + c)[1..] == a[1..] + c;
      if a[0] == b[0] && Sub(a[1..], b[1..]) {
        SubConcat(a[1..], b[1..], c, d);
      } else {
        SubConcat(a, b[1..], c, d);
      }
    }
  }

  lemma {:induction false} SubTransitive(a: string, b: string, c: string)
    requires Sub(a, b) && Sub(b, c)
    ensures Sub(a, c)
    decreases |b| + |c|
  {
    if a != "" {
      if b[0] == c[0] && Sub(b[1..], c[1..]) {
        if a[0] == b[0] && Sub(a[1..], b[1..]) {
          SubTransitive(a[1..], b[1..], c[1..]);
        } else {
          SubTransitive(a, b[1..], c[1..]);
        }
      } else {
        SubTransitive(a, b, c[1..]);
      }
    }
  }

  /** Material put in the middle loses nothing. */
  lemma SubInsert(a: string, x: string, b: string)
    ensures Sub(a + b, a + x + b)
  {
    SubRefl(a);
    SubRefl(b);
    SubPrepend(b, x, b);
    SubConcat(a, a, b, x + b);
    assert a + (x + b) == a + x + b;
  }

  lemma {:induction false} SubLength(a: string, b: string)
    requires Sub(a, b)
    ensures |a| <= |b|
    decreases |b|
  {
    if a != "" {
      if Sub(a, b[1..]) { SubLength(a, b[1..]); } else { SubLength(a[1..], b[1..]); }
    }
  }
}
