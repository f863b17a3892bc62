/** Conversion between Go names and snake case, on ASCII text, and of dotted paths. */
module NameCase {
  import opened Text

  predicate Upper(c: char) { 'A' <= c <= 'Z' }

  predicate Lower(c: char) { 'a' <= c <= 'z' }

  predicate Numeric(c: char) { '0' <= c <= '9' }

  predicate Alnum(c: char) { Upper(c) || Lower(c) || Numeric(c) }

  function ToLower(c: char): (r: char)
    ensures !Upper(r) && (Upper(c) ==> Lower(r)) && (!Upper(c) ==> r == c)
  {
    if Upper(c) then (c as int + 32) as char else c
  }

  function ToUpper(c: char): char {
    if Lower(c) then (c as int - 32) as char else c
  }

  function LowerAll(s: string): string {
    if s == "" then "" else [ToLower(s[0])] + LowerAll(s[1..])
  }

  /** Snake case from inside a name; `j` says a capital here starts a new word. */
  function SnakeFrom(s: string, j: bool): string {
    if s == "" then ""
    else if Upper(s[0]) then (if j then "_" else "") + [ToLower(s[0])] + SnakeFrom(s[1..], false)
    else [s[0]] + SnakeFrom(s[1..], j || s[0] != '_')
  }

  function Snake(s: string): string {
    SnakeFrom(s, false)
  }

  /** Camel case from inside a name; `j`: capitalise the next letter; `k`: a capital has been seen. */
  function CamelFrom(s: string, j: bool, k: bool): string {
    if s == "" then ""
    else if Lower(s[0]) && (j || !k) then [ToUpper(s[0])] + CamelFrom(s[1..], false, true)
    else if k && s[0] == '_' && |s| > 1 && Lower(s[1]) then CamelFrom(s[1..], true, true)
    else [s[0]] + CamelFrom(s[1..], j, k || Upper(s[0]))
  }

  function Camel(s: string): string {
    CamelFrom(s, false, false)
  }

  lemma {:induction false} LowerAllAppend(a: string, c: char)
    ensures LowerAll(a + [c]) == LowerAll(a) + [ToLower(c)]
  {
    if a == "" {
      assert a + [c] == [c];
    } else {
      assert (a + [c])[1..] == a[1..] + [c];
      LowerAllAppend(a[1..], c);
    }
  }

  method SnakeString(s: string) returns (r: string)
    ensures r == Snake(s)
  {
    var data := "";
    var j := false;
    for i := 0 to |s|
      invariant LowerAll(data) + SnakeFrom(s[i..], j) == Snake(s)
    {
      var d := s[i];
      assert s[i..][0] == d && s[i..][1..] == s[i + 1..];
      ghost var before, j0 := data, j;
      if Upper(d) {
        if j {
          LowerAllAppend(data, '_');
          data := data + ['_'];
          j := false;
        }
      } else if d != '_' {
        j := true;
      }
      LowerAllAppend(data, d);
      data := data + [d];
      SnakeStep(LowerAll(before), s[i..], j0);
      assert LowerAll(data) == LowerAll(before) + (if Upper(d) && j0 then "_" else "") + [ToLower(d)];
    }
    assert s[|s|..] == "";
    r := LowerAll(data);
  }

  lemma Reassociate(a: string, b: string, c: string, d: string)
    ensures a + (b + c + d) == a + b + c + d
  {
  }

  lemma SnakeStep(done: string, s: string, j: bool)
    requires s != ""
    ensures done + SnakeFrom(s, j)
            == done + (if Upper(s[0]) && j then "_" else "") + [ToLower(s[0])]
               + SnakeFrom(s[1..], if Upper(s[0]) then false else j || s[0] != '_')
  {
    var gap := if Upper(s[0]) && j then "_" else "";
    var rest := SnakeFrom(s[1..], if Upper(s[0]) then false else j || s[0] != '_');
    Reassociate(done, gap, [ToLower(s[0])], rest);
    assert SnakeFrom(s, j) == gap + [ToLower(s[0])] + rest;
  }

  method CamelString(s: string) returns (r: string)
    ensures r == Camel(s)
  {
    r := "";
    var j, k := false, false;
    for i := 0 to |s|
      invariant r + CamelFrom(s[i..], j, k) == Camel(s)
    {
      var d := s[i];
      assert s[i..][0] == d && s[i..][1..] == s[i + 1..];
      ghost var before, j0, k0 := r, j, k;
      if !k && Upper(d) {
        k := true;
      }
      if Lower(d) && (j || !k) {
        d := ToUpper(d);
        j := false;
        k := true;
      }
      if k && d == '_' && i + 1 < |s| && Lower(s[i + 1]) {
        j := true;
      } else {
        r := r + [d];
        assert r + CamelFrom(s[i + 1..], j, k) == before + ([d] + CamelFrom(s[i + 1..], j, k));
      }
    }
    assert s[|s|..] == "";
  }

  // ---- From a Go name to snake case and back ----

  predicate AllAlnum(s: string) { forall c | c in s :: Alnum(c) }

  predicate AllNumeric(s: string) { forall c | c in s :: Numeric(c) }

  predicate NoAdjacentCapitals(s: string) {
    forall i | 0 <= i < |s| - 1 :: !(Upper(s[i]) && Upper(s[i + 1]))
  }

  lemma NoAdjacentTail(s: string)
    requires s != ""
    ensures NoAdjacentCapitals(s)
            <==> NoAdjacentCapitals(s[1..]) && !(|s| > 1 && Upper(s[0]) && Upper(s[1]))
  {
  }

  /** A capital that starts a word comes back; one inside a word comes back in lower case. */
  lemma CapitalBack(s: string, j: bool)
    requires s != "" && Upper(s[0])
    ensures var back := CamelFrom(SnakeFrom(s, j), false, true);
            if j then back == [s[0]] + CamelFrom(SnakeFrom(s[1..], false), false, true)
            else back != "" && back[0] != s[0]
  {
  }

  lemma PlainBack(s: string, j: bool)
    requires s != "" && (Lower(s[0]) || Numeric(s[0]))
    ensures CamelFrom(SnakeFrom(s, j), false, true) == [s[0]] + CamelFrom(SnakeFrom(s[1..], true), false, true)
  {
  }

  lemma {:induction false} BackFromSnake(s: string, j: bool)
    requires AllAlnum(s)
    ensures CamelFrom(SnakeFrom(s, j), false, true) == s
            <==> NoAdjacentCapitals(s) && (s != "" && Upper(s[0]) ==> j)
    decreases s
  {
    if s != "" {
      var c, t := s[0], s[1..];
      assert c in s && forall x | x in t :: x in s;
      NoAdjacentTail(s);
      assert s == [c] + t;
      if Upper(c) {
        CapitalBack(s, j);
        BackFromSnake(t, false);
        SamePrefix([c], CamelFrom(SnakeFrom(t, false), false, true), t);
      } else {
        PlainBack(s, j);
        BackFromSnake(t, true);
        SamePrefix([c], CamelFrom(SnakeFrom(t, true), false, true), t);
      }
    }
  }

  lemma {:induction false} BackWithoutCapital(s: string, j: bool)
    requires AllAlnum(s) && (s != "" && Upper(s[0]) ==> j)
    ensures CamelFrom(SnakeFrom(s, j), false, false) == s <==> AllNumeric(s)
    decreases s
  {
    if s != "" {
      var c, t := s[0], s[1..];
      assert c in s && forall x | x in t :: x in s;
      var whole := SnakeFrom(s, j);
      if Numeric(c) {
        BackWithoutCapital(t, true);
        assert whole == [c] + SnakeFrom(t, true) && whole[1..] == SnakeFrom(t, true);
        assert CamelFrom(whole, false, false) == [c] + CamelFrom(whole[1..], false, false);
        assert s == [c] + t;
      } else {
        assert CamelFrom(whole, false, false)[0] != c;
      }
    }
  }

  /**
   Camel case undoes snake case on an alphanumeric name exactly when the name starts with a
   capital and has no two adjacent capitals, or has no letters at all.
   */
  lemma CamelUndoesSnakeIff(s: string)
    requires AllAlnum(s)
    ensures Camel(Snake(s)) == s
            <==> AllNumeric(s) || (s != "" && Upper(s[0]) && NoAdjacentCapitals(s))
  {
    if s != "" && Upper(s[0]) {
      var c, t := s[0], s[1..];
      assert c in s && forall x | x in t :: x in s;
      NoAdjacentTail(s);
      BackFromSnake(t, false);
      var whole := Snake(s);
      assert whole == [ToLower(c)] + SnakeFrom(t, false) && whole[1..] == SnakeFrom(t, false);
      assert Camel(whole) == [c] + CamelFrom(SnakeFrom(t, false), false, true);
      assert s == [c] + t;
    } else {
      BackWithoutCapital(s, false);
    }
  }

  /** Go-style names with the same snake form are the same name, so registration cannot confuse them. */
  lemma SnakeInjective(s: string, t: string)
    requires AllAlnum(s) && AllAlnum(t) && s != "" && t != "" && Upper(s[0]) && Upper(t[0])
    requires NoAdjacentCapitals(s) && NoAdjacentCapitals(t)
    requires Snake(s) == Snake(t)
    ensures s == t
  {
    CamelUndoesSnakeIff(s);
    CamelUndoesSnakeIff(t);
  }

  /** With adjacent capitals two names can share a snake form. */
  lemma AdjacentCapitalsCollide()
    ensures Snake("AB") == Snake("Ab") == "ab"
  {
  }

  // ---- Character by character ----

  /** Something other than a capital or an underscore comes before `n`, and no capital in between. */
  predicate AfterWord(s: string, n: nat)
    requires n <= |s|
  {
    exists k | 0 <= k < n :: !Upper(s[k]) && s[k] != '_' && forall l | k < l < n :: !Upper(s[l])
  }

  /** The first `n` characters, each in lower case and with an underscore before every capital after a word. */
  function Spelled(s: string, n: nat): string
    requires n <= |s|
  {
    if n == 0 then ""
    else
      var c := s[n - 1];
      Spelled(s, n - 1) + (if Upper(c) && AfterWord(s, n - 1) then "_" else "") + [ToLower(c)]
  }

  lemma AfterWordStep(s: string, n: nat)
    requires n < |s|
    ensures AfterWord(s, n + 1) <==> !Upper(s[n]) && (s[n] != '_' || AfterWord(s, n))
  {
    if AfterWord(s, n) && !Upper(s[n]) {
      var k :| 0 <= k < n && !Upper(s[k]) && s[k] != '_' && forall l | k < l < n :: !Upper(s[l]);
      assert forall l | k < l < n + 1 :: !Upper(s[l]);
    }
    if AfterWord(s, n + 1) {
      var k :| 0 <= k < n + 1 && !Upper(s[k]) && s[k] != '_' && forall l | k < l < n + 1 :: !Upper(s[l]);
      assert k < n ==> !Upper(s[n]) && forall l | k < l < n :: !Upper(s[l]);
    }
  }

  lemma {:induction false} SpelledSoFar(s: string, n: nat)
    requires n <= |s|
    ensures Spelled(s, n) + SnakeFrom(s[n..], AfterWord(s, n)) == Snake(s)
  {
    if n == 0 {
      assert s[0..] == s;
    } else {
      var m := n - 1;
      SpelledSoFar(s, m);
      AfterWordStep(s, m);
      assert s[m..][0] == s[m] && s[m..][1..] == s[n..];
      SnakeStep(Spelled(s, m), s[m..], AfterWord(s, m));
    }
  }

  /** Snake case of any text, with underscores or not: what stands where each of its characters was. */
  lemma SnakeIsSpelled(s: string)
    ensures Snake(s) == Spelled(s, |s|)
  {
    SpelledSoFar(s, |s|);
    assert s[|s|..] == "" && Spelled(s, |s|) + "" == Spelled(s, |s|);
  }

  predicate Letter(c: char) { Upper(c) || Lower(c) }

  predicate LetterBefore(s: string, n: nat)
    requires n <= |s|
  {
    exists k | 0 <= k < n :: Letter(s[k])
  }

  /** An underscore between a letter somewhere before and a small letter right behind it is left out. */
  predicate LeftOut(s: string, n: nat)
    requires n < |s|
  {
    s[n] == '_' && LetterBefore(s, n) && n + 1 < |s| && Lower(s[n + 1])
  }

  /** The first `n` characters: the first letter and those behind what is left out in upper case. */
  function Cameled(s: string, n: nat): string
    requires n <= |s|
  {
    if n == 0 then ""
    else
      var c := s[n - 1];
      var raised := Lower(c) && (!LetterBefore(s, n - 1) || (n > 1 && LeftOut(s, n - 2)));
      Cameled(s, n - 1) + (if LeftOut(s, n - 1) then "" else if raised then [ToUpper(c)] else [c])
  }

  lemma CamelStep(done: string, s: string, j: bool, k: bool)
    requires s != "" && (j ==> Lower(s[0]))
    ensures var drops := k && s[0] == '_' && |s| > 1 && Lower(s[1]);
            done + CamelFrom(s, j, k)
            == done + (if drops then "" else if Lower(s[0]) && (j || !k) then [ToUpper(s[0])] else [s[0]])
               + CamelFrom(s[1..], drops, k || Letter(s[0]))
  {
    var drops := k && s[0] == '_' && |s| > 1 && Lower(s[1]);
    var piece := if drops then "" else if Lower(s[0]) && (j || !k) then [ToUpper(s[0])] else [s[0]];
    var rest := CamelFrom(s[1..], drops, k || Letter(s[0]));
    assert CamelFrom(s, j, k) == piece + rest;
    assert done + (piece + rest) == done + piece + rest;
  }

  lemma {:induction false} CameledSoFar(s: string, n: nat)
    requires n <= |s|
    ensures Cameled(s, n) + CamelFrom(s[n..], n > 0 && LeftOut(s, n - 1), LetterBefore(s, n)) == Camel(s)
  {
    if n == 0 {
      assert s[0..] == s;
    } else {
      var m := n - 1;
      CameledSoFar(s, m);
      assert s[m..][0] == s[m] && s[m..][1..] == s[n..] && (n < |s| ==> s[m..][1] == s[n]);
      assert LetterBefore(s, n) <==> LetterBefore(s, m) || Letter(s[m]);
      CamelStep(Cameled(s, m), s[m..], m > 0 && LeftOut(s, m - 1), LetterBefore(s, m));
    }
  }

  /** Camel case of any text, character by character. */
  lemma CamelIsCameled(s: string)
    ensures Camel(s) == Cameled(s, |s|)
  {
    CameledSoFar(s, |s|);
    assert s[|s|..] == "" && Cameled(s, |s|) + "" == Cameled(s, |s|);
  }

  // ---- Which names collide ----

  /** A word starts at `i`: a capital that does not follow a capital; `j` says so for the first. */
  predicate Breaks(s: string, j: bool, i: int)
    requires 0 <= i < |s|
  {
    Upper(s[i]) && if i == 0 then j else !Upper(s[i - 1])
  }

  predicate SameFrom(s: string, j: bool, t: string, k: bool) {
    && |s| == |t|
    && forall i | 0 <= i < |s| :: ToLower(s[i]) == ToLower(t[i]) && Breaks(s, j, i) == Breaks(t, k, i)
  }

  lemma SameTail(s: string, j: bool, t: string, k: bool)
    requires s != "" && t != ""
    ensures SameFrom(s, j, t, k) <==>
              && ToLower(s[0]) == ToLower(t[0]) && Breaks(s, j, 0) == Breaks(t, k, 0)
              && SameFrom(s[1..], !Upper(s[0]), t[1..], !Upper(t[0]))
  {
    var s', t', j', k' := s[1..], t[1..], !Upper(s[0]), !Upper(t[0]);
    assert forall i | 0 <= i < |s'| :: s'[i] == s[i + 1] && Breaks(s', j', i) == Breaks(s, j, i + 1);
    assert forall i | 0 <= i < |t'| :: t'[i] == t[i + 1] && Breaks(t', k', i) == Breaks(t, k, i + 1);
    if SameFrom(s', j', t', k') && ToLower(s[0]) == ToLower(t[0]) && Breaks(s, j, 0) == Breaks(t, k, 0) {
      forall i | 0 <= i < |s| ensures ToLower(s[i]) == ToLower(t[i]) && Breaks(s, j, i) == Breaks(t, k, i) {
        if i > 0 { assert s'[i - 1] == s[i] && t'[i - 1] == t[i]; }
      }
    }
  }

  lemma SnakeHead(s: string, j: bool)
    requires s != "" && Alnum(s[0])
    ensures SnakeFrom(s, j)
         == (if Breaks(s, j, 0) then "_" else "") + [ToLower(s[0])] + SnakeFrom(s[1..], !Upper(s[0]))
  {
  }

  /** The first letter and the break before it can be read off. */
  lemma HeadSplit(breaks: bool, c: char, x: string, breaks': bool, d: char, y: string)
    requires Alnum(c) && Alnum(d)
    ensures (if breaks then "_" else "") + [c] + x == (if breaks' then "_" else "") + [d] + y
            <==> breaks == breaks' && c == d && x == y
  {
    var a, b := (if breaks then "_" else "") + [c] + x, (if breaks' then "_" else "") + [d] + y;
    if a == b {
      assert a[0] == b[0];
      assert breaks == breaks';
      var n := if breaks then 2 else 1;
      assert a[n - 1] == c && b[n - 1] == d && a[n..] == x && b[n..] == y;
    }
  }

  lemma {:induction false} SnakeEqualFrom(s: string, j: bool, t: string, k: bool)
    requires AllAlnum(s) && AllAlnum(t)
    ensures SnakeFrom(s, j) == SnakeFrom(t, k) <==> SameFrom(s, j, t, k)
    decreases |s|
  {
    if s == "" {
      if t != "" { assert t[0] in t; SnakeHead(t, k); }
    } else if t == "" {
      assert s[0] in s;
      SnakeHead(s, j);
    } else {
      assert s[0] in s && t[0] in t;
      assert (forall c | c in s[1..] :: c in s) && forall c | c in t[1..] :: c in t;
      SnakeHead(s, j);
      SnakeHead(t, k);
      SnakeEqualFrom(s[1..], !Upper(s[0]), t[1..], !Upper(t[0]));
      SameTail(s, j, t, k);
      HeadSplit(Breaks(s, j, 0), ToLower(s[0]), SnakeFrom(s[1..], !Upper(s[0])),
                Breaks(t, k, 0), ToLower(t[0]), SnakeFrom(t[1..], !Upper(t[0])));
    }
  }

  /** The same letters but for case, and the same places where a capital follows a non-capital. */
  predicate SameWords(s: string, t: string) {
    && |s| == |t|
    && (forall i | 0 <= i < |s| :: ToLower(s[i]) == ToLower(t[i]))
    && forall i | 1 <= i < |s| :: (Upper(s[i]) && !Upper(s[i - 1])) == (Upper(t[i]) && !Upper(t[i - 1]))
  }

  /** Alphanumeric names have the same snake form exactly when they have the same words. */
  lemma SnakeEqualIff(s: string, t: string)
    requires AllAlnum(s) && AllAlnum(t)
    ensures Snake(s) == Snake(t) <==> SameWords(s, t)
  {
    SnakeEqualFrom(s, false, t, false);
    if SameWords(s, t) {
      forall i | 0 <= i < |s| ensures Breaks(s, false, i) == Breaks(t, false, i) {
        if i > 0 { assert Upper(s[i]) && !Upper(s[i - 1]) <==> Upper(t[i]) && !Upper(t[i - 1]); }
      }
    }
    if SameFrom(s, false, t, false) {
      forall i | 1 <= i < |s| ensures (Upper(s[i]) && !Upper(s[i - 1])) == (Upper(t[i]) && !Upper(t[i - 1])) {
        assert Breaks(s, false, i) == Breaks(t, false, i);
      }
    }
  }

  // ---- From snake case to a Go name and back ----

  /** Words `[a-z][a-z0-9]*` joined by underscores; `start` says a word has to start here. */
  predicate SnakeText(t: string, start: bool) {
    if t == "" then !start
    else if start then Lower(t[0]) && SnakeText(t[1..], false)
    else if t[0] == '_' then SnakeText(t[1..], true)
    else (Lower(t[0]) || Numeric(t[0])) && SnakeText(t[1..], false)
  }

  /** Every word but the last has two characters or more; `long` says the current one has. */
  predicate LongWords(t: string, long: bool) {
    if t == "" then true
    else if t[0] == '_' then long && (|t| > 1 ==> LongWords(t[2..], false))
    else LongWords(t[1..], true)
  }

  lemma {:induction false} BackFromCamel(t: string, j: bool)
    requires SnakeText(t, false)
    ensures SnakeFrom(CamelFrom(t, false, true), j) == t <==> LongWords(t, j)
    decreases t
  {
    if t != "" {
      var c := t[0];
      if c == '_' {
        var d, rest := t[1], t[2..];
        assert t[1..][0] == d && t[1..][1..] == rest && t == ['_', d] + rest;
        BackFromCamel(rest, false);
        var camel := CamelFrom(rest, false, true);
        var whole := [ToUpper(d)] + camel;
        assert CamelFrom(t, false, true) == CamelFrom(t[1..], true, true) == whole;
        assert whole[1..] == camel;
        assert SnakeFrom(whole, j) == (if j then "_" else "") + [d] + SnakeFrom(camel, false);
        if j {
          assert SnakeFrom(whole, j) == ['_', d] + SnakeFrom(camel, false);
        } else {
          assert SnakeFrom(whole, j)[0] == d != '_';
        }
      } else {
        BackFromCamel(t[1..], true);
        var camel := CamelFrom(t[1..], false, true);
        assert CamelFrom(t, false, true) == [c] + camel && ([c] + camel)[1..] == camel;
        assert SnakeFrom([c] + camel, j) == [c] + SnakeFrom(camel, true);
        assert t == [c] + t[1..];
      }
    }
  }

  /** Snake case undoes camel case exactly when no word but the last is a single letter. */
  lemma SnakeUndoesCamelIff(t: string)
    requires SnakeText(t, true)
    ensures Snake(Camel(t)) == t <==> LongWords(t[1..], false)
  {
    var c, rest := t[0], t[1..];
    BackFromCamel(rest, false);
    var camel := CamelFrom(rest, false, true);
    assert Camel(t) == [ToUpper(c)] + camel && ([ToUpper(c)] + camel)[1..] == camel;
    assert Snake(Camel(t)) == [c] + SnakeFrom(camel, false);
    assert t == [c] + rest;
  }

  // ---- Snake case is a normal form ----

  lemma {:induction false} SnakeHasNoCapitals(s: string, j: bool)
    ensures forall c | c in SnakeFrom(s, j) :: !Upper(c)
    decreases s
  {
    if s != "" {
      SnakeHasNoCapitals(s[1..], if Upper(s[0]) then false else j || s[0] != '_');
    }
  }

  lemma {:induction false} NoCapitalsIsFixed(s: string, j: bool)
    requires forall c | c in s :: !Upper(c)
    ensures SnakeFrom(s, j) == s
    decreases s
  {
    if s != "" {
      assert s[0] in s && forall c | c in s[1..] :: c in s;
      NoCapitalsIsFixed(s[1..], j || s[0] != '_');
    }
  }

  lemma SnakeIdempotent(s: string)
    ensures Snake(Snake(s)) == Snake(s)
  {
    SnakeHasNoCapitals(s, false);
    NoCapitalsIsFixed(Snake(s), false);
  }

  lemma {:induction false} SnakeLength(s: string, j: bool)
    ensures |s| <= |SnakeFrom(s, j)| && 2 * |SnakeFrom(s, j)| <= 3 * |s| + (if j then 1 else 0)
    decreases s
  {
    if s != "" {
      SnakeLength(s[1..], if Upper(s[0]) then false else j || s[0] != '_');
    }
  }

  /** Snake case makes a name longer by half at most, and never shorter. */
  lemma SnakeAtMostHalfLonger(s: string)
    ensures |s| <= |Snake(s)| && 2 * |Snake(s)| <= 3 * |s|
  {
    SnakeLength(s, false);
  }

  // ---- Dotted paths ----

  function Split(s: string): (parts: seq<string>)
    ensures |parts| >= 1
  {
    if s == "" then [""]
    else
      var rest := Split(s[1..]);
      if s[0] == '.' then [""] + rest else [[s[0]] + rest[0]] + rest[1..]
  }

  function MapSnake(parts: seq<string>): (r: seq<string>)
    ensures |r| == |parts|
  {
    if parts == [] then [] else [Snake(parts[0])] + MapSnake(parts[1..])
  }

  lemma {:induction false} MapSnakeAt(parts: seq<string>, i: nat)
    requires i < |parts|
    ensures MapSnake(parts)[i] == Snake(parts[i])
  {
    if i > 0 { MapSnakeAt(parts[1..], i - 1); }
  }

  /** The first `i` parts converted. */
  function Half(all: seq<string>, i: nat): seq<string>
    requires i <= |all|
  {
    MapSnake(all)[..i] + all[i..]
  }

  lemma HalfStep(all: seq<string>, i: nat)
    requires i < |all|
    ensures Half(all, i)[i] == all[i] && Half(all, i + 1) == Half(all, i)[i := Snake(all[i])]
  {
    MapSnakeAt(all, i);
  }

  /** The form a middleware path is compared in: every dotted part on its own. */
  method SnakePath(path: string) returns (r: string)
    ensures r == Join(MapSnake(Split(path)), ".")
  {
    var parts := Split(path);
    ghost var all := parts;
    for i := 0 to |parts|
      invariant |parts| == |all| && parts == Half(all, i)
    {
      HalfStep(all, i);
      var t := SnakeString(parts[i]);
      parts := parts[i := t];
    }
    assert parts == MapSnake(all);
    r := Join(parts, ".");
  }

  /** The path form as one pass: a dot also ends the word. */
  function PathFrom(s: string, j: bool): string {
    if s == "" then ""
    else if s[0] == '.' then "." + PathFrom(s[1..], false)
    else if Upper(s[0]) then (if j then "_" else "") + [ToLower(s[0])] + PathFrom(s[1..], false)
    else [s[0]] + PathFrom(s[1..], j || s[0] != '_')
  }

  /** Join after converting the first part from inside a word. */
  function JoinFrom(parts: seq<string>, j: bool): string
    requires parts != []
  {
    Join([SnakeFrom(parts[0], j)] + MapSnake(parts[1..]), ".")
  }

  lemma JoinAfterEmpty(xs: seq<string>)
    requires xs != []
    ensures Join([""] + xs, ".") == "." + Join(xs, ".")
  {
    assert ([""] + xs)[1..] == xs;
  }

  lemma DotStartsPart(s: string, j: bool, rest: seq<string>)
    requires s != "" && s[0] == '.' && rest == Split(s[1..])
    ensures JoinFrom(Split(s), j) == "." + JoinFrom(rest, false)
  {
    assert Split(s) == [""] + rest && Split(s)[1..] == rest;
    assert MapSnake(rest) == [Snake(rest[0])] + MapSnake(rest[1..]);
    JoinAfterEmpty(MapSnake(rest));
    assert JoinFrom(Split(s), j) == Join([""] + MapSnake(rest), ".");
  }

  lemma {:induction false} PathIsJoin(s: string, j: bool)
    ensures PathFrom(s, j) == JoinFrom(Split(s), j)
    decreases s
  {
    if s != "" {
      var rest := Split(s[1..]);
      var j' := if Upper(s[0]) then false else j || s[0] != '_';
      if s[0] == '.' {
        PathIsJoin(s[1..], false);
        DotStartsPart(s, j, rest);
      } else {
        PathIsJoin(s[1..], j');
        var head := [s[0]] + rest[0];
        assert Split(s)[0] == head && Split(s)[1..] == rest[1..];
        assert head[1..] == rest[0];
        var pre := (if Upper(s[0]) && j then "_" else "") + [ToLower(s[0])];
        assert SnakeFrom(head, j) == pre + SnakeFrom(rest[0], j');
        JoinPrefix(pre, SnakeFrom(rest[0], j'), MapSnake(rest[1..]));
        PathHead(s, j);
      }
    }
  }

  lemma JoinPrefix(pre: string, x: string, rest: seq<string>)
    ensures Join([pre + x] + rest, ".") == pre + Join([x] + rest, ".")
  {
  }

  /** A dot is followed, after underscores only, by a capital; `after` says such a dot is open here. */
  predicate DotThenCapital(s: string, after: bool) {
    s != ""
    && (if Upper(s[0]) then after || DotThenCapital(s[1..], false)
        else DotThenCapital(s[1..], s[0] == '.' || (after && s[0] == '_')))
  }

  lemma {:induction false} WholeVersusParts(s: string, after: bool, j: bool, k: bool)
    requires if after then j && !k else j == k
    ensures SnakeFrom(s, j) == PathFrom(s, k) <==> !DotThenCapital(s, after)
    decreases s
  {
    if s != "" {
      var c, t := s[0], s[1..];
      if Upper(c) {
        WholeVersusParts(t, false, false, false);
        if after {
          assert SnakeFrom(s, j)[0] == '_' && PathFrom(s, k)[0] == ToLower(c);
        } else {
          var pre := (if j then "_" else "") + [ToLower(c)];
          SamePrefix(pre, SnakeFrom(t, false), PathFrom(t, false));
        }
      } else {
        var j', k' := j || c != '_', if c == '.' then false else k || c != '_';
        WholeVersusParts(t, c == '.' || (after && c == '_'), j', k');
        SamePrefix([c], SnakeFrom(t, j'), PathFrom(t, k'));
      }
    }
  }

  lemma SamePrefix(pre: string, x: string, y: string)
    ensures pre + x == pre + y <==> x == y
  {
    assert (pre + x)[|pre|..] == x && (pre + y)[|pre|..] == y;
  }

  lemma PathHead(s: string, j: bool)
    requires s != "" && s[0] != '.'
    ensures PathFrom(s, j) == (if Upper(s[0]) && j then "_" else "") + [ToLower(s[0])]
                              + PathFrom(s[1..], if Upper(s[0]) then false else j || s[0] != '_')
  {
  }

  lemma {:induction false} PathAfterDot(a: string, b: string, j: bool)
    requires '.' !in a
    ensures PathFrom(a + "." + b, j) == SnakeFrom(a, j) + "." + PathFrom(b, false)
    decreases a
  {
    var s := a + "." + b;
    if a == "" {
      assert s == "." + b && s[1..] == b;
    } else {
      assert a[0] in a && forall c | c in a[1..] :: c in a;
      assert s[0] == a[0] && s[1..] == a[1..] + "." + b;
      var j' := if Upper(a[0]) then false else j || a[0] != '_';
      PathAfterDot(a[1..], b, j');
      var pre := (if Upper(a[0]) && j then "_" else "") + [ToLower(a[0])];
      var x, y := SnakeFrom(a[1..], j'), PathFrom(b, false);
      PathHead(s, j);
      assert SnakeFrom(a, j) == pre + x;
      Reassociate(pre, x, ".", y);
    }
  }

  /**
   The name a request is dispatched under, namespace and method converted each as a whole,
   equals the middleware form of its path exactly when no later dot is followed by a capital.
   With a single dot the two always agree.
   */
  lemma DispatchNameIsPathIff(namespace: string, name: string)
    requires '.' !in namespace
    ensures Snake(namespace) + "." + Snake(name) == Join(MapSnake(Split(namespace + "." + name)), ".")
            <==> !DotThenCapital(name, false)
  {
    var path := namespace + "." + name;
    PathIsJoin(path, false);
    assert MapSnake(Split(path)) == [Snake(Split(path)[0])] + MapSnake(Split(path)[1..]);
    PathAfterDot(namespace, name, false);
    WholeVersusParts(name, false, false, false);
    SamePrefix(Snake(namespace) + ".", Snake(name), PathFrom(name, false));
  }

  lemma {:induction false} NoDotAgrees(name: string, after: bool)
    requires '.' !in name && !after
    ensures !DotThenCapital(name, after)
    decreases name
  {
    if name != "" {
      assert name[0] in name && forall c | c in name[1..] :: c in name;
      NoDotAgrees(name[1..], false);
    }
  }
}
