/** Middleware registered before the callbacks: which ones a request passes, and in what order. */
module Middleware {
  import opened Arguments
  import opened NameCase
  import opened Text
  import opened Wrappers

  /** Errors as the pipeline meets them; only the first kind carries its own code. */
  datatype GoError = Rpc(code: int, message: string) | TokenError(message: string)
                   | ForbiddenError(message: string) | OtherError(message: string)

  /** What a request sets in motion, in order: middleware functions, by number, and a callback. */
  datatype Event = Passed(fn: nat) | Called(args: seq<Value>)

  /** A registered function with the paths it is for and not for. */
  datatype MiddleInfo = MiddleInfo(methods: seq<string>, excludes: seq<string>, action: nat, all: bool)

  /** Regular expressions are not modelled: `re(s, m)` says the expression `s` matches `m`. */
  type Matcher = (string, string) -> bool

  predicate MethodPathEqual(re: Matcher, s: string, path: string) {
    s == path || Join(MapSnake(Split(s)), ".") == path || re(s, path)
  }

  /** Excluded paths beat included ones. */
  predicate Applies(re: Matcher, info: MiddleInfo, path: string) {
    info.all
    || ((forall s | s in info.excludes :: !MethodPathEqual(re, s, path))
        && exists s | s in info.methods :: MethodPathEqual(re, s, path))
  }

  method AnyEqual(re: Matcher, paths: seq<string>, path: string) returns (found: bool)
    ensures found <==> exists s | s in paths :: MethodPathEqual(re, s, path)
  {
    for i := 0 to |paths|
      invariant forall j | 0 <= j < i :: !MethodPathEqual(re, paths[j], path)
    {
      if MethodPathEqual(re, paths[i], path) {
        return true;
      }
    }
    return false;
  }

  method GetMatchFunction(re: Matcher, info: MiddleInfo, path: string) returns (r: Option<nat>)
    ensures r == if Applies(re, info, path) then Some(info.action) else None
  {
    if info.all {
      return Some(info.action);
    }
    var excluded := AnyEqual(re, info.excludes, path);
    if excluded {
      return None;
    }
    var included := AnyEqual(re, info.methods, path);
    return if included then Some(info.action) else None;
  }

  /** The functions a request passes, in registration order. */
  function Chain(re: Matcher, mids: seq<MiddleInfo>, path: string): seq<nat> {
    if mids == [] then []
    else
      var rest := Chain(re, mids[1..], path);
      if Applies(re, mids[0], path) then [mids[0].action] + rest else rest
  }

  /** Middleware added later runs later, and changes nothing about what comes before it. */
  lemma {:induction false} AddedRunsLast(re: Matcher, mids: seq<MiddleInfo>, added: MiddleInfo, path: string)
    ensures Chain(re, mids + [added], path)
         == Chain(re, mids, path) + if Applies(re, added, path) then [added.action] else []
  {
    var all := mids + [added];
    if mids == [] {
      assert all[1..] == [];
      assert Chain(re, all[1..], path) == [];
    } else {
      assert all[1..] == mids[1..] + [added] && all[0] == mids[0];
      AddedRunsLast(re, mids[1..], added, path);
    }
  }

  /** The functions actually run: up to and with the first that fails. */
  function Ran(run: (nat, string) -> Option<GoError>, chain: seq<nat>, path: string): seq<nat> {
    if chain == [] then []
    else if run(chain[0], path).Some? then [chain[0]]
    else [chain[0]] + Ran(run, chain[1..], path)
  }

  function Passes(fns: seq<nat>): (r: seq<Event>)
    ensures |r| == |fns| && forall i | 0 <= i < |fns| :: r[i] == Passed(fns[i])
  {
    seq(|fns|, i requires 0 <= i < |fns| => Passed(fns[i]))
  }

  function FirstError(run: (nat, string) -> Option<GoError>, chain: seq<nat>, path: string): Option<GoError> {
    if chain == [] then None
    else if run(chain[0], path).Some? then run(chain[0], path)
    else FirstError(run, chain[1..], path)
  }

  /** Either all of the chain ran and succeeded, or a prefix that ends with the only failure. */
  lemma {:induction false} RanIsPrefix(run: (nat, string) -> Option<GoError>, chain: seq<nat>, path: string)
    ensures var ran := Ran(run, chain, path); var err := FirstError(run, chain, path);
            && ran <= chain
            && (err.None? <==> forall f | f in chain :: run(f, path).None?)
            && (err.None? ==> ran == chain)
            && (err.Some? ==> ran != [] && run(ran[|ran| - 1], path) == err
                              && forall i | 0 <= i < |ran| - 1 :: run(ran[i], path).None?)
  {
    if chain != [] {
      assert chain == [chain[0]] + chain[1..];
      if run(chain[0], path).None? {
        RanIsPrefix(run, chain[1..], path);
        var ran := Ran(run, chain, path);
        assert ran[1..] == Ran(run, chain[1..], path);
        assert forall i | 1 <= i < |ran| :: ran[i] == ran[1..][i - 1];
      }
    }
  }

  lemma FirstErrorIsFirst(run: (nat, string) -> Option<GoError>, chain: seq<nat>, path: string)
    requires FirstError(run, chain, path).Some?
    ensures exists i | 0 <= i < |chain| ::
              run(chain[i], path) == FirstError(run, chain, path) && forall j | 0 <= j < i :: run(chain[j], path).None?
  {
    RanIsPrefix(run, chain, path);
    var ran := Ran(run, chain, path);
    assert forall i | 0 <= i < |ran| :: ran[i] == chain[i];
    assert run(chain[|ran| - 1], path) == FirstError(run, chain, path);
  }

  lemma PassesPrefix(ran: seq<nat>, chain: seq<nat>)
    requires ran <= chain
    ensures Passes(ran) <= Passes(chain)
  {
    assert forall i | 0 <= i < |ran| :: ran[i] == chain[i];
  }

  /** What the `i`th middleware contributes to a run through the rest of the chain. */
  lemma ChainStep(re: Matcher, run: (nat, string) -> Option<GoError>, mids: seq<MiddleInfo>, i: nat, path: string)
    requires i < |mids|
    ensures var fn, here, rest := mids[i].action, Chain(re, mids[i..], path), Chain(re, mids[i + 1..], path);
            if !Applies(re, mids[i], path) then here == rest
            else
              && FirstError(run, here, path)
                 == (if run(fn, path).Some? then run(fn, path) else FirstError(run, rest, path))
              && Passes(Ran(run, here, path))
                 == [Passed(fn)] + (if run(fn, path).Some? then [] else Passes(Ran(run, rest, path)))
  {
    assert mids[i..][0] == mids[i] && mids[i..][1..] == mids[i + 1..];
    var fn, rest := mids[i].action, Chain(re, mids[i + 1..], path);
    if Applies(re, mids[i], path) {
      assert Chain(re, mids[i..], path) == [fn] + rest && ([fn] + rest)[1..] == rest;
    }
  }

  function Concat(ls: seq<seq<string>>): seq<string> {
    if ls == [] then [] else ls[0] + Concat(ls[1..])
  }

  lemma {:induction false} ConcatAppend(a: seq<seq<string>>, b: seq<string>)
    ensures Concat(a + [b]) == Concat(a) + b
  {
    if a == [] {
      assert a + [b] == [b];
      assert Concat([b]) == b + Concat([]);
    } else {
      assert (a + [b])[1..] == a[1..] + [b];
      ConcatAppend(a[1..], b);
    }
  }

  /** What a registration keeps: the first list includes, and all others together exclude. */
  function InfoOf(fn: nat, ls: seq<seq<string>>): MiddleInfo {
    MiddleInfo(if ls == [] then [] else ls[0], if ls == [] then [] else Concat(ls[1..]), fn, ls == [])
  }

  /**
   The path a registration is for, from its own lists: without any, every path; else those that are
   equal to an entry of the first list and to no entry of any other.
   */
  predicate Wanted(re: Matcher, ls: seq<seq<string>>, path: string) {
    ls == []
    || ((exists s | s in ls[0] :: MethodPathEqual(re, s, path))
        && forall i | 1 <= i < |ls| :: forall s | s in ls[i] :: !MethodPathEqual(re, s, path))
  }

  lemma {:induction false} InConcat(ls: seq<seq<string>>, s: string)
    ensures s in Concat(ls) <==> exists i | 0 <= i < |ls| :: s in ls[i]
  {
    if ls != [] {
      InConcat(ls[1..], s);
      if i :| 0 <= i < |ls| && s in ls[i] {
        assert i > 0 ==> s in ls[1..][i - 1];
      }
      if i :| 0 <= i < |ls[1..]| && s in ls[1..][i] {
        assert s in ls[i + 1];
      }
    }
  }

  lemma AppliesIff(re: Matcher, fn: nat, ls: seq<seq<string>>, path: string)
    ensures Applies(re, InfoOf(fn, ls), path) <==> Wanted(re, ls, path)
  {
    if ls != [] {
      forall s ensures s in Concat(ls[1..]) <==> exists i | 1 <= i < |ls| :: s in ls[i] {
        InConcat(ls[1..], s);
        if i :| 0 <= i < |ls[1..]| && s in ls[1..][i] { assert s in ls[i + 1]; }
        if i :| 1 <= i < |ls| && s in ls[i] { assert s in ls[1..][i - 1]; }
      }
    }
  }

  /** A registration: a function and the lists given with it. */
  datatype Registration = Registration(fn: nat, lists: seq<seq<string>>)

  function InfosOf(regs: seq<Registration>): seq<MiddleInfo> {
    seq(|regs|, i requires 0 <= i < |regs| => InfoOf(regs[i].fn, regs[i].lists))
  }

  /** The functions registered for the path, in the order of their registration. */
  function WantedFns(re: Matcher, regs: seq<Registration>, path: string): seq<nat> {
    if regs == [] then []
    else (if Wanted(re, regs[0].lists, path) then [regs[0].fn] else []) + WantedFns(re, regs[1..], path)
  }

  /** A request passes exactly the functions registered for its path, in order. */
  lemma {:induction false} ChainIsWanted(re: Matcher, regs: seq<Registration>, path: string)
    ensures Chain(re, InfosOf(regs), path) == WantedFns(re, regs, path)
  {
    if regs != [] {
      assert InfosOf(regs)[1..] == InfosOf(regs[1..]);
      AppliesIff(re, regs[0].fn, regs[0].lists, path);
      ChainIsWanted(re, regs[1..], path);
    }
  }

  /** One more registration: its function runs last, for exactly the paths its lists say. */
  lemma AddedRunsIff(re: Matcher, mids: seq<MiddleInfo>, fn: nat, ls: seq<seq<string>>, path: string)
    ensures Chain(re, mids + [InfoOf(fn, ls)], path)
         == Chain(re, mids, path) + if Wanted(re, ls, path) then [fn] else []
  {
    AddedRunsLast(re, mids, InfoOf(fn, ls), path);
    AppliesIff(re, fn, ls, path);
  }

  class DispatchOption {
    const re: Matcher
    const snakeNamespace: bool
    var beforeMid: seq<MiddleInfo>
    ghost var trace: seq<Event>

    constructor (re: Matcher, snakeNamespace: bool)
      ensures this.re == re && this.snakeNamespace == snakeNamespace && beforeMid == [] && trace == []
    {
      this.re := re;
      this.snakeNamespace := snakeNamespace;
      beforeMid, trace := [], [];
    }

    /** No list: for every path. Else the first list includes and all others exclude. */
    method AddBeforeMiddleware(fn: nat, ls: seq<seq<string>>)
      modifies this`beforeMid
      ensures beforeMid == old(beforeMid) + [InfoOf(fn, ls)]
      ensures forall path :: Chain(re, beforeMid, path)
                             == Chain(re, old(beforeMid), path) + if Wanted(re, ls, path) then [fn] else []
    {
      forall path { AddedRunsIff(re, beforeMid, fn, ls, path); }
      var methods, excludes: seq<string> := [], [];
      if |ls| == 1 {
        methods := ls[0];
        assert ls[1..] == [];
      } else if |ls| > 1 {
        methods := ls[0];
        excludes := ls[1];
        assert ls[1..2] == [ls[1]];
        assert Concat(ls[1..2]) == ls[1] + Concat([]);
        for i := 2 to |ls|
          invariant beforeMid == old(beforeMid) && excludes == Concat(ls[1..i])
        {
          ConcatAppend(ls[1..i], ls[i]);
          assert ls[1..i + 1] == ls[1..i] + [ls[i]];
          excludes := excludes + ls[i];
        }
        assert ls[1..|ls|] == ls[1..];
      }
      beforeMid := beforeMid + [MiddleInfo(methods, excludes, fn, ls == [])];
    }

    method BeforeMiddlewareAction(run: (nat, string) -> Option<GoError>, path: string) returns (err: Option<GoError>)
      modifies this`trace
      ensures trace == old(trace) + Passes(Ran(run, Chain(re, beforeMid, path), path))
      ensures err == FirstError(run, Chain(re, beforeMid, path), path)
    {
      ghost var all := Chain(re, beforeMid, path);
      assert beforeMid[0..] == beforeMid;
      for i := 0 to |beforeMid|
        invariant trace + Passes(Ran(run, Chain(re, beforeMid[i..], path), path))
               == old(trace) + Passes(Ran(run, all, path))
        invariant FirstError(run, Chain(re, beforeMid[i..], path), path) == FirstError(run, all, path)
      {
        ChainStep(re, run, beforeMid, i, path);
        var fn := GetMatchFunction(re, beforeMid[i], path);
        if fn.Some? {
          trace := trace + [Passed(fn.value)];
          err := run(fn.value, path);
          if err.Some? {
            return;
          }
        }
      }
      return None;
    }
  }

  // ---- Registration under the Go spelling ----

  lemma DotSplitUnique(a: string, b: string, c: string, d: string)
    requires a + "." + b == c + "." + d && '.' !in a && '.' !in c
    ensures a == c && b == d
  {
    SplitUnique(a, b, c, d, '.');
  }

  lemma {:induction false} SnakeKeepsDots(s: string, j: bool)
    ensures '.' in SnakeFrom(s, j) <==> '.' in s
    decreases s
  {
    if s != "" {
      SnakeKeepsDots(s[1..], if Upper(s[0]) then false else j || s[0] != '_');
      assert s == [s[0]] + s[1..];
    }
  }

  /**
   An entry of one dot is for exactly the path of the same text, the path of its own snake forms,
   and what its text matches as an expression.
   */
  lemma EntryMatchesIff(re: Matcher, space: string, name: string, pathSpace: string, pathName: string)
    requires '.' !in space && '.' !in name && '.' !in pathSpace && '.' !in pathName
    ensures var entry, path := space + "." + name, pathSpace + "." + pathName;
            MethodPathEqual(re, entry, path)
            <==> (pathSpace == space && pathName == name) || (pathSpace == Snake(space) && pathName == Snake(name))
                 || re(entry, path)
  {
    var entry, path := space + "." + name, pathSpace + "." + pathName;
    DispatchNameIsPathIff(space, name);
    NoDotAgrees(name, false);
    SnakeKeepsDots(space, false);
    if entry == path {
      DotSplitUnique(space, name, pathSpace, pathName);
    }
    if Snake(space) + "." + Snake(name) == path {
      DotSplitUnique(Snake(space), Snake(name), pathSpace, pathName);
    }
  }

  /**
   A path registered in its Go spelling is for exactly the one-dot requests whose namespace
   and method have the same snake forms, apart from what its text matches as an expression.
   */
  lemma GoSpellingMatchesIff(re: Matcher, space: string, name: string, reqSpace: string, reqName: string)
    requires '.' !in space && '.' !in name && '.' !in reqSpace && '.' !in reqName
    ensures var spelling, path := space + "." + name, Snake(reqSpace) + "." + Snake(reqName);
            MethodPathEqual(re, spelling, path)
            <==> (Snake(reqSpace) == Snake(space) && Snake(reqName) == Snake(name)) || re(spelling, path)
  {
    SnakeKeepsDots(reqSpace, false);
    SnakeKeepsDots(reqName, false);
    EntryMatchesIff(re, space, name, Snake(reqSpace), Snake(reqName));
    SnakeIdempotent(reqSpace);
    SnakeIdempotent(reqName);
  }
}
