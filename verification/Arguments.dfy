/** Positional arguments of a request, decoded against the types a callback declares. */
module Arguments {
  import opened Wrappers

  datatype Value = Plain(text: string) | Nil | Ref(target: Value)

  /** `decode` is what the codec makes of a JSON text other than `null`, and `zero` the zero value. */
  datatype ArgType = Direct(decode: string -> Option<string>, zero: string) | Pointer(to: ArgType)

  /**
   The `params` member as the decoder's tokens show it: nothing or `null`; a text that is no token;
   a token that opens no array; or an array, its elements and whether its end can be read.
   */
  datatype Params = Absent | Garbled | Scalar | Items(elems: seq<string>, closed: bool)

  datatype ArgError = TooMany(most: nat) | Invalid(index: nat) | BadEnd | BadToken | NotArray

  /** Decoding `null` leaves a plain value zero and a pointer nil. */
  function Decode(t: ArgType, elem: string): Option<Value> {
    match t
    case Direct(decode, zero) =>
      if elem == "null" then Some(Plain(zero))
      else if decode(elem).Some? then Some(Plain(decode(elem).value)) else None
    case Pointer(to) =>
      if elem == "null" then Some(Nil)
      else
        var v := Decode(to, elem);
        if v.Some? then Some(Ref(v.value)) else None
  }

  function Zero(t: ArgType): Value {
    match t
    case Direct(_, zero) => Plain(zero)
    case Pointer(_) => Nil
  }

  /** What stands for an argument that is not given: a pointer then points to a zero value. */
  function Missing(t: ArgType): Value {
    match t
    case Direct(_, _) => Zero(t)
    case Pointer(to) => Ref(Zero(to))
  }

  function MissingFrom(types: seq<ArgType>, n: nat): seq<Value> {
    if n >= |types| then [] else seq(|types| - n, k requires 0 <= k < |types| - n => Missing(types[n + k]))
  }

  /** The elements from `i` on, up to the first that has no type or does not decode. */
  function DecodeFrom(elems: seq<string>, types: seq<ArgType>, i: nat): Result<seq<Value>, ArgError>
    decreases |elems| - i
  {
    if i >= |elems| then Success([])
    else if i >= |types| then Failure(TooMany(|types|))
    else if Decode(types[i], elems[i]).None? then Failure(Invalid(i))
    else
      var rest := DecodeFrom(elems, types, i + 1);
      if rest.Success? then Success([Decode(types[i], elems[i]).value] + rest.value) else rest
  }

  function Bind(params: Params, types: seq<ArgType>): Result<seq<Value>, ArgError> {
    match params
    case Absent => Success(MissingFrom(types, 0))
    case Garbled => Failure(BadToken)
    case Scalar => Failure(NotArray)
    case Items(elems, closed) =>
      var given := DecodeFrom(elems, types, 0);
      if given.Failure? then given
      else if !closed then Failure(BadEnd)
      else Success(given.value + MissingFrom(types, |given.value|))
  }

  /** Elements past the last type are refused before they are decoded, the array's end comes last. */
  method ParseArgumentArray(elems: seq<string>, closed: bool, types: seq<ArgType>)
    returns (r: Result<seq<Value>, ArgError>)
    ensures r == var given := DecodeFrom(elems, types, 0);
                 if given.Success? && !closed then Failure(BadEnd) else given
  {
    var args := [];
    var i := 0;
    ghost var all := DecodeFrom(elems, types, 0);
    assert all.Success? ==> [] + all.value == all.value;
    while i < |elems|
      invariant 0 <= i <= |elems|
      invariant var rest := DecodeFrom(elems, types, i);
                all == if rest.Success? then Success(args + rest.value) else rest
    {
      if i >= |types| {
        return Failure(TooMany(|types|));
      }
      var v := Decode(types[i], elems[i]);
      if v.None? {
        return Failure(Invalid(i));
      }
      ghost var rest := DecodeFrom(elems, types, i + 1);
      assert rest.Success? ==> args + ([v.value] + rest.value) == args + [v.value] + rest.value;
      args := args + [v.value];
      i := i + 1;
    }
    assert args + [] == args;
    return if closed then Success(args) else Failure(BadEnd);
  }

  method ParsePositionalArguments(params: Params, types: seq<ArgType>) returns (r: Result<seq<Value>, ArgError>)
    ensures r == Bind(params, types)
  {
    var args := [];
    match params {
      case Absent =>
      case Garbled => return Failure(BadToken);
      case Scalar => return Failure(NotArray);
      case Items(elems, closed) =>
        r := ParseArgumentArray(elems, closed, types);
        if r.Failure? {
          return;
        }
        args := r.value;
    }
    ghost var given := args;
    var i := |args|;
    while i < |types|
      invariant i == |args| && |given| <= i && (i <= |types| || i == |given|)
      invariant args == given + MissingFrom(types, |given|)[..i - |given|]
    {
      assert MissingFrom(types, |given|)[i - |given|] == Missing(types[i]);
      args := args + [Missing(types[i])];
      i := i + 1;
    }
    ghost var rest := MissingFrom(types, |given|);
    assert rest[..i - |given|] == rest && [] + rest == rest;
    return Success(args);
  }

  predicate Fits(elems: seq<string>, types: seq<ArgType>, i: nat) {
    i < |elems| && i < |types| && Decode(types[i], elems[i]).Some?
  }

  ghost predicate AllFit(elems: seq<string>, types: seq<ArgType>) {
    forall k | 0 <= k < |elems| :: Fits(elems, types, k)
  }

  lemma {:induction false} DecodesExactly(elems: seq<string>, types: seq<ArgType>, i: nat)
    requires i <= |elems| && i <= |types|
    ensures var r := DecodeFrom(elems, types, i);
            && (r.Success? <==> forall k | i <= k < |elems| :: Fits(elems, types, k))
            && (r.Success? ==> (
                 && |r.value| == |elems| - i && |elems| <= |types|
                 && forall j | 0 <= j < |r.value| :: Decode(types[i + j], elems[i + j]) == Some(r.value[j])))
    decreases |elems| - i
  {
    if i < |elems| {
      if i < |types| && Decode(types[i], elems[i]).Some? {
        DecodesExactly(elems, types, i + 1);
        assert Fits(elems, types, i);
        var r, rest := DecodeFrom(elems, types, i), DecodeFrom(elems, types, i + 1);
        if rest.Success? {
          forall j | 0 <= j < |r.value| ensures Decode(types[i + j], elems[i + j]) == Some(r.value[j]) {
            if j > 0 {
              assert r.value[j] == rest.value[j - 1] && i + 1 + (j - 1) == i + j;
            }
          }
        }
      } else {
        assert !Fits(elems, types, i);
      }
    }
  }

  /** A failure names the first element that has no declared type or does not decode. */
  lemma {:induction false} FirstFaultIsNamed(elems: seq<string>, types: seq<ArgType>, i: nat)
    requires i <= |elems| && i <= |types| && DecodeFrom(elems, types, i).Failure?
    ensures exists k | i <= k < |elems| ::
              && !Fits(elems, types, k) && (forall l | i <= l < k :: Fits(elems, types, l))
              && DecodeFrom(elems, types, i).error == if k >= |types| then TooMany(|types|) else Invalid(k)
    decreases |elems| - i
  {
    if i < |types| && Decode(types[i], elems[i]).Some? {
      FirstFaultIsNamed(elems, types, i + 1);
      assert Fits(elems, types, i);
    } else {
      assert !Fits(elems, types, i);
    }
  }

  /**
   Binding succeeds exactly for absent parameters and for complete arrays that are no longer than
   the declared types and decode element by element; then every declared argument has a value.
   */
  lemma BindsExactly(params: Params, types: seq<ArgType>)
    ensures var r := Bind(params, types);
            && (r.Success? <==> params.Absent? || (params.Items? && params.closed && AllFit(params.elems, types)))
            && (r.Success? ==> |r.value| == |types| && forall k | 0 <= k < |types| :: (
                 if params.Items? && k < |params.elems| then Decode(types[k], params.elems[k]) == Some(r.value[k])
                 else r.value[k] == Missing(types[k])))
  {
    if params.Items? {
      DecodesExactly(params.elems, types, 0);
    }
  }

  // ---- What a value is decoded to ----

  function Depth(t: ArgType): nat {
    if t.Direct? then 0 else 1 + Depth(t.to)
  }

  function Base(t: ArgType): ArgType {
    if t.Direct? then t else Base(t.to)
  }

  /** `v` behind `n` pointers. */
  function Behind(n: nat, v: Value): Value {
    if n == 0 then v else Ref(Behind(n - 1, v))
  }

  /** A text other than `null` becomes what the codec makes of it, behind as many pointers as the type has. */
  lemma {:induction false} DecodesThroughPointers(t: ArgType, elem: string)
    requires elem != "null"
    ensures Base(t).Direct?
    ensures Decode(t, elem) == match Base(t).decode(elem)
                               case Some(text) => Some(Behind(Depth(t), Plain(text)))
                               case None => None
    decreases t
  {
    if t.Pointer? { DecodesThroughPointers(t.to, elem); }
  }

  /** Which refusal parameters get: a fault of an element before that of the array's end. */
  lemma RefusalIff(params: Params, types: seq<ArgType>)
    ensures var r := Bind(params, types);
            && (r == Failure(BadToken) <==> params.Garbled?)
            && (r == Failure(NotArray) <==> params.Scalar?)
            && (r == Failure(BadEnd) <==> params.Items? && !params.closed && AllFit(params.elems, types))
            && (r.Failure? && r.error.TooMany? ==> r.error.most == |types| && params.Items? && |types| < |params.elems|)
            && (r.Failure? && r.error.Invalid? ==>
                  params.Items? && r.error.index < |types| && !Fits(params.elems, types, r.error.index)
                  && forall k | 0 <= k < r.error.index :: Fits(params.elems, types, k))
  {
    if params.Items? {
      DecodesExactly(params.elems, types, 0);
      if DecodeFrom(params.elems, types, 0).Failure? {
        FirstFaultIsNamed(params.elems, types, 0);
      }
    }
  }

  /** `null` always decodes, to the value that stands for a missing plain argument. */
  lemma NullDecodes(t: ArgType)
    ensures Decode(t, "null").Some? && (Decode(t, "null").value == Missing(t) <==> t.Direct?)
  {
  }

  lemma NullFitsLast(elems: seq<string>, types: seq<ArgType>)
    requires |elems| < |types|
    ensures AllFit(elems + ["null"], types) <==> AllFit(elems, types)
  {
    var more := elems + ["null"];
    NullDecodes(types[|elems|]);
    forall k | 0 <= k < |elems| ensures Fits(more, types, k) <==> Fits(elems, types, k) {
      assert more[k] == elems[k];
    }
    assert more[|elems|] == "null" && Fits(more, types, |elems|);
  }

  /**
   The refusal of a missing required value never happens: `null` in the last given place is taken
   whenever the array without it is, and for a plain argument as the same value as leaving the
   argument out. Only for a pointer do the two differ.
   */
  lemma NullIsLikeMissingIff(elems: seq<string>, types: seq<ArgType>)
    requires |elems| < |types|
    ensures var nulled, left := Bind(Items(elems + ["null"], true), types), Bind(Items(elems, true), types);
            && (nulled.Success? <==> left.Success?)
            && (left.Success? ==> (nulled == left <==> types[|elems|].Direct?))
    ensures Bind(Items([], true), types) == Bind(Absent, types)
  {
    var more, n := elems + ["null"], |elems|;
    var nulled, left := Bind(Items(more, true), types), Bind(Items(elems, true), types);
    BindsExactly(Items(more, true), types);
    BindsExactly(Items(elems, true), types);
    NullFitsLast(elems, types);
    NullDecodes(types[n]);
    if left.Success? {
      assert more[n] == "null" && Decode(types[n], "null") == Some(nulled.value[n]) && left.value[n] == Missing(types[n]);
      forall k | 0 <= k < |types| && k != n ensures nulled.value[k] == left.value[k] {
        if k < n { assert more[k] == elems[k]; }
      }
      assert nulled.value == left.value <==> nulled.value[n] == left.value[n];
    }
    assert [] + MissingFrom(types, 0) == MissingFrom(types, 0);
  }
}
