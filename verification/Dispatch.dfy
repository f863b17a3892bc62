/** The dispatcher: registration of services, the request pipeline and the response it writes. */
module Dispatch {
  import opened Arguments
  import opened Middleware
  import opened NameCase
  import opened Text
  import opened Wrappers

  const ERR_PARSE := -32700
  const ERR_INVALID_REQUEST := -32600
  const ERR_NO_METHOD := -32601
  const ERR_BAD_PARAMS := -32602
  const ERR_INTERNAL := -32603
  const ERR_SERVER := -32000
  const ERR_AUTHORIZATION := 401
  const ERR_FORBIDDEN := 403

  /** A callback gives no value (or a zero one), a value with its encoding if it has one, or fails. */
  datatype Outcome = Nothing | Gave(json: Option<string>) | Failed(err: GoError) | Panicked(what: string)

  datatype Callback = Callback(name: string, argTypes: seq<ArgType>, run: seq<Value> -> Outcome)

  type Services = map<string, map<string, Callback>>

  datatype RpcError = RpcError(code: int, message: string)

  /** The members of a message, as they are on the wire. */
  datatype Wire = Wire(id: string, version: string, path: string, params: Params,
                       result: Option<string>, error: Option<RpcError>)

  // ---- Messages ----

  predicate ValidId(id: string) {
    id != "" && id[0] != '{' && id[0] != '['
  }

  function Report(err: GoError): RpcError {
    match err
    case Rpc(code, message) => RpcError(code, message)
    case TokenError(message) => RpcError(ERR_AUTHORIZATION, message)
    case ForbiddenError(message) => RpcError(ERR_FORBIDDEN, message)
    case OtherError(message) => RpcError(ERR_SERVER, message)
  }

  function Finished(w: Wire): Wire {
    w.(id := if w.id == "" then "1" else w.id, version := "2.0", path := "", params := Absent)
  }

  /** The parts before and after the first dot. */
  function SplitTwo(path: string): (r: Option<(string, string)>)
    ensures r.None? <==> '.' !in path
    ensures r.Some? ==> '.' !in r.value.0 && path == r.value.0 + "." + r.value.1
  {
    if path == "" then None
    else if path[0] == '.' then
      assert path == "" + "." + path[1..];
      Some(("", path[1..]))
    else
      var rest := SplitTwo(path[1..]);
      assert path == [path[0]] + path[1..];
      if rest.None? then None else Some(([path[0]] + rest.value.0, rest.value.1))
  }

  class RpcMessage {
    var id: string
    var version: string
    var path: string
    var params: Params
    var result: Option<string>
    var error: Option<RpcError>

    constructor (w: Wire)
      ensures View() == w
    {
      id, version, path, params, result, error := w.id, w.version, w.path, w.params, w.result, w.error;
    }

    function View(): Wire
      reads this
    {
      Wire(id, version, path, params, result, error)
    }

    method SetError(err: Option<GoError>)
      modifies this`error
      ensures View() == if err.None? then old(View()) else old(View()).(error := Some(Report(err.value)))
    {
      match err {
        case None => return;
        case Some(Rpc(code, message)) => error := Some(RpcError(code, message));
        case Some(TokenError(message)) => error := Some(RpcError(ERR_AUTHORIZATION, message));
        case Some(ForbiddenError(message)) => error := Some(RpcError(ERR_FORBIDDEN, message));
        case Some(OtherError(message)) => error := Some(RpcError(ERR_SERVER, message));
      }
    }

    method Output()
      modifies this
      ensures View() == Finished(old(View()))
    {
      if id == "" {
        id := "1";
      }
      version, path, params := "2.0", "", Absent;
    }
  }

  // ---- Registration ----

  /** A method of a registered type; `outs` says of each result whether it is an error. */
  datatype GoMethod = GoMethod(exported: bool, outs: seq<bool>, callback: Callback)

  /** A registered value: its type's name, the name it chose for itself and the methods it excludes. */
  datatype Receiver = Receiver(typeName: string, ownName: Option<string>, excludes: seq<string>, methods: seq<GoMethod>)

  function FormatName(snake: bool, name: string): string {
    if snake then Snake(name) else name
  }

  /** At most two results, an error only as the last, and the second of two always one. */
  predicate GoodResults(outs: seq<bool>) {
    |outs| <= 2 && (|outs| == 2 ==> !outs[0] && outs[1])
  }

  predicate Suitable(m: GoMethod, skips: seq<string>) {
    m.exported && m.callback.name !in skips && GoodResults(m.outs)
  }

  /** Of methods with the same formatted name the last is kept. */
  function CallbacksOf(snake: bool, methods: seq<GoMethod>, skips: seq<string>): map<string, Callback> {
    if methods == [] then map[]
    else
      var m, before := methods[|methods| - 1], CallbacksOf(snake, methods[..|methods| - 1], skips);
      if Suitable(m, skips) then before[FormatName(snake, m.callback.name) := m.callback] else before
  }

  function ServiceName(snake: bool, receiver: Receiver, names: seq<string>): string {
    var given := if receiver.ownName.Some? then receiver.ownName.value else if names != [] then names[0] else "";
    if given == "" then FormatName(snake, receiver.typeName) else given
  }

  function Skips(receiver: Receiver, excluded: seq<string>): seq<string> {
    ["Constructor", "ExcludeMethod"] + excluded + receiver.excludes
  }

  // ---- The pipeline ----

  datatype Setup = Setup(snake: bool, re: Matcher, mids: seq<MiddleInfo>,
                         middle: (nat, string) -> Option<GoError>, services: Services)

  /** What handling a request does, what it leaves in the message and the error it ends with. */
  datatype Verdict = Verdict(trace: seq<Event>, message: Wire, error: Option<GoError>)

  function GetCallback(services: Services, space: string, name: string): Result<Callback, GoError> {
    if space !in services then Failure(Rpc(ERR_NO_METHOD, "no namespace"))
    else if name !in services[space] then Failure(Rpc(ERR_NO_METHOD, "no method"))
    else Success(services[space][name])
  }

  function Complaint(e: ArgError): string {
    match e
    case TooMany(most) => "too many arguments, want at most " + NatText(most)
    case Invalid(index) => "invalid argument " + NatText(index)
    case NotArray => "non-array args"
    case BadToken => "invalid character"
    case BadEnd => "unexpected end"
  }

  function Crash(name: string, what: string): GoError {
    Rpc(ERR_INTERNAL, "RPC method " + name + " handler crashed: " + what)
  }

  function Settle(w: Wire, cb: Callback, args: seq<Value>, before: seq<Event>): Verdict {
    var trace := before + [Called(args)];
    match cb.run(args)
    case Nothing => Verdict(trace, w, None)
    case Gave(None) => Verdict(trace, w, Some(OtherError("result has no encoding")))
    case Gave(Some(json)) => Verdict(trace, w.(result := Some(json)), None)
    case Failed(err) => Verdict(trace, w, Some(err))
    case Panicked(what) => Verdict(trace, w, Some(Crash(cb.name, what)))
  }

  /** The callback's share, once it is found: middleware, arguments, call. */
  function Invoke(setup: Setup, w: Wire, cb: Callback): Verdict {
    var chain := Chain(setup.re, setup.mids, w.path);
    var passed, err := Passes(Ran(setup.middle, chain, w.path)), FirstError(setup.middle, chain, w.path);
    if err.Some? then Verdict(passed, w, err)
    else
      var args := Bind(w.params, cb.argTypes);
      if args.Failure? then Verdict(passed, w, Some(Rpc(ERR_BAD_PARAMS, Complaint(args.error))))
      else Settle(w, cb, args.value, passed)
  }

  /** Where a method path leads: its normal form, and the callback found there. */
  function Target(setup: Setup, path: string): (r: Result<(string, Callback), (string, GoError)>) {
    var parts := SplitTwo(path);
    if parts.None? then Failure((path, Rpc(ERR_NO_METHOD, "wrong method")))
    else
      var space, name := FormatName(setup.snake, parts.value.0), FormatName(setup.snake, parts.value.1);
      var found := GetCallback(setup.services, space, name);
      if found.Failure? then Failure((space + "." + name, found.error)) else Success((space + "." + name, found.value))
  }

  /** `garbled` is the decoder's complaint when the body is no message. */
  function Process(setup: Setup, w: Wire, garbled: Option<string>): Verdict {
    if garbled.Some? then Verdict([], w, Some(Rpc(ERR_PARSE, garbled.value)))
    else if !ValidId(w.id) then Verdict([], w, Some(Rpc(ERR_INVALID_REQUEST, "id is invalid")))
    else
      var target := Target(setup, w.path);
      if target.Failure? then Verdict([], w.(path := target.error.0), Some(target.error.1))
      else Invoke(setup, w.(path := target.value.0), target.value.1)
  }

  function Answer(setup: Setup, w: Wire, garbled: Option<string>): Wire {
    var v := Process(setup, w, garbled);
    Finished(if v.error.None? then v.message else v.message.(error := Some(Report(v.error.value))))
  }

  datatype Response = Silent | Refused(status: int, text: string) | Answered(message: Wire)

  class Server {
    const opt: DispatchOption
    var running: bool
    var services: Services
    var excludeMethods: seq<string>

    constructor (opt: DispatchOption)
      ensures this.opt == opt && running && services == map[] && excludeMethods == []
    {
      this.opt := opt;
      running, services, excludeMethods := true, map[], [];
    }

    ghost function SetupWith(middle: (nat, string) -> Option<GoError>): Setup
      reads this, opt
    {
      Setup(opt.snakeNamespace, opt.re, opt.beforeMid, middle, services)
    }

    method Stop()
      modifies this`running
      ensures !running
    {
      if running {
        running := false;
      }
    }

    method SuitableCallbacks(receiver: Receiver) returns (callbacks: map<string, Callback>)
      ensures callbacks == CallbacksOf(opt.snakeNamespace, receiver.methods, Skips(receiver, excludeMethods))
    {
      callbacks := map[];
      var skips := ["Constructor", "ExcludeMethod"] + excludeMethods + receiver.excludes;
      for i := 0 to |receiver.methods|
        invariant callbacks == CallbacksOf(opt.snakeNamespace, receiver.methods[..i], skips)
      {
        assert receiver.methods[..i + 1][..i] == receiver.methods[..i];
        var m := receiver.methods[i];
        if m.exported && m.callback.name !in skips && GoodResults(m.outs) {
          callbacks := callbacks[FormatName(opt.snakeNamespace, m.callback.name) := m.callback];
        }
      }
      assert receiver.methods[..|receiver.methods|] == receiver.methods;
    }

    /** A value without callbacks is passed over, a name already taken is a panic; neither changes anything. */
    method Register(receiver: Receiver, names: seq<string>) returns (panicked: bool)
      modifies this`services
      ensures var name := ServiceName(opt.snakeNamespace, receiver, names);
              var callbacks := CallbacksOf(opt.snakeNamespace, receiver.methods, Skips(receiver, excludeMethods));
              && (panicked <==> callbacks != map[] && name in old(services))
              && services == if callbacks != map[] && name !in old(services)
                             then old(services)[name := callbacks] else old(services)
      ensures services != old(services) ==>
                forall middle, space, name | Addresses(opt.snakeNamespace, receiver, names, space) ::
                  LeadsToExposed(SetupWith(middle), receiver, excludeMethods, space, name)
    {
      var name := "";
      if |names| > 0 && |names[0]| > 0 {
        name := names[0];
      }
      if receiver.ownName.Some? {
        name := receiver.ownName.value;
      }
      if |name| == 0 {
        name := FormatName(opt.snakeNamespace, receiver.typeName);
      }
      var callbacks := SuitableCallbacks(receiver);
      if |callbacks| == 0 {
        return false;
      }
      if name in services {
        return true;
      }
      ghost var before := services;
      services := services[name := callbacks];
      forall middle, space, m | Addresses(opt.snakeNamespace, receiver, names, space)
        ensures LeadsToExposed(SetupWith(middle), receiver, excludeMethods, space, m)
      {
        RegisteredIsReached(SetupWith(middle), before, receiver, names, excludeMethods, space, m);
      }
      return false;
    }

    method Call(msg: RpcMessage, cb: Callback, args: seq<Value>) returns (err: Option<GoError>)
      modifies msg`result, opt`trace
      ensures var v := Settle(old(msg.View()), cb, args, old(opt.trace));
              msg.View() == v.message && err == v.error && opt.trace == v.trace
    {
      opt.trace := opt.trace + [Called(args)];
      match cb.run(args) {
        case Nothing => return None;
        case Gave(None) => return Some(OtherError("result has no encoding"));
        case Gave(Some(json)) =>
          msg.result := Some(json);
          return None;
        case Failed(e) => return Some(e);
        case Panicked(what) => return Some(Crash(cb.name, what));
      }
    }

    /** Middleware first, then the arguments, then the call. */
    method Serve(msg: RpcMessage, cb: Callback, middle: (nat, string) -> Option<GoError>) returns (err: Option<GoError>)
      modifies msg, opt`trace
      ensures var v := Invoke(old(SetupWith(middle)), old(msg.View()), cb);
              msg.View() == v.message && err == v.error && opt.trace == old(opt.trace) + v.trace
    {
      err := opt.BeforeMiddlewareAction(middle, msg.path);
      if err.Some? {
        return;
      }
      ghost var passed := Passes(Ran(middle, Chain(opt.re, opt.beforeMid, msg.path), msg.path));
      assert opt.trace == old(opt.trace) + passed;
      var args := ParsePositionalArguments(msg.params, cb.argTypes);
      if args.Failure? {
        return Some(Rpc(ERR_BAD_PARAMS, Complaint(args.error)));
      }
      err := Call(msg, cb, args.value);
      assert opt.trace == old(opt.trace) + (passed + [Called(args.value)]);
    }

    method Handle(msg: RpcMessage, garbled: Option<string>, middle: (nat, string) -> Option<GoError>)
      returns (err: Option<GoError>)
      modifies msg, opt`trace
      ensures var v := Process(old(SetupWith(middle)), old(msg.View()), garbled);
              msg.View() == v.message && err == v.error && opt.trace == old(opt.trace) + v.trace
    {
      assert opt.trace + [] == opt.trace;
      if garbled.Some? {
        return Some(Rpc(ERR_PARSE, garbled.value));
      }
      if !ValidId(msg.id) {
        return Some(Rpc(ERR_INVALID_REQUEST, "id is invalid"));
      }
      var parts := SplitTwo(msg.path);
      if parts.None? {
        return Some(Rpc(ERR_NO_METHOD, "wrong method"));
      }
      var space := FormatName(opt.snakeNamespace, parts.value.0);
      var name := FormatName(opt.snakeNamespace, parts.value.1);
      msg.path := space + "." + name;
      var found := GetCallback(services, space, name);
      if found.Failure? {
        return Some(found.error);
      }
      err := Serve(msg, found.value, middle);
    }

    /**
     `taken`: the response is already written when the request arrives; `refusal`: what the check of
     the HTTP request says; `takenOver`: middleware or the callback has written the response itself.
     */
    method Handler(sent: Wire, garbled: Option<string>, middle: (nat, string) -> Option<GoError>,
                   taken: bool, refusal: Option<(int, string)>, takenOver: bool)
      returns (response: Response)
      modifies opt`trace
      ensures !running || taken || refusal.Some? ==> opt.trace == old(opt.trace)
      ensures running && !taken && refusal.None?
              ==> opt.trace == old(opt.trace) + Process(old(SetupWith(middle)), sent, garbled).trace
      ensures response == if !running || taken then Silent
                          else if refusal.Some? then Refused(refusal.value.0, refusal.value.1)
                          else if takenOver then Silent
                          else Answered(Answer(old(SetupWith(middle)), sent, garbled))
    {
      if !running || taken {
        return Silent;
      }
      if refusal.Some? {
        return Refused(refusal.value.0, refusal.value.1);
      }
      var msg := new RpcMessage(sent);
      var err := Handle(msg, garbled, middle);
      msg.SetError(err);
      msg.Output();
      return if takenOver then Silent else Answered(msg.View());
    }
  }

  // ---- What the pipeline keeps ----

  predicate Resolves(setup: Setup, w: Wire, garbled: Option<string>) {
    garbled.None? && ValidId(w.id) && Target(setup, w.path).Success?
  }

  /** The callback is reached: found, let through by all its middleware, and given its arguments. */
  ghost predicate Reaches(setup: Setup, w: Wire, garbled: Option<string>) {
    && Resolves(setup, w, garbled)
    && var (path, cb) := Target(setup, w.path).value;
       && (forall fn | fn in Chain(setup.re, setup.mids, path) :: setup.middle(fn, path).None?)
       && Bind(w.params, cb.argTypes).Success?
  }

  lemma InvokeInOrder(setup: Setup, w: Wire, cb: Callback)
    ensures var v, chain := Invoke(setup, w, cb), Chain(setup.re, setup.mids, w.path);
            if (forall fn | fn in chain :: setup.middle(fn, w.path).None?) && Bind(w.params, cb.argTypes).Success? then
              v == Settle(w, cb, Bind(w.params, cb.argTypes).value, Passes(chain))
            else
              && v.error.Some? && v.message == w
              && (forall i | 0 <= i < |v.trace| ::
                    v.trace[i].Passed? && (setup.middle(v.trace[i].fn, w.path).Some? ==> i == |v.trace| - 1))
              && v.trace <= Passes(chain)
  {
    var chain := Chain(setup.re, setup.mids, w.path);
    RanIsPrefix(setup.middle, chain, w.path);
    PassesPrefix(Ran(setup.middle, chain, w.path), chain);
  }

  /**
   A request that reaches its callback first passes all its middleware in order and then calls the
   callback once, with one value for each declared argument. Any other request calls nothing and
   ends in an error; it has then run a prefix of the middleware of which only the last can have failed.
   */
  lemma CalledOnceAfterMiddleware(setup: Setup, w: Wire, garbled: Option<string>)
    ensures var v := Process(setup, w, garbled);
            if Reaches(setup, w, garbled) then
              var (path, cb) := Target(setup, w.path).value;
              && |Bind(w.params, cb.argTypes).value| == |cb.argTypes|
              && v.trace == Passes(Chain(setup.re, setup.mids, path)) + [Called(Bind(w.params, cb.argTypes).value)]
            else
              && v.error.Some? && v.message.result == w.result
              && (forall i | 0 <= i < |v.trace| ::
                    v.trace[i].Passed? && (setup.middle(v.trace[i].fn, v.message.path).Some? ==> i == |v.trace| - 1))
              && v.trace <= Passes(Chain(setup.re, setup.mids, v.message.path))
  {
    if Resolves(setup, w, garbled) {
      var (path, cb) := Target(setup, w.path).value;
      InvokeInOrder(setup, w.(path := path), cb);
      BindsExactly(w.params, cb.argTypes);
    }
  }

  /** The same from the lists given at registration: which functions a request passes, and in what order. */
  lemma CalledOnceAfterWanted(setup: Setup, regs: seq<Registration>, w: Wire, garbled: Option<string>)
    requires setup.mids == InfosOf(regs)
    ensures var v := Process(setup, w, garbled);
            if Reaches(setup, w, garbled) then
              var (path, cb) := Target(setup, w.path).value;
              v.trace == Passes(WantedFns(setup.re, regs, path)) + [Called(Bind(w.params, cb.argTypes).value)]
            else v.trace <= Passes(WantedFns(setup.re, regs, v.message.path))
  {
    CalledOnceAfterMiddleware(setup, w, garbled);
    ChainIsWanted(setup.re, regs, Process(setup, w, garbled).message.path);
    if Reaches(setup, w, garbled) {
      ChainIsWanted(setup.re, regs, Target(setup, w.path).value.0);
    }
  }

  lemma InvokeKeepsId(setup: Setup, w: Wire, cb: Callback)
    ensures Invoke(setup, w, cb).message.id == w.id
  {
    InvokeInOrder(setup, w, cb);
  }

  lemma ProcessKeepsId(setup: Setup, w: Wire, garbled: Option<string>)
    ensures Process(setup, w, garbled).message.id == w.id
  {
    if Resolves(setup, w, garbled) {
      var (path, cb) := Target(setup, w.path).value;
      InvokeKeepsId(setup, w.(path := path), cb);
    }
  }

  /** A response has its request's id, `1` only if that has none, the version, and neither method nor parameters. */
  lemma AnswerKeepsId(setup: Setup, w: Wire, garbled: Option<string>)
    ensures var a := Answer(setup, w, garbled);
            && (w.id != "" ==> a.id == w.id) && (w.id == "" ==> a.id == "1")
            && a.version == "2.0" && a.path == "" && a.params == Absent
  {
    ProcessKeepsId(setup, w, garbled);
  }

  /** What the callback makes of a request that reaches it. */
  function OutcomeOf(setup: Setup, w: Wire): Outcome
    requires Target(setup, w.path).Success? && Bind(w.params, Target(setup, w.path).value.1.argTypes).Success?
  {
    var cb := Target(setup, w.path).value.1;
    cb.run(Bind(w.params, cb.argTypes).value)
  }

  /**
   Which members the response has, from the request and from what the callback makes of it: a
   member the request brought stays unless it is replaced.
   */
  lemma MembersOfAnswer(setup: Setup, w: Wire, garbled: Option<string>)
    ensures var a := Answer(setup, w, garbled);
            if !Reaches(setup, w, garbled) then a.error.Some? && a.result == w.result
            else match OutcomeOf(setup, w)
                 case Gave(Some(json)) => a.result == Some(json) && a.error == w.error
                 case Nothing => a.result == w.result && a.error == w.error
                 case _ => a.error.Some? && a.result == w.result
  {
    CalledOnceAfterMiddleware(setup, w, garbled);
    if Reaches(setup, w, garbled) {
      var (path, cb) := Target(setup, w.path).value;
      InvokeInOrder(setup, w.(path := path), cb);
    }
  }

  /** Both members: only for requests that bring one themselves. */
  lemma BothIff(setup: Setup, w: Wire, garbled: Option<string>)
    ensures var a := Answer(setup, w, garbled);
            a.result.Some? && a.error.Some?
            <==> if Reaches(setup, w, garbled) && OutcomeOf(setup, w).Gave? && OutcomeOf(setup, w).json.Some?
                 then w.error.Some?
                 else if Reaches(setup, w, garbled) && OutcomeOf(setup, w).Nothing?
                 then w.result.Some? && w.error.Some?
                 else w.result.Some?
  {
    MembersOfAnswer(setup, w, garbled);
  }

  /** Neither member: only when the callback is reached and gives nothing or a zero value. */
  lemma NeitherIff(setup: Setup, w: Wire, garbled: Option<string>)
    ensures var a := Answer(setup, w, garbled);
            a.result.None? && a.error.None?
            <==> Reaches(setup, w, garbled) && OutcomeOf(setup, w).Nothing? && w.result.None? && w.error.None?
  {
    MembersOfAnswer(setup, w, garbled);
  }

  /**
   Section 5 of the JSON-RPC 2.0 Specification wants exactly one of the two members. For a request
   that brings neither, the response has exactly one unless the callback is reached and gives
   nothing or a zero value.
   */
  lemma ExactlyOneIff(setup: Setup, w: Wire, garbled: Option<string>)
    requires w.result.None? && w.error.None?
    ensures var a := Answer(setup, w, garbled);
            a.result.Some? == a.error.Some? <==> Reaches(setup, w, garbled) && OutcomeOf(setup, w).Nothing?
  {
    MembersOfAnswer(setup, w, garbled);
  }

  /** The path leads to no registered method. */
  ghost predicate LeadsNowhere(setup: Setup, path: string) {
    forall space, name | path == space + "." + name && '.' !in space ::
      var s, n := FormatName(setup.snake, space), FormatName(setup.snake, name);
      !(s in setup.services && n in setup.services[s])
  }

  /** The error of a request whose callback is found: the first stage that fails decides. */
  lemma InvokeNamesTheStage(setup: Setup, w: Wire, cb: Callback)
    ensures var v, args := Invoke(setup, w, cb), Bind(w.params, cb.argTypes);
            var chain := Chain(setup.re, setup.mids, w.path);
            if exists fn | fn in chain :: setup.middle(fn, w.path).Some? then
              FirstFails(setup, chain, w.path, v.error)
            else if args.Failure? then HasCode(v.error, -32602)
            else match cb.run(args.value)
                 case Failed(err) => v.error == Some(err)
                 case Panicked(_) => HasCode(v.error, -32603)
                 case Gave(None) => HasCode(v.error, -32000)
                 case _ => v.error.None?
  {
    var chain := Chain(setup.re, setup.mids, w.path);
    RanIsPrefix(setup.middle, chain, w.path);
    if FirstError(setup.middle, chain, w.path).Some? {
      FirstErrorIsFirst(setup.middle, chain, w.path);
    }
  }

  /** `error` is that of the first function of the chain that fails. */
  ghost predicate FirstFails(setup: Setup, chain: seq<nat>, path: string, error: Option<GoError>) {
    exists i | 0 <= i < |chain| ::
      && error == setup.middle(chain[i], path) && error.Some?
      && forall j | 0 <= j < i :: setup.middle(chain[j], path).None?
  }

  ghost predicate HasCode(error: Option<GoError>, code: int) {
    error.Some? && Report(error.value).code == code
  }

  /** The response tells the error, in the code of its kind. */
  predicate Tells(a: Wire, err: GoError) {
    a.error == Some(match err
                    case Rpc(code, message) => RpcError(code, message)
                    case TokenError(message) => RpcError(401, message)
                    case ForbiddenError(message) => RpcError(403, message)
                    case OtherError(message) => RpcError(-32000, message))
  }

  /** The response carries an error with the code. */
  ghost predicate Carries(a: Wire, code: int) {
    a.error.Some? && a.error.value.code == code
  }

  /**
   The error of the response: -32700 for a body that is no message, else -32600 for a bad id, else
   -32601 for a path that leads to no registered method, else that of the first failing middleware,
   else -32602 for arguments that do not bind, else what the callback's outcome says.
   */
  lemma AnswerNamesTheStage(setup: Setup, w: Wire, garbled: Option<string>)
    ensures var a := Answer(setup, w, garbled);
            if garbled.Some? then Carries(a, -32700)
            else if w.id == "" || w.id[0] in "{[" then Carries(a, -32600)
            else if LeadsNowhere(setup, w.path) then Carries(a, -32601)
            else
              && Target(setup, w.path).Success?
              && var (path, cb) := Target(setup, w.path).value;
                 var chain, args := Chain(setup.re, setup.mids, path), Bind(w.params, cb.argTypes);
                 if exists fn | fn in chain :: setup.middle(fn, path).Some? then
                   exists e :: FirstFails(setup, chain, path, Some(e)) && Tells(a, e)
                 else if args.Failure? then Carries(a, -32602)
                 else match cb.run(args.value)
                      case Failed(err) => Tells(a, err)
                      case Panicked(_) => Carries(a, -32603)
                      case Gave(None) => Carries(a, -32000)
                      case _ => a.error == w.error
  {
    NowhereIff(setup, w.path);
    if Resolves(setup, w, garbled) {
      var (path, cb) := Target(setup, w.path).value;
      InvokeNamesTheStage(setup, w.(path := path), cb);
    }
  }

  lemma NowhereIff(setup: Setup, path: string)
    ensures LeadsNowhere(setup, path) <==> Target(setup, path).Failure?
    ensures Target(setup, path).Failure? ==> HasCode(Some(Target(setup, path).error.1), -32601)
  {
    var parts := SplitTwo(path);
    if parts.Some? {
      assert path == parts.value.0 + "." + parts.value.1 && '.' !in parts.value.0;
    }
    forall space, name | path == space + "." + name && '.' !in space ensures parts == Some((space, name)) {
      SplitTwoExactly(space, name);
    }
  }

  /** With snake namespaces the spelling of a method decides nothing about the run or the response. */
  lemma SpellingIsIrrelevant(setup: Setup, w: Wire, garbled: Option<string>, space: string, name: string,
                             otherSpace: string, otherName: string)
    requires setup.snake && '.' !in space && '.' !in otherSpace
    requires Snake(space) == Snake(otherSpace) && Snake(name) == Snake(otherName)
    ensures var one, other := w.(path := space + "." + name), w.(path := otherSpace + "." + otherName);
            && Answer(setup, one, garbled) == Answer(setup, other, garbled)
            && Process(setup, one, garbled).trace == Process(setup, other, garbled).trace
  {
    SplitTwoExactly(space, name);
    SplitTwoExactly(otherSpace, otherName);
    assert Target(setup, space + "." + name) == Target(setup, otherSpace + "." + otherName);
  }

  lemma SplitTwoExactly(space: string, name: string)
    requires '.' !in space
    ensures SplitTwo(space + "." + name) == Some((space, name))
  {
    var path := space + "." + name;
    assert path[|space|] == '.';
    var parts := SplitTwo(path).value;
    DotSplitUnique(parts.0, parts.1, space, name);
  }

  // ---- What registration keeps ----

  /** Go names of the usual kind: letters and digits, a capital first and no two capitals in a row. */
  predicate Usual(name: string) {
    name != "" && Upper(name[0]) && AllAlnum(name) && NoAdjacentCapitals(name)
  }

  ghost predicate Registers(methods: seq<GoMethod>, skips: seq<string>, i: int) {
    0 <= i < |methods| && Suitable(methods[i], skips)
  }

  lemma {:induction false} NamesRegistered(snake: bool, methods: seq<GoMethod>, skips: seq<string>, key: string)
    ensures key in CallbacksOf(snake, methods, skips)
            <==> exists i :: Registers(methods, skips, i) && FormatName(snake, methods[i].callback.name) == key
  {
    if methods != [] {
      var n := |methods| - 1;
      var before := methods[..n];
      NamesRegistered(snake, before, skips, key);
      assert forall i :: Registers(before, skips, i) <==> i < n && Registers(methods, skips, i);
      assert Registers(methods, skips, n) <==> Suitable(methods[n], skips);
    }
  }

  /** Of methods with the same formatted name the last is the one reached. */
  lemma {:induction false} LastOfANameWins(snake: bool, methods: seq<GoMethod>, skips: seq<string>, i: int)
    requires Registers(methods, skips, i)
    requires forall j | i < j && Registers(methods, skips, j) ::
               FormatName(snake, methods[j].callback.name) != FormatName(snake, methods[i].callback.name)
    ensures var key, callbacks := FormatName(snake, methods[i].callback.name), CallbacksOf(snake, methods, skips);
            key in callbacks && callbacks[key] == methods[i].callback
  {
    var n := |methods| - 1;
    if i < n {
      var before := methods[..n];
      assert forall j :: Registers(before, skips, j) <==> j < n && Registers(methods, skips, j);
      LastOfANameWins(snake, before, skips, i);
      assert Suitable(methods[n], skips) ==> Registers(methods, skips, n);
    }
  }

  /** The registered methods have alphanumeric names, no two the same, as the methods of a Go type do. */
  ghost predicate GoNames(methods: seq<GoMethod>, skips: seq<string>) {
    && (forall i | Registers(methods, skips, i) :: AllAlnum(methods[i].callback.name))
    && forall i, j | Registers(methods, skips, i) && Registers(methods, skips, j) && i != j ::
         methods[i].callback.name != methods[j].callback.name
  }

  /** A method registered later has the same words, or under plain names the same name. */
  ghost predicate HiddenLater(snake: bool, methods: seq<GoMethod>, skips: seq<string>, i: int)
    requires 0 <= i < |methods|
  {
    snake && exists j :: i < j && Registers(methods, skips, j)
                         && SameWords(methods[i].callback.name, methods[j].callback.name)
  }

  lemma LastOfName(snake: bool, methods: seq<GoMethod>, skips: seq<string>, i: int) returns (k: int)
    requires Registers(methods, skips, i)
    ensures i <= k && Registers(methods, skips, k)
    ensures FormatName(snake, methods[k].callback.name) == FormatName(snake, methods[i].callback.name)
    ensures forall j | k < j && Registers(methods, skips, j) ::
              FormatName(snake, methods[j].callback.name) != FormatName(snake, methods[i].callback.name)
    decreases |methods| - i
  {
    var key := FormatName(snake, methods[i].callback.name);
    if j :| i < j && Registers(methods, skips, j) && FormatName(snake, methods[j].callback.name) == key {
      k := LastOfName(snake, methods, skips, j);
    } else {
      k := i;
    }
  }

  /**
   A method is reached under its formatted name exactly when no method registered later has the
   same words; otherwise another method of these words hides it.
   */
  lemma HiddenIff(snake: bool, methods: seq<GoMethod>, skips: seq<string>, i: int)
    requires Registers(methods, skips, i) && GoNames(methods, skips)
    ensures var key, callbacks := FormatName(snake, methods[i].callback.name), CallbacksOf(snake, methods, skips);
            && key in callbacks
            && (callbacks[key].name == methods[i].callback.name ==> callbacks[key] == methods[i].callback)
            && (callbacks[key].name != methods[i].callback.name <==> HiddenLater(snake, methods, skips, i))
  {
    var name := methods[i].callback.name;
    var k := LastOfName(snake, methods, skips, i);
    LastOfANameWins(snake, methods, skips, k);
    forall j | Registers(methods, skips, j)
      ensures FormatName(snake, methods[j].callback.name) == FormatName(snake, name)
              <==> methods[j].callback.name == name || (snake && SameWords(name, methods[j].callback.name))
    {
      if snake { SnakeEqualIff(name, methods[j].callback.name); }
    }
    if k == i {
      assert forall j | i < j && Registers(methods, skips, j) :: methods[j].callback.name != name;
    }
  }

  /** Methods with usual, distinct names never take each other's place. */
  lemma UsualNamesNeverCollide(snake: bool, methods: seq<GoMethod>, skips: seq<string>, i: int)
    requires Registers(methods, skips, i)
    requires forall j | Registers(methods, skips, j) :: Usual(methods[j].callback.name)
    requires forall j | Registers(methods, skips, j) && j != i :: methods[j].callback.name != methods[i].callback.name
    ensures var key, callbacks := FormatName(snake, methods[i].callback.name), CallbacksOf(snake, methods, skips);
            key in callbacks && callbacks[key] == methods[i].callback
  {
    var name := methods[i].callback.name;
    var key := FormatName(snake, name);
    forall j | i < j && Registers(methods, skips, j) ensures FormatName(snake, methods[j].callback.name) != key {
      if snake && Snake(methods[j].callback.name) == key {
        SnakeInjective(methods[j].callback.name, name);
      }
    }
    LastOfANameWins(snake, methods, skips, i);
  }

  /** Two capitals in a row are enough for one method to hide another. */
  lemma CapitalsInARowHide(a: GoMethod, b: GoMethod)
    requires a.callback.name == "AB" && b.callback.name == "Ab" && Suitable(a, []) && Suitable(b, [])
    ensures CallbacksOf(true, [a, b], []) == map["ab" := b.callback]
  {
    AdjacentCapitalsCollide();
    assert [a, b][..1] == [a] && [a][..0] == [];
    assert CallbacksOf(true, [a], []) == map["ab" := a.callback];
  }

  /** Of the registered methods with the snake form of `name`, the last is `i`. */
  ghost predicate LastOfForm(methods: seq<GoMethod>, skips: seq<string>, name: string, i: int) {
    && Registers(methods, skips, i) && Snake(methods[i].callback.name) == Snake(name)
    && forall j | i < j && Registers(methods, skips, j) :: Snake(methods[j].callback.name) != Snake(name)
  }

  /** The service is registered under its type's name, and `space` has its snake form. */
  ghost predicate TypeNamed(setup: Setup, service: string, methods: seq<GoMethod>, skips: seq<string>, space: string) {
    && setup.snake && Snake(service) in setup.services
    && setup.services[Snake(service)] == CallbacksOf(true, methods, skips)
    && '.' !in space && Snake(space) == Snake(service)
  }

  /**
   A service registered under its type's name: a dotted request with the same snake forms, in
   whatever spelling, leads to the last method of that form, and to no method exactly if none has it.
   */
  lemma ReachedBySnakeForm(setup: Setup, service: string, methods: seq<GoMethod>, skips: seq<string>,
                           space: string, name: string)
    requires TypeNamed(setup, service, methods, skips, space)
    ensures var target := Target(setup, space + "." + name);
            && (target.Success? <==> exists i :: Registers(methods, skips, i)
                                                 && Snake(methods[i].callback.name) == Snake(name))
            && (target.Success? <==> exists i :: LastOfForm(methods, skips, name, i))
            && forall i | LastOfForm(methods, skips, name, i) ::
                 target == Success((Snake(service) + "." + Snake(name), methods[i].callback))
  {
    SplitTwoExactly(space, name);
    NamesRegistered(true, methods, skips, Snake(name));
    if i :| Registers(methods, skips, i) && Snake(methods[i].callback.name) == Snake(name) {
      var k := LastOfName(true, methods, skips, i);
      assert LastOfForm(methods, skips, name, k);
    }
    forall i | LastOfForm(methods, skips, name, i)
      ensures Target(setup, space + "." + name) == Success((Snake(service) + "." + Snake(name), methods[i].callback))
    {
      LastOfANameWins(true, methods, skips, i);
    }
  }

  /**
   With alphanumeric names, no two the same, the request leads to a method exactly if its name
   has the same words and no method registered later has them too.
   */
  lemma ReachedBySameWords(setup: Setup, service: string, methods: seq<GoMethod>, skips: seq<string>,
                           space: string, name: string, i: int)
    requires TypeNamed(setup, service, methods, skips, space)
    requires GoNames(methods, skips) && AllAlnum(name) && Registers(methods, skips, i)
    ensures var target := Target(setup, space + "." + name);
            target.Success? && target.value.1.name == methods[i].callback.name
            <==> SameWords(methods[i].callback.name, name) && !HiddenLater(true, methods, skips, i)
  {
    ReachedBySnakeForm(setup, service, methods, skips, space, name);
    forall j | Registers(methods, skips, j)
      ensures Snake(methods[j].callback.name) == Snake(name) <==> SameWords(methods[j].callback.name, name)
    {
      SnakeEqualIff(methods[j].callback.name, name);
    }
    forall j | Registers(methods, skips, j)
      ensures Snake(methods[i].callback.name) == Snake(methods[j].callback.name)
              <==> SameWords(methods[i].callback.name, methods[j].callback.name)
    {
      SnakeEqualIff(methods[i].callback.name, methods[j].callback.name);
    }
    if k :| LastOfForm(methods, skips, name, k) {
      assert k != i ==> methods[k].callback.name != methods[i].callback.name;
    }
  }

  /** Usual names, no two the same: the method of that form is reached. */
  lemma UsualIsReached(setup: Setup, service: string, methods: seq<GoMethod>, skips: seq<string>,
                       space: string, name: string, i: int)
    requires TypeNamed(setup, service, methods, skips, space)
    requires Registers(methods, skips, i) && Snake(methods[i].callback.name) == Snake(name)
    requires forall j | Registers(methods, skips, j) :: Usual(methods[j].callback.name)
    requires forall j | Registers(methods, skips, j) && j != i :: methods[j].callback.name != methods[i].callback.name
    ensures Target(setup, space + "." + name) == Success((Snake(service) + "." + Snake(name), methods[i].callback))
  {
    forall j | i < j && Registers(methods, skips, j) ensures Snake(methods[j].callback.name) != Snake(name) {
      if Snake(methods[j].callback.name) == Snake(name) {
        SnakeInjective(methods[j].callback.name, methods[i].callback.name);
      }
    }
    ReachedBySnakeForm(setup, service, methods, skips, space, name);
    assert LastOfForm(methods, skips, name, i);
  }

  // ---- From registration to request ----

  /** The method can be called: exported, not excluded by anyone, with results the dispatcher can handle. */
  predicate Exposed(receiver: Receiver, excluded: seq<string>, i: int) {
    && 0 <= i < |receiver.methods|
    && var m := receiver.methods[i];
       && m.exported && m.callback.name != "Constructor" && m.callback.name != "ExcludeMethod"
       && m.callback.name !in excluded && m.callback.name !in receiver.excludes
       && (m.outs == [] || |m.outs| == 1 || m.outs == [false, true])
  }

  /**
   A request's namespace is that of the value: what it calls itself, or else the name given with it,
   or else, both in the form requests are put into, that of its type.
   */
  predicate Addresses(snake: bool, receiver: Receiver, names: seq<string>, space: string) {
    '.' !in space
    && var given := match receiver.ownName
                    case Some(own) => own
                    case None => if names == [] then "" else names[0];
       if given != "" then given == (if snake then Snake(space) else space)
       else if snake then Snake(space) == Snake(receiver.typeName)
       else space == receiver.typeName
  }

  predicate SameForm(snake: bool, a: string, b: string) {
    if snake then Snake(a) == Snake(b) else a == b
  }

  ghost predicate LastExposed(snake: bool, receiver: Receiver, excluded: seq<string>, name: string, i: int) {
    && Exposed(receiver, excluded, i) && SameForm(snake, receiver.methods[i].callback.name, name)
    && forall j | i < j && Exposed(receiver, excluded, j) :: !SameForm(snake, receiver.methods[j].callback.name, name)
  }

  /** The request leads to the last exposed method of this name, and to none exactly if there is none. */
  ghost predicate LeadsToExposed(setup: Setup, receiver: Receiver, excluded: seq<string>, space: string, name: string) {
    var target := Target(setup, space + "." + name);
    && (target.Success? <==> exists i :: Exposed(receiver, excluded, i)
                                         && SameForm(setup.snake, receiver.methods[i].callback.name, name))
    && (target.Success? <==> exists i :: LastExposed(setup.snake, receiver, excluded, name, i))
    && forall i | LastExposed(setup.snake, receiver, excluded, name, i) ::
         target.Success? && target.value.1 == receiver.methods[i].callback
  }

  lemma ExposedRegisters(receiver: Receiver, excluded: seq<string>, i: int)
    ensures Exposed(receiver, excluded, i) <==> Registers(receiver.methods, Skips(receiver, excluded), i)
  {
    if 0 <= i < |receiver.methods| {
      var outs := receiver.methods[i].outs;
      assert outs == [false, true] <==> |outs| == 2 && !outs[0] && outs[1];
    }
  }

  /** A value that is registered can be called, method by method, under every spelling the server takes for the same. */
  lemma RegisteredIsReached(setup: Setup, before: Services, receiver: Receiver, names: seq<string>,
                            excluded: seq<string>, space: string, name: string)
    requires Addresses(setup.snake, receiver, names, space)
    requires setup.services == before[ServiceName(setup.snake, receiver, names) :=
                                      CallbacksOf(setup.snake, receiver.methods, Skips(receiver, excluded))]
    ensures LeadsToExposed(setup, receiver, excluded, space, name)
  {
    var methods, skips := receiver.methods, Skips(receiver, excluded);
    SplitTwoExactly(space, name);
    NamesRegistered(setup.snake, methods, skips, FormatName(setup.snake, name));
    forall i ensures Exposed(receiver, excluded, i) <==> Registers(methods, skips, i) {
      ExposedRegisters(receiver, excluded, i);
    }
    if i :| Registers(methods, skips, i) && SameForm(setup.snake, methods[i].callback.name, name) {
      var k := LastOfName(setup.snake, methods, skips, i);
      assert LastExposed(setup.snake, receiver, excluded, name, k);
    }
    forall i | LastExposed(setup.snake, receiver, excluded, name, i)
      ensures Target(setup, space + "." + name).Success?
              && Target(setup, space + "." + name).value.1 == methods[i].callback
    {
      LastOfANameWins(setup.snake, methods, skips, i);
    }
  }

  /** Some request is led to a method of a service, under the names they are registered by. */
  ghost predicate Reachable(setup: Setup, space: string, name: string)
    requires space in setup.services && name in setup.services[space]
  {
    exists path, parts ::
      && SplitTwo(path) == Some(parts)
      && FormatName(setup.snake, parts.0) == space && FormatName(setup.snake, parts.1) == name
      && Target(setup, path) == Success((space + "." + name, setup.services[space][name]))
  }

  predicate NoCapitals(s: string) {
    forall c | c in s :: !Upper(c)
  }

  /**
   A name given to a service by hand is not put into snake form, though requests are. Under snake
   namespaces some request is led to a method of such a service, registered as methods are,
   exactly when the given name holds neither a dot nor a capital.
   */
  lemma GivenNameReachableIff(setup: Setup, given: string, methodName: string)
    requires setup.snake && given in setup.services && Snake(methodName) in setup.services[given]
    ensures Reachable(setup, given, Snake(methodName)) <==> '.' !in given && NoCapitals(given)
  {
    var name := Snake(methodName);
    if Reachable(setup, given, name) {
      var path, parts :| SplitTwo(path) == Some(parts) && FormatName(setup.snake, parts.0) == given
                         && FormatName(setup.snake, parts.1) == name
                         && Target(setup, path) == Success((given + "." + name, setup.services[given][name]));
      SnakeKeepsDots(parts.0, false);
      SnakeHasNoCapitals(parts.0, false);
    }
    if '.' !in given && NoCapitals(given) {
      NoCapitalsIsFixed(given, false);
      SnakeIdempotent(methodName);
      SplitTwoExactly(given, name);
      assert Target(setup, given + "." + name) == Success((given + "." + name, setup.services[given][name]));
    }
  }
}
