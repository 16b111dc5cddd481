/**
 * Commands and the Commander that owns them (command.go, commander.go).
 *
 * Every extension point (registration, request handling, response handling, static and
 * shell execution) resolves the same way: the command's own function if it has one, else
 * the commander's default, else a "not configured" error; errors coming back from the
 * function run are prefixed with the level it came from. Handlers, hooks and exec
 * functions are opaque values: what running one returns is supplied by the caller as
 * `run`. The error handler is modelled as the recipient of an error log that the commander
 * keeps, so that a reported error is recorded and execution continues.
 */
module Registry {
  import opened Wrappers
  import opened Text
  import opened Inspector

  /** A function value stored in a handler, exec or hook slot. */
  datatype Handler =
    | DefaultErrorHandler
    | XMLPrettyPrintResponseHandler
    | GenericStaticExec
    | GenericShellExec
    | DefaultRegistrationFunc
    | UserFunc(id: nat)

  /** The places where a command's own function is preferred over the commander's default. */
  datatype ExtensionPoint = Registration | Request | Response | StaticExecution | ShellExecution

  /** The error when neither the command nor the commander has a function for `p`. */
  function NotConfigured(p: ExtensionPoint): string
  {
    match p
    case Registration => "no registration handler defined"
    case Request => "no request handler defined"
    case Response => "no response handler defined"
    case StaticExecution => "no static exec handler defined"
    case ShellExecution => "no shell exec handler defined"
  }

  /** How an error returned by the function resolved for `p` is prefixed. */
  function Origin(p: ExtensionPoint, fromCommand: bool): string
  {
    "error from " + (if fromCommand then "command " else "commander ") +
    match p
    case Registration => "registration handler: "
    case Request => "request handler: "
    case Response => "response handler: "
    case StaticExecution => "static exec: "
    case ShellExecution => "shell exec: "
  }

  /** Which function a resolution ran (if any) and the error, if any, it ends with. */
  datatype Call = Call(invoked: Option<Handler>, outcome: Outcome)

  /** The resolution chain: the command's own function, else the default, else an error. */
  function Resolve(p: ExtensionPoint, local: Option<Handler>, global: Option<Handler>, run: Handler -> Outcome): (c: Call)
    ensures c.invoked == if local.Some? then local else global
    ensures c.invoked.None? ==> c.outcome == Fail(NotConfigured(p))
    ensures c.invoked.Some? ==>
      (c.outcome.Pass? <==> run(c.invoked.value).Pass?) &&
      (run(c.invoked.value).Fail? ==> c.outcome == Fail(Origin(p, local.Some?) + run(c.invoked.value).message))
  {
    if local.None? then
      if global.None? then Call(None, Fail(NotConfigured(p)))
      else
        var out := run(global.value);
        Call(global, if out.Fail? then Fail(Origin(p, false) + out.message) else Pass)
    else
      var out := run(local.value);
      Call(local, if out.Fail? then Fail(Origin(p, true) + out.message) else Pass)
  }

  /** A command's own function is used whatever the commander's default is, or whether it has one. */
  lemma LocalIgnoresDefault(p: ExtensionPoint, h: Handler, g1: Option<Handler>, g2: Option<Handler>, run: Handler -> Outcome)
    ensures Resolve(p, Some(h), g1, run) == Resolve(p, Some(h), g2, run)
  {
  }

  /** Without a function of its own, a command uses exactly the default, resolved at call time. */
  lemma DefaultDecides(p: ExtensionPoint, g: Option<Handler>, run: Handler -> Outcome)
    ensures Resolve(p, None, g, run).invoked == g
    ensures g.None? <==> Resolve(p, None, g, run) == Call(None, Fail(NotConfigured(p)))
  {
  }

  /** The messages of the hooks that fail, in the order they run. */
  function HookFailures(hooks: seq<Handler>, run: Handler -> Outcome): (msgs: seq<string>)
    ensures |msgs| <= |hooks|
  {
    if hooks == [] then []
    else
      var last := run(hooks[|hooks| - 1]);
      HookFailures(hooks[..|hooks| - 1], run) + if last.Fail? then [last.message] else []
  }

  /** The message of a failed call, as a list of zero or one reports. */
  function CallFailures(c: Call): seq<string>
  {
    if c.outcome.Fail? then [c.outcome.message] else []
  }

  /** The errors one run reports, in order: failing pre-hooks, the resolved exec, failing post-hooks. */
  function RunErrors(p: ExtensionPoint, pre: seq<Handler>, local: Option<Handler>, global: Option<Handler>,
                     post: seq<Handler>, run: Handler -> Outcome): seq<string>
  {
    HookFailures(pre, run) + CallFailures(Resolve(p, local, global, run)) + HookFailures(post, run)
  }

  /** An error passed to the error handler `handler`. */
  datatype Report = Report(handler: Handler, message: string)

  function ReportsTo(handler: Handler, msgs: seq<string>): (r: seq<Report>)
    ensures |r| == |msgs| && forall i :: 0 <= i < |msgs| ==> r[i] == Report(handler, msgs[i])
  {
    if msgs == [] then [] else ReportsTo(handler, msgs[..|msgs| - 1]) + [Report(handler, msgs[|msgs| - 1])]
  }

  lemma ReportsToAppend(handler: Handler, a: seq<string>, b: seq<string>)
    ensures ReportsTo(handler, a + b) == ReportsTo(handler, a) + ReportsTo(handler, b)
  {
    assert |ReportsTo(handler, a + b)| == |ReportsTo(handler, a) + ReportsTo(handler, b)|;
  }

  lemma ReportsToAppend3(log: seq<Report>, handler: Handler, a: seq<string>, b: seq<string>, c: seq<string>)
    ensures log + ReportsTo(handler, a) + ReportsTo(handler, b) + ReportsTo(handler, c) == log + ReportsTo(handler, a + b + c)
  {
    ReportsToAppend(handler, a, b);
    ReportsToAppend(handler, a + b, c);
    Reassociate(log, ReportsTo(handler, a), ReportsTo(handler, b), ReportsTo(handler, c));
  }

  lemma Reassociate<T>(w: seq<T>, x: seq<T>, y: seq<T>, z: seq<T>)
    ensures w + x + y + z == w + (x + y + z)
  {
  }

  // ---------------------------------------------------------------------------
  // resetStruct

  /** Two values of the same Go type: the same kinds and, for structs, the same declared fields. */
  predicate SameType(a: Value, b: Value)
  {
    match a
    case IntValue(_) => b.IntValue?
    case StringValue(_) => b.StringValue?
    case BoolValue(_) => b.BoolValue?
    case OtherValue(k) => b == OtherValue(k)
    case Record(fs) =>
      b.Record? && |b.fields| == |fs| &&
      forall i :: 0 <= i < |fs| ==>
        b.fields[i].name == fs[i].name && b.fields[i].tags == fs[i].tags && SameType(fs[i].value, b.fields[i].value)
  }

  /** resetStruct: a pointer to a fresh zero value of the pointee's struct type. */
  function ResetStruct(h: Handle): (r: Result<Handle>)
    ensures r.Failure? <==> !(h.Pointer? && h.target.Record?)
    ensures r.Failure? ==> r.error == ErrStructPtrExpected
  {
    if !h.Pointer? then Failure(ErrStructPtrExpected)
    else if !h.target.Record? then Failure(ErrStructPtrExpected)
    else Success(Pointer(ZeroOf(h.target)))
  }

  lemma {:induction false} ZeroOfSameType(v: Value)
    ensures SameType(v, ZeroOf(v)) && ZeroOf(ZeroOf(v)) == ZeroOf(v)
  {
    match v
    case Record(fs) =>
      var zs := ZeroOf(v).fields;
      forall i | 0 <= i < |fs| ensures SameType(fs[i].value, zs[i].value) && ZeroOf(zs[i].value) == zs[i].value {
        ZeroOfSameType(fs[i].value);
      }
      assert ZeroOf(ZeroOf(v)).fields == zs;
    case _ =>
  }

  /**
   * A reset record has the original's type, holds only zero values, is unchanged by a second
   * reset, and inspects to descriptors that are all marked Zero.
   */
  lemma ResetStructIsFreshZero(h: Handle)
    requires ResetStruct(h).Success?
    ensures var z := ResetStruct(h).value;
      && z.Pointer? && SameType(h.target, z.target) && Zeroed(z.target)
      && ResetStruct(z) == Success(z)
      && (Flatten(z).Success? ==> forall k :: 0 <= k < |Flatten(z).value| ==> Flatten(z).value[k].zero)
  {
    ZeroOfSameType(h.target);
    ZeroOfIsZeroed(h.target);
    InspectZeroRecord(h.target);
  }

  // ---------------------------------------------------------------------------
  // Command

  /** The functions a command may set for itself. */
  datatype Overrides = Overrides(
    staticExec: Option<Handler>,
    shellExec: Option<Handler>,
    requestHandler: Option<Handler>,
    responseHandler: Option<Handler>,
    registerFunc: Option<Handler>)

  class Command {
    const name: string
    const shortDesc: string
    const longDesc: string
    var commander: Commander?
    var staticExec: Option<Handler>
    var shellExec: Option<Handler>
    var requestHandler: Option<Handler>
    var responseHandler: Option<Handler>
    var registerFunc: Option<Handler>
    var request: Handle
    var response: Handle

    /** A command literal: not yet owned by any commander. */
    constructor (name: string, shortDesc: string, longDesc: string, request: Handle, response: Handle, own: Overrides)
      ensures this.name == name && this.shortDesc == shortDesc && this.longDesc == longDesc
      ensures this.request == request && this.response == response
      ensures Own() == own && commander == null
    {
      this.name := name;
      this.shortDesc := shortDesc;
      this.longDesc := longDesc;
      this.request := request;
      this.response := response;
      staticExec := own.staticExec;
      shellExec := own.shellExec;
      requestHandler := own.requestHandler;
      responseHandler := own.responseHandler;
      registerFunc := own.registerFunc;
      commander := null;
    }

    function Own(): Overrides
      reads `staticExec, `shellExec, `requestHandler, `responseHandler, `registerFunc
    {
      Overrides(staticExec, shellExec, requestHandler, responseHandler, registerFunc)
    }

    /** Register: the command's registration function, else the commander's. */
    function Register(run: Handler -> Outcome): (c: Call)
      requires commander != null
      reads this, commander
      ensures registerFunc.Some? ==> c.invoked == registerFunc
      ensures registerFunc.None? ==> c.invoked == commander.RegistrationHandler()
      ensures c.invoked.None? ==> c.outcome == Fail("no registration handler defined")
      ensures c.invoked.Some? && run(c.invoked.value).Fail? ==>
        c.outcome == Fail(Origin(Registration, registerFunc.Some?) + run(c.invoked.value).message)
      ensures c.invoked.Some? && run(c.invoked.value).Pass? ==> c.outcome == Pass
    {
      Resolve(Registration, registerFunc, commander.RegistrationHandler(), run)
    }

    /** HandleRequest: the command's request handler, else the commander's default. */
    function HandleRequest(run: Handler -> Outcome): (c: Call)
      requires commander != null
      reads this, commander
      ensures requestHandler.Some? ==> c.invoked == requestHandler
      ensures requestHandler.None? ==> c.invoked == commander.DefaultRequestHandler()
      ensures c.invoked.None? ==> c.outcome == Fail("no request handler defined")
      ensures c.invoked.Some? && run(c.invoked.value).Fail? ==>
        c.outcome == Fail(Origin(Request, requestHandler.Some?) + run(c.invoked.value).message)
      ensures c.invoked.Some? && run(c.invoked.value).Pass? ==> c.outcome == Pass
    {
      Resolve(Request, requestHandler, commander.DefaultRequestHandler(), run)
    }

    /** HandleResponse: the command's response handler, else the commander's default. */
    function HandleResponse(run: Handler -> Outcome): (c: Call)
      requires commander != null
      reads this, commander
      ensures responseHandler.Some? ==> c.invoked == responseHandler
      ensures responseHandler.None? ==> c.invoked == commander.DefaultResponseHandler()
      ensures c.invoked.None? ==> c.outcome == Fail("no response handler defined")
      ensures c.invoked.Some? && run(c.invoked.value).Fail? ==>
        c.outcome == Fail(Origin(Response, responseHandler.Some?) + run(c.invoked.value).message)
      ensures c.invoked.Some? && run(c.invoked.value).Pass? ==> c.outcome == Pass
    {
      Resolve(Response, responseHandler, commander.DefaultResponseHandler(), run)
    }

    /** Runs every hook in order, reporting each failure and carrying on. */
    method RunHooks(hooks: seq<Handler>, run: Handler -> Outcome)
      requires commander != null
      modifies commander`errorLog
      ensures commander.errorLog == old(commander.errorLog) + ReportsTo(commander.errorHandler, HookFailures(hooks, run))
    {
      for i := 0 to |hooks|
        invariant commander.errorLog == old(commander.errorLog) + ReportsTo(commander.errorHandler, HookFailures(hooks[..i], run))
      {
        assert hooks[..i + 1][..i] == hooks[..i];
        var err := run(hooks[i]);
        ReportsToAppend(commander.errorHandler, HookFailures(hooks[..i], run), if err.Fail? then [err.message] else []);
        if err.Fail? {
          commander.HandleError(err.message);
        }
      }
      assert hooks[..|hooks|] == hooks;
    }

    /**
     * The body shared by handleStatic and handleShell: the pre-hooks, the exec function
     * resolved for `p`, then the post-hooks, every failure reported as it happens.
     */
    method RunExtension(p: ExtensionPoint, local: Option<Handler>, global: Option<Handler>, run: Handler -> Outcome)
      requires commander != null
      modifies commander`errorLog
      ensures commander.errorLog == old(commander.errorLog) + ReportsTo(commander.errorHandler,
        RunErrors(p, commander.preRequest, local, global, commander.postRequest, run))
    {
      ghost var log0, eh := commander.errorLog, commander.errorHandler;
      ghost var pre := HookFailures(commander.preRequest, run);
      RunHooks(commander.PreRequestHooks(), run);
      ghost var log1 := commander.errorLog;
      var exec := Resolve(p, local, global, run);
      if exec.outcome.Fail? {
        commander.HandleError(exec.outcome.message);
      }
      ghost var log2 := commander.errorLog;
      assert log2 == log1 + ReportsTo(eh, CallFailures(exec));
      ghost var post := HookFailures(commander.postRequest, run);
      RunHooks(commander.PostRequestHooks(), run);
      ReportsToAppend3(log0, eh, pre, CallFailures(exec), post);
    }

    /** handleStatic: pre-hooks, then the command's static exec or the commander's, then post-hooks. */
    method HandleStatic(run: Handler -> Outcome)
      requires commander != null
      modifies commander`errorLog
      ensures commander.errorLog == old(commander.errorLog) + ReportsTo(commander.errorHandler,
        RunErrors(StaticExecution, commander.preRequest, staticExec, commander.staticExec, commander.postRequest, run))
    {
      RunExtension(StaticExecution, staticExec, commander.StaticExec(), run);
    }

    /**
     * handleShell: Request and Response are replaced by fresh zero values (nil when they are
     * not pointers to structs, with the error reported), then hooks and the shell exec run
     * as in handleStatic.
     */
    method HandleShell(run: Handler -> Outcome)
      requires commander != null
      modifies this`request, this`response, commander`errorLog
      ensures request == ResetOrNil(old(request)) && response == ResetOrNil(old(response))
      ensures commander.errorLog == old(commander.errorLog) + ReportsTo(commander.errorHandler,
        ResetFailures(old(request)) + ResetFailures(old(response))
        + RunErrors(ShellExecution, commander.preRequest, shellExec, commander.shellExec, commander.postRequest, run))
    {
      ghost var log0, eh := commander.errorLog, commander.errorHandler;
      ghost var req0, resp0 := request, response;
      Reset();
      ghost var runs := RunErrors(ShellExecution, commander.preRequest, shellExec, commander.shellExec, commander.postRequest, run);
      RunExtension(ShellExecution, shellExec, commander.ShellExec(), run);
      ReportsToAppend3(log0, eh, ResetFailures(req0), ResetFailures(resp0), runs);
    }

    /** The first part of handleShell: Request, then Response, reset, each failure reported. */
    method Reset()
      requires commander != null
      modifies this`request, this`response, commander`errorLog
      ensures request == ResetOrNil(old(request)) && response == ResetOrNil(old(response))
      ensures commander.errorLog == old(commander.errorLog)
        + ReportsTo(commander.errorHandler, ResetFailures(old(request)))
        + ReportsTo(commander.errorHandler, ResetFailures(old(response)))
    {
      var req := ResetStruct(request);
      request := if req.Success? then req.value else NotPointer;
      if req.Failure? {
        commander.HandleError(req.error);
      }
      var resp := ResetStruct(response);
      response := if resp.Success? then resp.value else NotPointer;
      if resp.Failure? {
        commander.HandleError(resp.error);
      }
    }
  }

  /** What handleShell stores after resetting `h`: the fresh value, or nil on error. */
  function ResetOrNil(h: Handle): Handle
  {
    var r := ResetStruct(h);
    if r.Success? then r.value else NotPointer
  }

  /** The error resetting `h` reports, if any. */
  function ResetFailures(h: Handle): seq<string>
  {
    var r := ResetStruct(h);
    if r.Failure? then [r.error] else []
  }

  // ---------------------------------------------------------------------------
  // Commander

  /** The commander's hook lists and default slots. */
  datatype Defaults = Defaults(
    preRequest: seq<Handler>,
    postRequest: seq<Handler>,
    requestHandler: Option<Handler>,
    responseHandler: Option<Handler>,
    registrationHandler: Option<Handler>,
    errorHandler: Handler,
    staticExec: Option<Handler>,
    shellExec: Option<Handler>)

  /** `m` after storing each of `cmds` under its name, in order. */
  function Stored(m: map<string, Command>, cmds: seq<Command>): map<string, Command>
  {
    if cmds == [] then m
    else Stored(m, cmds[..|cmds| - 1])[cmds[|cmds| - 1].name := cmds[|cmds| - 1]]
  }

  /** Storing commands adds exactly their names to the map's keys. */
  lemma {:induction false} StoredKeys(m: map<string, Command>, cmds: seq<Command>)
    ensures Stored(m, cmds).Keys == m.Keys + set c | c in cmds :: c.name
  {
    if cmds != [] {
      var init := cmds[..|cmds| - 1];
      StoredKeys(m, init);
      assert cmds == init + [cmds[|cmds| - 1]];
      assert (set c | c in cmds :: c.name) == (set c | c in init :: c.name) + {cmds[|cmds| - 1].name};
    }
  }

  /** A stored name maps to the last command added under it. */
  lemma {:induction false} StoredLast(m: map<string, Command>, cmds: seq<Command>, j: nat)
    requires j < |cmds|
    requires forall k :: j < k < |cmds| ==> cmds[k].name != cmds[j].name
    ensures cmds[j].name in Stored(m, cmds) && Stored(m, cmds)[cmds[j].name] == cmds[j]
  {
    if j < |cmds| - 1 {
      StoredLast(m, cmds[..|cmds| - 1], j);
    }
  }

  /** Names the added commands do not use keep the command they had. */
  lemma {:induction false} StoredOthers(m: map<string, Command>, cmds: seq<Command>, name: string)
    requires forall k :: 0 <= k < |cmds| ==> cmds[k].name != name
    ensures (name in Stored(m, cmds) <==> name in m) && (name in m ==> Stored(m, cmds)[name] == m[name])
  {
    if cmds != [] {
      StoredOthers(m, cmds[..|cmds| - 1], name);
    }
  }

  class Commander {
    var commands: map<string, Command>
    var preRequest: seq<Handler>
    var postRequest: seq<Handler>
    var requestHandler: Option<Handler>
    var responseHandler: Option<Handler>
    var registrationHandler: Option<Handler>
    var errorHandler: Handler
    var staticExec: Option<Handler>
    var shellExec: Option<Handler>
    /** The errors passed to HandleError, with the error handler that received each. */
    var errorLog: seq<Report>

    /** Every stored command is stored under its own name and belongs to this commander. */
    ghost predicate Valid()
      reads this`commands, commands.Values`commander
    {
      forall n :: n in commands ==> commands[n].name == n && commands[n].commander == this
    }

    function Settings(): Defaults
      reads this
    {
      Defaults(preRequest, postRequest, requestHandler, responseHandler, registrationHandler,
        errorHandler, staticExec, shellExec)
    }

    /** NewCommander: no commands or hooks; every default installed except a request handler. */
    constructor ()
      ensures Valid() && commands == map[] && errorLog == []
      ensures Settings() == Defaults([], [], None, Some(XMLPrettyPrintResponseHandler), Some(DefaultRegistrationFunc),
        DefaultErrorHandler, Some(GenericStaticExec), Some(GenericShellExec))
    {
      commands := map[];
      preRequest, postRequest := [], [];
      requestHandler := None;
      responseHandler := Some(XMLPrettyPrintResponseHandler);
      registrationHandler := Some(DefaultRegistrationFunc);
      errorHandler := DefaultErrorHandler;
      staticExec := Some(GenericStaticExec);
      shellExec := Some(GenericShellExec);
      errorLog := [];
    }

    /** HandleError: passes `message` to the current error handler. */
    method HandleError(message: string)
      modifies `errorLog
      ensures errorLog == old(errorLog) + [Report(errorHandler, message)]
    {
      errorLog := errorLog + [Report(errorHandler, message)];
    }

    /** The getters: each returns its slot of the commander's settings. */
    function RegistrationHandler(): (h: Option<Handler>)
      reads this
      ensures h == Settings().registrationHandler
    {
      registrationHandler
    }

    function ShellExec(): (h: Option<Handler>)
      reads this
      ensures h == Settings().shellExec
    {
      shellExec
    }

    function StaticExec(): (h: Option<Handler>)
      reads this
      ensures h == Settings().staticExec
    {
      staticExec
    }

    function DefaultRequestHandler(): (h: Option<Handler>)
      reads this
      ensures h == Settings().requestHandler
    {
      requestHandler
    }

    function DefaultResponseHandler(): (h: Option<Handler>)
      reads this
      ensures h == Settings().responseHandler
    {
      responseHandler
    }

    function PreRequestHooks(): (hooks: seq<Handler>)
      reads this
      ensures hooks == Settings().preRequest
    {
      preRequest
    }

    function PostRequestHooks(): (hooks: seq<Handler>)
      reads this
      ensures hooks == Settings().postRequest
    {
      postRequest
    }

    method SetErrorHandler(eh: Handler)
      modifies `errorHandler
      ensures Settings() == old(Settings()).(errorHandler := eh)
    {
      errorHandler := eh;
    }

    method SetDefaultRegistrationHandler(rh: Option<Handler>)
      modifies `registrationHandler
      ensures RegistrationHandler() == rh
      ensures Settings() == old(Settings()).(registrationHandler := rh)
    {
      registrationHandler := rh;
    }

    method SetDefaultShellExec(se: Option<Handler>)
      modifies `shellExec
      ensures ShellExec() == se
      ensures Settings() == old(Settings()).(shellExec := se)
    {
      shellExec := se;
    }

    method SetDefaultStaticExec(se: Option<Handler>)
      modifies `staticExec
      ensures StaticExec() == se
      ensures Settings() == old(Settings()).(staticExec := se)
    {
      staticExec := se;
    }

    method SetDefaultRequestHandler(rh: Option<Handler>)
      modifies `requestHandler
      ensures DefaultRequestHandler() == rh
      ensures Settings() == old(Settings()).(requestHandler := rh)
    {
      requestHandler := rh;
    }

    method SetDefaultResponseHandler(rh: Option<Handler>)
      modifies `responseHandler
      ensures DefaultResponseHandler() == rh
      ensures Settings() == old(Settings()).(responseHandler := rh)
    {
      responseHandler := rh;
    }

    /** AddPreRequestHooks: the hooks go after the existing ones, in argument order. */
    method AddPreRequestHooks(hooks: seq<Handler>)
      modifies `preRequest
      ensures PreRequestHooks() == old(PreRequestHooks()) + hooks
      ensures Settings() == old(Settings()).(preRequest := old(preRequest) + hooks)
    {
      for i := 0 to |hooks|
        invariant preRequest == old(preRequest) + hooks[..i]
      {
        assert hooks[..i + 1] == hooks[..i] + [hooks[i]];
        preRequest := preRequest + [hooks[i]];
      }
      assert hooks[..|hooks|] == hooks;
    }

    /** AddPostRequestHooks: the hooks go after the existing ones, in argument order. */
    method AddPostRequestHooks(hooks: seq<Handler>)
      modifies `postRequest
      ensures PostRequestHooks() == old(PostRequestHooks()) + hooks
      ensures Settings() == old(Settings()).(postRequest := old(postRequest) + hooks)
    {
      for i := 0 to |hooks|
        invariant postRequest == old(postRequest) + hooks[..i]
      {
        assert hooks[..i + 1] == hooks[..i] + [hooks[i]];
        postRequest := postRequest + [hooks[i]];
      }
      assert hooks[..|hooks|] == hooks;
    }

    /** Cmd: the command stored under `name`, or an error. */
    function Cmd(name: string): (r: Result<Command>)
      requires Valid()
      reads this, commands.Values
      ensures r.Success? <==> name in commands
      ensures r.Success? ==> r.value.name == name && r.value.commander == this && r.value in commands.Values
      ensures r.Failure? ==> r.error == "failed to resolve command in register"
    {
      if name in commands then Success(commands[name]) else Failure("failed to resolve command in register")
    }

    /** All: every registered command, keyed by name. */
    function All(): (m: map<string, Command>)
      requires Valid()
      reads this, commands.Values
      ensures forall n :: n in m <==> Cmd(n).Success?
      ensures forall n :: n in m ==> Cmd(n) == Success(m[n])
    {
      commands
    }

    /**
     * One step of Add: `cmd` is attached to this commander, stored under its name and registered;
     * `done` are the commands stored before it, over the map `m`.
     */
    method Enlist(cmd: Command, run: Handler -> Outcome, ghost m: map<string, Command>, ghost done: seq<Command>) returns (registered: Call)
      requires Valid() && commands == Stored(m, done)
      modifies this`commands, cmd`commander
      ensures Valid()
      ensures cmd.commander == this && commands == old(commands)[cmd.name := cmd] == Stored(m, done + [cmd])
      ensures registered == cmd.Register(run) == Resolve(Registration, cmd.registerFunc, registrationHandler, run)
    {
      cmd.commander := this;
      commands := commands[cmd.name := cmd];
      registered := cmd.Register(run);
      assert (done + [cmd])[..|done|] == done;
    }

    /**
     * Add: each command in turn is attached to this commander, stored under its name
     * (replacing any command of that name) and then registered; the first registration
     * error is returned at once, leaving the failing command stored and later ones untouched.
     * `runs[j]` gives what each function returns when it is called to register `cmds[j]`, so
     * one command may register while the next one fails.
     */
    method Add(cmds: seq<Command>, runs: seq<Handler -> Outcome>) returns (err: Option<string>, ghost stopped: nat)
      requires Valid() && |runs| == |cmds|
      modifies this`commands, cmds`commander
      ensures Valid()
      ensures stopped <= |cmds|
      ensures commands == Stored(old(commands), cmds[..if stopped < |cmds| then stopped + 1 else stopped])
      ensures forall j :: 0 <= j < stopped ==> Resolve(Registration, cmds[j].registerFunc, registrationHandler, runs[j]).outcome.Pass?
      ensures stopped < |cmds| ==>
        Resolve(Registration, cmds[stopped].registerFunc, registrationHandler, runs[stopped]).outcome.Fail? &&
        err == Some(Resolve(Registration, cmds[stopped].registerFunc, registrationHandler, runs[stopped]).outcome.message)
      ensures stopped == |cmds| <==> err.None?
      ensures forall j :: 0 <= j <= stopped && j < |cmds| ==> cmds[j].commander == this
      ensures forall j :: stopped < j < |cmds| && cmds[j] !in cmds[..stopped + 1] ==> cmds[j].commander == old(cmds[j].commander)
      ensures forall j :: 0 <= j < |cmds| ==> cmds[j].Own() == old(cmds[j].Own())
    {
      err, stopped := EnlistAll(cmds, runs);
    }

    /**
     * The loop of Add: every command up to the first failing registration is attached and
     * stored in order, and the commands after it are not touched.
     */
    method EnlistAll(cmds: seq<Command>, runs: seq<Handler -> Outcome>) returns (err: Option<string>, ghost stopped: nat)
      requires Valid() && |runs| == |cmds|
      modifies this`commands, cmds`commander
      ensures Valid()
      ensures stopped <= |cmds|
      ensures commands == Stored(old(commands), cmds[..if stopped < |cmds| then stopped + 1 else stopped])
      ensures forall j :: 0 <= j < stopped ==> Resolve(Registration, cmds[j].registerFunc, registrationHandler, runs[j]).outcome.Pass?
      ensures stopped < |cmds| ==>
        Resolve(Registration, cmds[stopped].registerFunc, registrationHandler, runs[stopped]).outcome.Fail? &&
        err == Some(Resolve(Registration, cmds[stopped].registerFunc, registrationHandler, runs[stopped]).outcome.message)
      ensures stopped == |cmds| <==> err.None?
      ensures forall j :: 0 <= j <= stopped && j < |cmds| ==> cmds[j].commander == this
      ensures forall j :: stopped < j < |cmds| && cmds[j] !in cmds[..stopped + 1] ==> cmds[j].commander == old(cmds[j].commander)
    {
      var i := 0;
      while i < |cmds|
        invariant i <= |cmds|
        invariant Valid()
        invariant commands == Stored(old(commands), cmds[..i])
        invariant forall j :: 0 <= j < i ==> Resolve(Registration, cmds[j].registerFunc, registrationHandler, runs[j]).outcome.Pass?
        invariant forall j :: 0 <= j < i ==> cmds[j].commander == this
        invariant forall j :: i <= j < |cmds| && cmds[j] !in cmds[..i] ==> cmds[j].commander == old(cmds[j].commander)
      {
        var cmd := cmds[i];
        var registered := Enlist(cmd, runs[i], old(commands), cmds[..i]);
        assert cmds[..i + 1] == cmds[..i] + [cmd];
        if registered.outcome.Fail? {
          return Some(registered.outcome.message), i;
        }
        i := i + 1;
      }
      assert cmds[..i] == cmds;
      return None, i;
    }

    /** The command names in map order, and the length of the longest. */
    method CollectNames() returns (keys: seq<string>, longestCommandName: nat)
      ensures multiset(keys) == multiset(commands.Keys)
      ensures Longest(keys) == longestCommandName
    {
      longestCommandName := 0;
      keys := [];
      ghost var longestName := "";
      var rest := commands.Keys;
      while rest != {}
        invariant rest <= commands.Keys
        invariant multiset(keys) + multiset(rest) == multiset(commands.Keys)
        invariant forall k :: k in keys ==> |k| <= longestCommandName
        invariant keys == [] ==> longestCommandName == 0
        invariant keys != [] ==> longestName in keys && |longestName| == longestCommandName
        decreases rest
      {
        var name :| name in rest;
        keys := keys + [name];
        if |name| > longestCommandName {
          longestCommandName := |name|;
          longestName := name;
        } else if |keys| == 1 {
          longestName := name;
        }
        assert multiset(rest) == multiset(rest - {name}) + multiset{name};
        rest := rest - {name};
      }
      LongestIs(keys, longestCommandName, longestName);
    }

    /** PrintCommandList: one line per command, ordered by name, descriptions lined up. */
    method PrintCommandList() returns (lines: seq<string>)
      ensures lines == Listing(commands)
    {
      var keys, longestCommandName := CollectNames();
      var sorted := SortStrings(keys);
      SortedUnique(sorted, SortedSet(commands.Keys));
      LongestPermutation(keys, sorted);
      SortedSetMembers(commands.Keys);
      lines := ListLines(sorted, longestCommandName);
    }

    /** The loop of PrintCommandList that formats one line per name. */
    method ListLines(names: seq<string>, width: nat) returns (lines: seq<string>)
      requires forall i :: 0 <= i < |names| ==> names[i] in commands
      ensures lines == ListingOf(names, width, commands)
    {
      lines := [];
      for i := 0 to |names|
        invariant lines == ListingOf(names[..i], width, commands)
      {
        assert names[..i + 1][..i] == names[..i];
        var k := names[i];
        var command := commands[k];
        var padLen := if |k| <= width then width - |k| else 0;
        lines := lines + [k + RepeatChar(' ', padLen) + " - " + command.shortDesc + "\n"];
      }
      assert names[..|names|] == names;
    }
  }

  /** The elements of SortedSet(s) are those of s, each once. */
  lemma SortedSetMembers(s: set<string>)
    ensures var r := SortedSet(s);
      |r| == |s| && (forall i :: 0 <= i < |r| ==> r[i] in s) &&
      forall i, j :: 0 <= i < j < |r| ==> r[i] != r[j]
  {
    var r := SortedSet(s);
    assert |multiset(r)| == |multiset(s)|;
    forall i | 0 <= i < |r| ensures r[i] in s {
      assert r[i] in multiset(r);
    }
    forall x ensures multiset(r)[x] <= 1 {
      assert multiset(r)[x] == multiset(s)[x];
    }
    NoDuplicates(r);
  }

  /** A sequence whose multiset counts are at most one holds no element twice. */
  lemma NoDuplicates(r: seq<string>)
    requires forall x :: multiset(r)[x] <= 1
    ensures forall i, j :: 0 <= i < j < |r| ==> r[i] != r[j]
  {
    forall i, j | 0 <= i < j < |r| ensures r[i] != r[j] {
      assert r == r[..j] + r[j..];
      assert multiset(r) == multiset(r[..j]) + multiset(r[j..]);
      assert r[..j][i] == r[i] && r[j..][0] == r[j];
      assert multiset(r[..j])[r[i]] + multiset(r[j..])[r[i]] == multiset(r)[r[i]] <= 1;
      assert r[i] in multiset(r[..j]);
      assert r[i] !in multiset(r[j..]);
    }
  }

  /** The length of the longest name. */
  function Longest(names: seq<string>): (w: nat)
    ensures forall i :: 0 <= i < |names| ==> |names[i]| <= w
    ensures names == [] ==> w == 0
    ensures names != [] ==> exists i :: 0 <= i < |names| && |names[i]| == w
  {
    if names == [] then 0
    else
      var w := Longest(names[..|names| - 1]);
      var last := |names[|names| - 1]|;
      assert forall i :: 0 <= i < |names| - 1 ==> names[..|names| - 1][i] == names[i];
      if last > w then last else w
  }

  /** Any bound that the names reach is the longest length among them. */
  lemma LongestIs(names: seq<string>, w: nat, reached: string)
    requires forall k :: k in names ==> |k| <= w
    requires names == [] ==> w == 0
    requires names != [] ==> reached in names && |reached| == w
    ensures Longest(names) == w
  {
    if names != [] {
      var i :| 0 <= i < |names| && |names[i]| == Longest(names);
      assert names[i] in names;
    }
  }

  /** Reordering names does not change the longest length. */
  lemma LongestPermutation(a: seq<string>, b: seq<string>)
    requires multiset(a) == multiset(b)
    ensures Longest(a) == Longest(b)
  {
    forall k | k in b ensures |k| <= Longest(a) {
      assert k in multiset(b);
    }
    if a != [] {
      var i :| 0 <= i < |a| && |a[i]| == Longest(a);
      assert a[i] in multiset(a);
      LongestIs(b, Longest(a), a[i]);
    } else {
      LongestIs(b, 0, "");
    }
  }

  /** One line of the command list: the name padded to `width`, " - ", the short description. */
  function ListingLine(name: string, width: nat, desc: string): string
  {
    name + RepeatChar(' ', if |name| <= width then width - |name| else 0) + " - " + desc + "\n"
  }

  /** The lines for `names`, in order, each padded to `width`. */
  function ListingOf(names: seq<string>, width: nat, m: map<string, Command>): (lines: seq<string>)
    ensures |lines| == |names|
  {
    if names == [] then []
    else
      var name := names[|names| - 1];
      ListingOf(names[..|names| - 1], width, m) + [ListingLine(name, width, if name in m then m[name].shortDesc else "")]
  }

  /** The lines PrintCommandList prints for `m`. */
  ghost function Listing(m: map<string, Command>): seq<string>
  {
    var names := SortedSet(m.Keys);
    ListingOf(names, Longest(names), m)
  }

  /** Line i of the listing is the line for names[i]. */
  lemma {:induction false} ListingOfAt(names: seq<string>, width: nat, m: map<string, Command>, i: nat)
    requires i < |names|
    ensures ListingOf(names, width, m)[i] == ListingLine(names[i], width, if names[i] in m then m[names[i]].shortDesc else "")
  {
    if i < |names| - 1 {
      ListingOfAt(names[..|names| - 1], width, m, i);
    }
  }

  /** A padded line: the name, spaces up to `width`, " - " and the description. */
  lemma ListingLineLayout(name: string, width: nat, desc: string)
    requires |name| <= width
    ensures var line := ListingLine(name, width, desc);
      |line| == width + 4 + |desc| && line[..|name|] == name &&
      (forall k :: |name| <= k < width ==> line[k] == ' ') &&
      line[width..width + 3] == " - " && line[width + 3..] == desc + "\n"
  {
    var pad := RepeatChar(' ', width - |name|);
    var line := ListingLine(name, width, desc);
    assert line == name + pad + (" - " + desc + "\n");
    assert line[width..] == " - " + desc + "\n";
  }

  /** The command list has one line per command, in strictly ascending name order. */
  lemma ListingOrder(m: map<string, Command>)
    ensures var names := SortedSet(m.Keys);
      && |Listing(m)| == |names| == |m.Keys|
      && (forall i :: 0 <= i < |names| ==> names[i] in m)
      && (forall k :: k in m ==> k in names)
      && (forall i, j :: 0 <= i < j < |names| ==> LessEq(names[i], names[j]) && names[i] != names[j])
  {
    SortedSetMembers(m.Keys);
    var names := SortedSet(m.Keys);
    forall k | k in m ensures k in names {
      assert k in multiset(m.Keys);
    }
  }

  /** The layout of line i of the command list. */
  lemma ListingColumn(m: map<string, Command>, i: nat)
    requires i < |SortedSet(m.Keys)|
    ensures var names := SortedSet(m.Keys); var width := Longest(names); var line := Listing(m)[i];
      && names[i] in m
      && |line| == width + 4 + |m[names[i]].shortDesc|
      && line[..|names[i]|] == names[i]
      && line[width..width + 3] == " - "
      && line[width + 3..] == m[names[i]].shortDesc + "\n"
  {
    var names := SortedSet(m.Keys);
    SortedSetMembers(m.Keys);
    ListingOfAt(names, Longest(names), m, i);
    ListingLineLayout(names[i], Longest(names), m[names[i]].shortDesc);
  }

  /**
   * Every line of the command list starts with its command's name and has " - " at the
   * same column (the longest name's length), followed by that command's short description.
   */
  lemma ListingColumns(m: map<string, Command>)
    ensures var names := SortedSet(m.Keys); var width := Longest(names); var lines := Listing(m);
      forall i :: 0 <= i < |names| ==>
        && names[i] in m
        && |lines[i]| == width + 4 + |m[names[i]].shortDesc|
        && lines[i][..|names[i]|] == names[i]
        && lines[i][width..width + 3] == " - "
        && lines[i][width + 3..] == m[names[i]].shortDesc + "\n"
  {
    forall i | 0 <= i < |SortedSet(m.Keys)| {
      ListingColumn(m, i);
    }
  }
}
