/**
 * The stock handlers (handlers.go): the generic static exec, the default registration
 * function that turns request fields into command-line flags, and the generic shell exec that
 * prompts for required fields and then offers the optional ones.
 *
 * The struct validator is a parameter `validate`; request and response handlers are opaque
 * and what running one returns is the parameter `run`, as in Registry.
 */
module Handlers {
  import opened Wrappers
  import opened Text
  import opened Inspector
  import opened Registry
  import opened Shell

  // ---------------------------------------------------------------------------
  // The validation error message

  /**
   * What Go's fmt.Errorf makes of a format string given no arguments: "%%" is a literal
   * percent sign, any other verb is replaced by "%!<verb>(MISSING)", and a trailing "%"
   * becomes "%!(NOVERB)".
   */
  function FormatNoArgs(format: string): string
  {
    if format == [] then []
    else if format[0] != '%' then [format[0]] + FormatNoArgs(format[1..])
    else if |format| == 1 then "%!(NOVERB)"
    else if format[1] == '%' then "%" + FormatNoArgs(format[2..])
    else "%!" + [format[1]] + "(MISSING)" + FormatNoArgs(format[2..])
  }

  predicate NoVerbs(s: string)
  {
    forall i :: 0 <= i < |s| ==> s[i] != '%'
  }

  /** Text without a percent sign passes through the formatter unchanged. */
  lemma {:induction false} FormatPlainPrefix(plain: string, rest: string)
    requires NoVerbs(plain)
    ensures FormatNoArgs(plain + rest) == plain + FormatNoArgs(rest)
  {
    if plain != [] {
      assert (plain + rest)[1..] == plain[1..] + rest;
      FormatPlainPrefix(plain[1..], rest);
      assert plain == [plain[0]] + plain[1..];
    } else {
      assert plain + rest == rest;
    }
  }

  /** The validation error as written: the message is glued onto the format string itself. */
  function ValidationErrorAsWritten(message: string): string
  {
    FormatNoArgs("validation error: %s" + message)
  }

  /** The validation error as intended: the prefix followed by the validator's message. */
  function ValidationError(message: string): string
  {
    "validation error: " + message
  }

  /**
   * As written, every validation error reads "validation error: %!s(MISSING)" followed by
   * the validator's message as the formatter renders it; a message without a percent sign
   * comes through verbatim, and then the text is never the intended one.
   */
  lemma ValidationErrorAsWrittenShowsMissing(message: string)
    ensures ValidationErrorAsWritten(message) == "validation error: " + "%!s(MISSING)" + FormatNoArgs(message)
    ensures NoVerbs(message) ==> ValidationErrorAsWritten(message) == "validation error: " + "%!s(MISSING)" + message
    ensures NoVerbs(message) ==> ValidationErrorAsWritten(message) != ValidationError(message)
  {
    AsWrittenFormat(message);
    if NoVerbs(message) {
      FormatPlainPrefix(message, []);
      assert message + [] == message;
      assert |ValidationErrorAsWritten(message)| != |ValidationError(message)|;
    }
  }

  /** Text without a percent sign passes through, and the %s after it has no argument. */
  lemma AsWrittenFormat(message: string)
    ensures ValidationErrorAsWritten(message) == "validation error: " + "%!s(MISSING)" + FormatNoArgs(message)
  {
    var prefix := "validation error: ";
    assert NoVerbs(prefix);
    assert "validation error: %s" + message == prefix + "%s" + message;
    MissingAfterPlain(prefix, message);
  }

  lemma MissingAfterPlain(plain: string, message: string)
    requires NoVerbs(plain)
    ensures FormatNoArgs(plain + "%s" + message) == plain + "%!s(MISSING)" + FormatNoArgs(message)
  {
    assert plain + "%s" + message == plain + ("%s" + message);
    FormatPlainPrefix(plain, "%s" + message);
    assert ("%s" + message)[2..] == message;
  }

  /** A concrete validator message showing the difference. */
  lemma ValidationErrorExample()
    ensures ValidationErrorAsWritten("name: non zero value required") ==
      "validation error: " + "%!s(MISSING)" + "name: non zero value required"
  {
    var message := "name: non zero value required";
    assert NoVerbs(message);
    ValidationErrorAsWrittenShowsMissing(message);
  }

  /** A validator message ending in a percent sign is itself garbled by the formatter. */
  lemma ValidationErrorPercentExample()
    ensures ValidationErrorAsWritten("100%") == "validation error: " + "%!s(MISSING)" + "100%!(NOVERB)"
  {
    ValidationErrorAsWrittenShowsMissing("100%");
    assert NoVerbs("100");
    FormatPlainPrefix("100", "%");
    assert "100" + "%" == "100%";
  }

  /** The intended message keeps the validator's message verbatim, even one holding a percent sign. */
  lemma ValidationErrorKeepsMessage(message: string)
    ensures ValidationError(message)[..18] == "validation error: "
    ensures ValidationError(message)[18..] == message
  {
  }

  // ---------------------------------------------------------------------------
  // GenericStaticHandler

  /** The outcome of a handler and the request/response handlers it ran, in order. */
  datatype Run = Run(outcome: Outcome, invoked: seq<Handler>)

  function Invoked(c: Call): seq<Handler>
  {
    if c.invoked.Some? then [c.invoked.value] else []
  }

  /** The shared tail of both generic execs: the request handler, then the response handler. */
  function Respond(command: Command, run: Handler -> Outcome): (r: Run)
    requires command.commander != null
    reads command, command.commander
    ensures r.outcome.Pass? <==> command.HandleRequest(run).outcome.Pass? && command.HandleResponse(run).outcome.Pass?
    ensures |r.invoked| <= 2
  {
    var req := command.HandleRequest(run);
    if req.outcome.Fail? then Run(Fail("error from request handler: " + req.outcome.message), Invoked(req))
    else
      var resp := command.HandleResponse(run);
      Run(resp.outcome, Invoked(req) + Invoked(resp))
  }

  /**
   * The response handler runs only once the request handler has run and succeeded; a request
   * handler's error comes back prefixed once more.
   */
  lemma RespondOrder(command: Command, run: Handler -> Outcome)
    requires command.commander != null
    ensures var req := command.HandleRequest(run); var r := Respond(command, run);
      && (req.outcome.Fail? ==> r == Run(Fail("error from request handler: " + req.outcome.message), Invoked(req)))
      && (req.outcome.Pass? ==>
            req.invoked.Some? && r.invoked[0] == req.invoked.value &&
            r.invoked[1..] == Invoked(command.HandleResponse(run)) &&
            r.outcome == command.HandleResponse(run).outcome)
  {
  }

  /** GenericStaticHandler: validate the request, then request and response handling. */
  function GenericStaticHandler(command: Command, validate: Handle -> Outcome, run: Handler -> Outcome): (r: Run)
    requires command.commander != null
    reads command, command.commander
    ensures validate(command.request).Fail? ==>
      r.invoked == [] && r.outcome == Fail("validation error: " + validate(command.request).message)
    ensures validate(command.request).Pass? ==> r.invoked == Respond(command, run).invoked
    ensures r.outcome.Pass? <==> validate(command.request).Pass? && Respond(command, run).outcome.Pass?
  {
    var validation := validate(command.request);
    if validation.Fail? then Run(Fail(ValidationError(validation.message)), [])
    else Respond(command, run)
  }

  // ---------------------------------------------------------------------------
  // DefaultRegistrationHandler

  /** A flag bound to a request field: name, one-letter shorthand ("" for none), default, usage. */
  datatype Flag = Flag(name: string, shorthand: string, defaultValue: Value, usage: string, target: seq<nat>)

  /** The command-line command generated for a Command. */
  datatype CliCommand = CliCommand(use: string, short: string, long: string, flags: seq<Flag>)

  /** The parent command-line command that registration attaches commands to. */
  class ParentCommand {
    var subcommands: seq<CliCommand>

    constructor ()
      ensures subcommands == []
    {
      subcommands := [];
    }

    method AddCommand(c: CliCommand)
      modifies `subcommands
      ensures subcommands == old(subcommands) + [c]
    {
      subcommands := subcommands + [c];
    }
  }

  /** Static: the command-line command for `cmd`, before any flag is bound. */
  function Static(cmd: Command): (r: CliCommand)
    reads cmd
    ensures r.use == cmd.name && r.short == cmd.shortDesc && r.long == cmd.longDesc
    ensures r.flags == []
  {
    CliCommand(cmd.name, cmd.shortDesc, cmd.longDesc, [])
  }

  /** A field gets a flag when it has both a long flag name and a hint. */
  predicate Flaggable(fi: FieldInfo)
  {
    fi.lFlag != "" && fi.hint != ""
  }

  /** The flag for one flaggable field: string and int fields only, with zero defaults. */
  function FlagFor(fi: FieldInfo): (r: Result<Flag>)
    ensures r.Failure? <==> !(fi.value.StringValue? || fi.value.IntValue?)
    ensures r.Failure? ==> r.error == "unhandled type"
    ensures r.Success? ==> r.value.defaultValue == ZeroOf(fi.value) && SameType(fi.value, r.value.defaultValue)
    ensures r.Success? ==> r.value.target == fi.path && r.value.name == fi.lFlag && r.value.usage == fi.hint
    ensures r.Success? ==> r.value.shorthand == (if |fi.sFlag| == 1 then fi.sFlag else "")
  {
    var shorthand := if |fi.sFlag| == 1 then fi.sFlag else "";
    match fi.value
    case StringValue(_) => Success(Flag(fi.lFlag, shorthand, StringValue(""), fi.hint, fi.path))
    case IntValue(_) => Success(Flag(fi.lFlag, shorthand, IntValue(0), fi.hint, fi.path))
    case _ => Failure("unhandled type")
  }

  /** The registration loop over the descriptors, stopping at the first unhandled type. */
  function BindFlags(fis: seq<FieldInfo>): (r: Result<seq<Flag>>)
    ensures r.Failure? ==> r.error == "unhandled type"
    ensures r.Success? ==> |r.value| <= |fis|
  {
    if fis == [] then Success([])
    else
      var init := BindFlags(fis[..|fis| - 1]);
      var last := fis[|fis| - 1];
      if init.Failure? || !Flaggable(last) then init
      else
        var flag := FlagFor(last);
        if flag.Failure? then Failure(flag.error) else Success(init.value + [flag.value])
  }

  /** Reference: the flags of the flaggable fields, in field order. */
  function FlagsFor(fis: seq<FieldInfo>): seq<Flag>
  {
    if fis == [] then []
    else (if Flaggable(fis[0]) && FlagFor(fis[0]).Success? then [FlagFor(fis[0]).value] else []) + FlagsFor(fis[1..])
  }

  /** Some flaggable field has a type that cannot become a flag. */
  predicate HasUnhandled(fis: seq<FieldInfo>)
  {
    exists k :: 0 <= k < |fis| && Flaggable(fis[k]) && FlagFor(fis[k]).Failure?
  }

  lemma {:induction false} FlagsForAppend(a: seq<FieldInfo>, b: seq<FieldInfo>)
    ensures FlagsFor(a + b) == FlagsFor(a) + FlagsFor(b)
  {
    if a != [] {
      var head := if Flaggable(a[0]) && FlagFor(a[0]).Success? then [FlagFor(a[0]).value] else [];
      assert (a + b)[0] == a[0] && (a + b)[1..] == a[1..] + b;
      FlagsForAppend(a[1..], b);
      assert FlagsFor(a + b) == head + (FlagsFor(a[1..]) + FlagsFor(b));
    } else {
      assert a + b == b;
    }
  }

  /**
   * Binding fails exactly when some flaggable field is neither a string nor an int, and
   * otherwise yields one flag per flaggable field, in field order.
   */
  lemma {:induction false} BindFlagsMatchesReference(fis: seq<FieldInfo>)
    ensures BindFlags(fis).Failure? <==> HasUnhandled(fis)
    ensures BindFlags(fis).Success? ==> BindFlags(fis).value == FlagsFor(fis)
  {
    if fis != [] {
      var init := fis[..|fis| - 1];
      var last := fis[|fis| - 1];
      BindFlagsMatchesReference(init);
      assert fis == init + [last];
      FlagsForAppend(init, [last]);
      assert FlagsFor([last]) == (if Flaggable(last) && FlagFor(last).Success? then [FlagFor(last).value] else []) by {
        assert [last][1..] == [];
      }
      HasUnhandledSnoc(init, last);
    }
  }

  /** A list with one more field has an unhandled field iff the list did or the new field is one. */
  lemma HasUnhandledSnoc(init: seq<FieldInfo>, last: FieldInfo)
    ensures HasUnhandled(init + [last]) <==> HasUnhandled(init) || (Flaggable(last) && FlagFor(last).Failure?)
  {
    var fis := init + [last];
    if HasUnhandled(init) {
      var k :| 0 <= k < |init| && Flaggable(init[k]) && FlagFor(init[k]).Failure?;
      assert fis[k] == init[k];
    }
    if Flaggable(last) && FlagFor(last).Failure? {
      assert fis[|init|] == last;
    }
    if HasUnhandled(fis) {
      var k :| 0 <= k < |fis| && Flaggable(fis[k]) && FlagFor(fis[k]).Failure?;
      if k < |init| {
        assert init[k] == fis[k];
      }
    }
  }

  lemma {:induction false} BindFlagsFailurePersists(fis: seq<FieldInfo>, n: nat)
    requires n <= |fis| && BindFlags(fis[..n]).Failure?
    ensures BindFlags(fis).Failure?
    decreases |fis| - n
  {
    if n < |fis| {
      assert fis[..n + 1][..n] == fis[..n];
      BindFlagsFailurePersists(fis, n + 1);
    } else {
      assert fis[..n] == fis;
    }
  }

  /** What DefaultRegistrationHandler attaches to the parent for `cmd`, or the error it returns. */
  function Registered(cmd: Command): Result<CliCommand>
    reads cmd
  {
    var fis := Flatten(cmd.request);
    if fis.Failure? then Failure(fis.error)
    else
      var flags := BindFlags(fis.value);
      if flags.Failure? then Failure(flags.error)
      else Success(Static(cmd).(flags := flags.value))
  }

  /**
   * DefaultRegistrationHandler: inspect the request, bind a flag for every flaggable field,
   * and attach the command to the parent only if every flag could be bound.
   */
  method DefaultRegistrationHandler(parent: ParentCommand, cmd: Command) returns (err: Option<string>)
    modifies parent`subcommands
    ensures Registered(cmd).Success? ==> err == None && parent.subcommands == old(parent.subcommands) + [Registered(cmd).value]
    ensures Registered(cmd).Failure? ==> err == Some(Registered(cmd).error) && parent.subcommands == old(parent.subcommands)
  {
    var staticCmd := Static(cmd);
    var inspected := InspectStruct(cmd.request);
    if inspected.Failure? {
      return Some(inspected.error);
    }
    var flags := BindFieldFlags(inspected.value);
    if flags.Failure? {
      return Some(flags.error);
    }
    parent.AddCommand(staticCmd.(flags := flags.value));
    return None;
  }

  /** The flag-binding loop of DefaultRegistrationHandler. */
  method BindFieldFlags(fis: seq<FieldInfo>) returns (r: Result<seq<Flag>>)
    ensures r == BindFlags(fis)
  {
    var flags: seq<Flag> := [];
    for i := 0 to |fis|
      invariant BindFlags(fis[..i]) == Success(flags)
    {
      var fi := fis[i];
      assert fis[..i + 1][..i] == fis[..i];
      if fi.lFlag != "" && fi.hint != "" {
        var shorthand := if |fi.sFlag| == 1 then fi.sFlag else "";
        match fi.value
        case StringValue(_) =>
          flags := flags + [Flag(fi.lFlag, shorthand, StringValue(""), fi.hint, fi.path)];
        case IntValue(_) =>
          flags := flags + [Flag(fi.lFlag, shorthand, IntValue(0), fi.hint, fi.path)];
        case _ =>
          BindFlagsFailurePersists(fis, i + 1);
          return Failure("unhandled type");
      }
    }
    assert fis[..|fis|] == fis;
    return Success(flags);
  }

  /**
   * Every flag a successful registration binds writes into a field of the request that exists
   * and has the flag's own type, and its default is that type's zero value.
   */
  lemma RegisteredFlagsTargetRequestFields(cmd: Command)
    requires Registered(cmd).Success?
    ensures forall flag :: flag in Registered(cmd).value.flags ==>
      var field := ValueAt(cmd.request.target, flag.target);
      field.Some? && SameType(field.value, flag.defaultValue) && flag.defaultValue == ZeroOf(field.value)
  {
    var fis := Flatten(cmd.request).value;
    BindFlagsMatchesReference(fis);
    InspectStructPaths(cmd.request.target);
    forall flag | flag in FlagsFor(fis)
      ensures exists k :: 0 <= k < |fis| && FlagFor(fis[k]) == Success(flag)
    {
      FlagsForSource(fis, flag);
    }
  }

  lemma {:induction false} FlagsForSource(fis: seq<FieldInfo>, flag: Flag)
    requires flag in FlagsFor(fis)
    ensures exists k :: 0 <= k < |fis| && FlagFor(fis[k]) == Success(flag)
  {
    if fis != [] {
      if flag in FlagsFor(fis[1..]) {
        FlagsForSource(fis[1..], flag);
        var k :| 0 <= k < |fis[1..]| && FlagFor(fis[1..][k]) == Success(flag);
        assert fis[k + 1] == fis[1..][k];
      } else {
        assert FlagFor(fis[0]) == Success(flag);
      }
    }
  }

  // ---------------------------------------------------------------------------
  // GenericShellHandler

  /** The state a shell session threads through: the request, the console and any error. */
  datatype Session = Session(request: Handle, input: seq<string>, output: seq<string>, err: Option<string>)

  /** collectShellValue for one descriptor, skipped once an error has occurred. */
  function CollectStep(s: Session, fi: FieldInfo): (t: Session)
    ensures |t.input| <= |s.input| && t.request.Pointer? == s.request.Pointer?
  {
    if s.err.Some? then s
    else if !fi.settable then s.(err := Some("unable to set value (CanSet=false)"))
    else
      var entered := Entered(fi, NextLine(s.input));
      var stored :=
        if entered.Success? && s.request.Pointer? then Pointer(SetAt(s.request.target, fi.path, entered.value))
        else s.request;
      Session(stored, Remaining(s.input), s.output + [fi.name + ":"],
        if entered.Failure? then Some(entered.error) else None)
  }

  /** The required fields collected in order, stopping at the first error. */
  function CollectAll(s: Session, fis: seq<FieldInfo>): (t: Session)
    ensures |t.input| <= |s.input| && t.request.Pointer? == s.request.Pointer?
  {
    if fis == [] then s else CollectStep(CollectAll(s, fis[..|fis| - 1]), fis[|fis| - 1])
  }

  lemma {:induction false} CollectAllErrorPersists(s: Session, fis: seq<FieldInfo>, n: nat)
    requires n <= |fis| && CollectAll(s, fis[..n]).err.Some?
    ensures CollectAll(s, fis) == CollectAll(s, fis[..n])
    decreases |fis| - n
  {
    if n < |fis| {
      assert fis[..n + 1][..n] == fis[..n];
      CollectAllErrorPersists(s, fis, n + 1);
    } else {
      assert fis[..n] == fis;
    }
  }

  /** The optional rounds: menu, then the chosen field, until the user is done or an error occurs. */
  function OptionalRounds(s: Session, optional: seq<FieldInfo>): (t: Session)
    decreases |s.input|
  {
    if s.err.Some? then s
    else
      var d := Present(optional, s.input);
      var shown := s.(input := d.unread, output := s.output + d.printed);
      if d.selected < 0 then shown
      else
        var t := CollectStep(shown, optional[d.selected]);
        if t.err.Some? then t else OptionalRounds(t, optional)
  }

  /** What GenericShellHandler does to the request and the console before request handling. */
  function ShellSession(request: Handle, input: seq<string>, output: seq<string>): Session
  {
    var fis := Flatten(request);
    if fis.Failure? then Session(request, input, output, Some(fis.error))
    else
      var leaves := LeafInfos(fis.value);
      var collected := CollectAll(Session(request, input, output, None), Filter(leaves, true));
      if collected.err.Some? then collected else OptionalRounds(collected, Filter(leaves, false))
  }

  /** The prompts written for `fis`, one per field. */
  function Prompts(fis: seq<FieldInfo>): (r: seq<string>)
    ensures |r| == |fis| && forall i :: 0 <= i < |fis| ==> r[i] == fis[i].name + ":"
  {
    seq(|fis|, i requires 0 <= i < |fis| => fis[i].name + ":")
  }

  /**
   * Required fields are prompted for one after another, each consuming one typed line, before
   * any menu appears.
   */
  lemma {:induction false} RequiredPromptedInOrder(s: Session, fis: seq<FieldInfo>)
    requires s.err.None? && |fis| <= |s.input|
    requires forall k :: 0 <= k < |fis| ==> fis[k].settable
    requires CollectAll(s, fis).err.None?
    ensures CollectAll(s, fis).output == s.output + Prompts(fis)
    ensures CollectAll(s, fis).input == s.input[|fis|..]
  {
    if fis != [] {
      var init := fis[..|fis| - 1];
      var prev := CollectAll(s, init);
      assert prev.err.None?;
      RequiredPromptedInOrder(s, init);
      assert Prompts(fis) == Prompts(init) + [fis[|fis| - 1].name + ":"];
      assert s.input[|init|..][1..] == s.input[|fis|..];
    }
  }

  /**
   * A request the inspector rejects leaves the console untouched and the request unchanged, and
   * its error is the inspector's.
   */
  lemma ShellSessionInspectFailure(request: Handle, input: seq<string>, output: seq<string>)
    requires Flatten(request).Failure?
    ensures ShellSession(request, input, output) == Session(request, input, output, Some(Flatten(request).error))
  {
  }

  /** With no optional fields the menu loop ends at once: nothing is read and nothing is printed. */
  lemma NoOptionalFieldsNoMenu(s: Session)
    ensures OptionalRounds(s, []) == s
  {
  }

  /**
   * One accepted menu round: lines the menu rejects, the number printed next to optional
   * field `pick` (that is, pick + 1), then the value typed for that field.
   */
  datatype Round = Round(rejected: seq<string>, pick: nat, value: string)

  /** The lines a user types to play `rounds`, one after another. */
  function RoundsInput(rounds: seq<Round>): seq<string>
  {
    if rounds == [] then []
    else rounds[0].rejected + [Itoa(rounds[0].pick + 1), rounds[0].value] + RoundsInput(rounds[1..])
  }

  /** Every line of `lines` is one the menu of `optional` rejects. */
  predicate AllRejected(optional: seq<FieldInfo>, lines: seq<string>)
  {
    forall k :: 0 <= k < |lines| ==> Choice(|optional|, lines[k]).None?
  }

  /** Rounds a user can play: each picks a settable optional field and types a value its kind accepts. */
  predicate PlayableRounds(optional: seq<FieldInfo>, rounds: seq<Round>)
  {
    forall i :: 0 <= i < |rounds| ==>
      && rounds[i].pick < |optional| && optional[rounds[i].pick].settable
      && Entered(optional[rounds[i].pick], rounds[i].value).Success?
      && AllRejected(optional, rounds[i].rejected)
  }

  /** The record after the value of each round is stored into the field it picks, round by round. */
  function Applied(v: Value, optional: seq<FieldInfo>, rounds: seq<Round>): Value
    decreases |rounds|
  {
    if rounds == [] then v
    else
      var r := rounds[0];
      var next :=
        if r.pick < |optional| && Entered(optional[r.pick], r.value).Success? then
          SetAt(v, optional[r.pick].path, Entered(optional[r.pick], r.value).value)
        else v;
      Applied(next, optional, rounds[1..])
  }

  lemma PlayableTail(optional: seq<FieldInfo>, rounds: seq<Round>)
    requires rounds != [] && PlayableRounds(optional, rounds)
    ensures PlayableRounds(optional, rounds[1..])
  {
    forall i | 0 <= i < |rounds[1..]|
      ensures rounds[1..][i] == rounds[i + 1]
    {
    }
  }

  lemma RoundInputRegroup(rejected: seq<string>, line: string, value: string, more: seq<string>,
                           stray: seq<string>, rest: seq<string>)
    ensures rejected + [line, value] + more + stray + ["0"] + rest
         == rejected + [line, value] + (more + stray + ["0"] + rest)
  {
  }

  /** A menu round that ends the loop: rejected lines, then "0". */
  lemma OptionalRoundsDone(s: Session, optional: seq<FieldInfo>, stray: seq<string>, rest: seq<string>)
    requires s.err.None? && 0 < |optional| <= MaxInt64 && AllRejected(optional, stray)
    requires s.input == stray + ["0"] + rest
    ensures OptionalRounds(s, optional) == s.(input := rest, output := s.output + Present(optional, s.input).printed)
  {
    ChoiceOfPrintedNumber(|optional|, 0);
    PresentSelectsFirstAccepted(optional, stray, "0", rest);
  }

  /** The menu of a round selects the round's field and leaves the typed value as the next line. */
  lemma PresentPicksRound(optional: seq<FieldInfo>, r: Round, more: seq<string>)
    requires 0 < |optional| <= MaxInt64 && r.pick < |optional| && AllRejected(optional, r.rejected)
    ensures Present(optional, r.rejected + [Itoa(r.pick + 1), r.value] + more).selected == r.pick
    ensures Present(optional, r.rejected + [Itoa(r.pick + 1), r.value] + more).unread == [r.value] + more
  {
    var line := Itoa(r.pick + 1);
    PairRegroup(r.rejected, line, r.value, more);
    ChoiceOfPrintedNumber(|optional|, r.pick);
    PresentSelectsFirstAccepted(optional, r.rejected, line, [r.value] + more);
  }

  lemma PairRegroup<T>(a: seq<T>, x: T, y: T, b: seq<T>)
    ensures a + [x, y] + b == a + [x] + ([y] + b)
  {
    assert [x, y] == [x] + [y];
  }

  /** A menu round that selects field k and stores a value the field accepts, after which the loop goes on. */
  lemma OptionalRoundsStep(s: Session, optional: seq<FieldInfo>, k: nat, value: string, more: seq<string>)
    requires s.err.None? && s.request.Pointer?
    requires k < |optional| && optional[k].settable && Entered(optional[k], value).Success?
    requires Present(optional, s.input).selected == k && Present(optional, s.input).unread == [value] + more
    ensures OptionalRounds(s, optional) == OptionalRounds(
      Session(Pointer(SetAt(s.request.target, optional[k].path, Entered(optional[k], value).value)), more,
              s.output + Present(optional, s.input).printed + [optional[k].name + ":"], None),
      optional)
  {
    var d := Present(optional, s.input);
    var shown := s.(input := d.unread, output := s.output + d.printed);
    var t := Session(Pointer(SetAt(s.request.target, optional[k].path, Entered(optional[k], value).value)), more,
                     s.output + d.printed + [optional[k].name + ":"], None);
    assert CollectStep(shown, optional[k]) == t by {
      assert NextLine(d.unread) == value && Remaining(d.unread) == more;
    }
  }

  /**
   * The optional-field menu played to the end: after the rounds, any further rejected lines
   * and a "0", the request holds every round's value stored in order, no error occurred, and
   * the input after the "0" is left unread.
   */
  lemma {:induction false} OptionalRoundsPlaysRounds(s: Session, optional: seq<FieldInfo>, rounds: seq<Round>,
                                                    stray: seq<string>, rest: seq<string>)
    requires s.err.None? && s.request.Pointer? && 0 < |optional| <= MaxInt64
    requires PlayableRounds(optional, rounds) && AllRejected(optional, stray)
    requires s.input == RoundsInput(rounds) + stray + ["0"] + rest
    ensures OptionalRounds(s, optional).request == Pointer(Applied(s.request.target, optional, rounds))
    ensures OptionalRounds(s, optional).input == rest
    ensures OptionalRounds(s, optional).err.None?
    decreases |rounds|
  {
    if rounds == [] {
      OptionalRoundsDone(s, optional, stray, rest);
    } else {
      var r := rounds[0];
      var more := RoundsInput(rounds[1..]) + stray + ["0"] + rest;
      RoundInputRegroup(r.rejected, Itoa(r.pick + 1), r.value, RoundsInput(rounds[1..]), stray, rest);
      PresentPicksRound(optional, r, more);
      OptionalRoundsStep(s, optional, r.pick, r.value, more);
      var x := Entered(optional[r.pick], r.value).value;
      var t := Session(Pointer(SetAt(s.request.target, optional[r.pick].path, x)), more,
                       s.output + Present(optional, s.input).printed + [optional[r.pick].name + ":"], None);
      assert Applied(s.request.target, optional, rounds) == Applied(t.request.target, optional, rounds[1..]);
      PlayableTail(optional, rounds);
      OptionalRoundsPlaysRounds(t, optional, rounds[1..], stray, rest);
    }
  }

  /** No round after round `j` picks field `k` (with j == -1: no round at all). */
  predicate NotPickedAfter(rounds: seq<Round>, k: nat, j: int)
  {
    forall l :: j < l < |rounds| && 0 <= l ==> rounds[l].pick != k
  }

  lemma NotPickedAfterTail(rounds: seq<Round>, k: nat, j: int)
    requires rounds != [] && NotPickedAfter(rounds, k, j)
    ensures NotPickedAfter(rounds[1..], k, j - 1)
  {
    forall l | j - 1 < l < |rounds[1..]| && 0 <= l
      ensures rounds[1..][l] == rounds[l + 1]
    {
    }
  }

  /** Storing into one optional field sets that field and leaves every other optional field as it was. */
  lemma StoreOnePick(v: Value, optional: seq<FieldInfo>, p: nat, x: Value)
    requires p < |optional|
    requires forall i :: 0 <= i < |optional| ==> ValueAt(v, optional[i].path).Some?
    requires forall i, j :: 0 <= i < |optional| && 0 <= j < |optional| && i != j ==> !(optional[i].path <= optional[j].path)
    ensures forall i :: 0 <= i < |optional| ==>
      ValueAt(SetAt(v, optional[p].path, x), optional[i].path) == if i == p then Some(x) else ValueAt(v, optional[i].path)
  {
    forall i | 0 <= i < |optional|
      ensures ValueAt(SetAt(v, optional[p].path, x), optional[i].path) == if i == p then Some(x) else ValueAt(v, optional[i].path)
    {
      if i == p {
        SetAtThenValueAt(v, optional[p].path, x);
      } else {
        SetAtLeavesOthers(v, optional[p].path, optional[i].path, x);
      }
    }
  }

  /**
   * Storing the rounds in order: a field no round picks keeps its value, and a field picked
   * several times holds the value typed in the last round that picked it.
   */
  lemma {:induction false} AppliedLastPickWins(v: Value, optional: seq<FieldInfo>, rounds: seq<Round>, k: nat)
    requires k < |optional| && PlayableRounds(optional, rounds)
    requires forall i :: 0 <= i < |optional| ==> ValueAt(v, optional[i].path).Some?
    requires forall i, j :: 0 <= i < |optional| && 0 <= j < |optional| && i != j ==> !(optional[i].path <= optional[j].path)
    ensures NotPickedAfter(rounds, k, -1) ==>
      ValueAt(Applied(v, optional, rounds), optional[k].path) == ValueAt(v, optional[k].path)
    ensures forall j :: 0 <= j < |rounds| && rounds[j].pick == k && NotPickedAfter(rounds, k, j) ==>
      ValueAt(Applied(v, optional, rounds), optional[k].path) == Some(Entered(optional[k], rounds[j].value).value)
    decreases |rounds|
  {
    if rounds != [] {
      var r := rounds[0];
      var x := Entered(optional[r.pick], r.value).value;
      var next := SetAt(v, optional[r.pick].path, x);
      assert Applied(v, optional, rounds) == Applied(next, optional, rounds[1..]);
      StoreOnePick(v, optional, r.pick, x);
      PlayableTail(optional, rounds);
      AppliedLastPickWins(next, optional, rounds[1..], k);
      forall j | 0 <= j < |rounds| && rounds[j].pick == k && NotPickedAfter(rounds, k, j)
        ensures ValueAt(Applied(v, optional, rounds), optional[k].path) == Some(Entered(optional[k], rounds[j].value).value)
      {
        NotPickedAfterTail(rounds, k, j);
        if j > 0 {
          assert rounds[1..][j - 1] == rounds[j];
        }
      }
      if NotPickedAfter(rounds, k, -1) {
        NotPickedAfterTail(rounds, k, -1);
      }
    }
  }

  /** The loop of GenericShellHandler over the required fields. */
  method CollectRequired(console: Console, command: Command, required: seq<FieldInfo>) returns (err: Option<string>)
    requires command.request.Pointer?
    modifies console`input, console`output, command`request
    ensures var s := CollectAll(Session(old(command.request), old(console.input), old(console.output), None), required);
      command.request == s.request && console.input == s.input && console.output == s.output && err == s.err
  {
    ghost var s0 := Session(command.request, console.input, console.output, None);
    for i := 0 to |required|
      invariant command.request.Pointer?
      invariant CollectAll(s0, required[..i]) == Session(command.request, console.input, console.output, None)
    {
      assert required[..i + 1][..i] == required[..i];
      err := CollectShellValue(console, command, required[i]);
      if err.Some? {
        assert CollectAll(s0, required[..i + 1]) == Session(command.request, console.input, console.output, err);
        CollectAllErrorPersists(s0, required, i + 1);
        return err;
      }
    }
    assert required[..|required|] == required;
    return None;
  }

  /** The menu loop of GenericShellHandler over the optional fields. */
  method CollectOptional(console: Console, command: Command, optional: seq<FieldInfo>) returns (err: Option<string>)
    requires command.request.Pointer?
    modifies console`input, console`output, command`request
    ensures var s := OptionalRounds(Session(old(command.request), old(console.input), old(console.output), None), optional);
      command.request == s.request && console.input == s.input && console.output == s.output && err == s.err
  {
    ghost var final := OptionalRounds(Session(command.request, console.input, console.output, None), optional);
    var selected := 1;
    while selected >= 0
      invariant command.request.Pointer?
      invariant selected >= 0 ==> OptionalRounds(Session(command.request, console.input, console.output, None), optional) == final
      invariant selected < 0 ==> Session(command.request, console.input, console.output, None) == final
      decreases |console.input| + if selected >= 0 then 1 else 0
    {
      selected := PresentOptions(console, optional);
      if selected >= 0 {
        err := CollectShellValue(console, command, optional[selected]);
        if err.Some? {
          return err;
        }
      }
    }
    return None;
  }

  /** GenericShellHandler: prompt for the required fields, offer the optional ones, then respond. */
  method GenericShellHandler(console: Console, command: Command, run: Handler -> Outcome) returns (r: Run)
    requires command.commander != null
    modifies console`input, console`output, command`request
    ensures var s := ShellSession(old(command.request), old(console.input), old(console.output));
      && command.request == s.request && console.input == s.input && console.output == s.output
      && (s.err.Some? ==> r == Run(Fail(s.err.value), []))
      && (s.err.None? ==> r == Respond(command, run))
  {
    var inspected := InspectStruct(command.request);
    if inspected.Failure? {
      return Run(Fail(inspected.error), []);
    }
    var required, optional := SplitRequiredFields(inspected.value);
    var err := CollectRequired(console, command, required);
    if err.Some? {
      return Run(Fail(err.value), []);
    }
    err := CollectOptional(console, command, optional);
    if err.Some? {
      return Run(Fail(err.value), []);
    }
    r := Respond(command, run);
  }
}
