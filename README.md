# combi, modelled in Dafny

combi builds command-line programs from Go structs. It serves them two ways: as static subcommands, with cobra flags, and as interactive shell commands, with ishell prompts. A `Commander` owns a set of `Command`s, keyed by name. It also holds the program-wide defaults for five extension points:

- registration
- request handling
- response handling
- static execution
- shell execution

It also holds lists of pre-request and post-request hooks and an error handler. A command overrides any extension point by setting its own handler.

The inspector walks a command's request struct and produces one field descriptor per field, in order. Each descriptor records:

- whether the field is required;
- whether it holds its zero value;
- its namespace, name and hint;
- its short and long flags;
- where it is stored.

The handlers use these descriptors in two places:

- The default registration handler binds string and int fields to cobra flags.
- The generic shell handler prompts for every required field and then offers a menu of the optional ones until the user types 0.

The project has these files:

- `wrappers.dfy`: `Option`, `Result` and `Outcome` (a handler's nil error or its message).
- `text.dfy`: the string functions the core relies on:
  - `strings.Index`
  - `strings.Repeat`
  - `strconv.Atoi` over 64-bit ints
  - decimal printing
  - byte-wise string order and `sort.Strings`
- `inspector.dfy`: struct values, the `inspect` recursion as a class holding the two variables it threads through, `InspectStruct` and `splitRequiredFields`.
- `registry.dfy`: `Command` and `Commander` (command.go and commander.go). They are two classes that refer to each other. It also holds handler resolution, the hook and error log, `resetStruct` and the sorted command listing.
- `shell.dfy`: the console, the error box, the option menu, the multi-select mapping and `collectShellValue`.
- `handlers.dfy`: `GenericStaticHandler`, `DefaultRegistrationHandler` and `GenericShellHandler`, plus the validation-message finding.

Handlers are opaque. A `Handler` value names a function, and a total map `run: Handler -> Outcome` gives what each function returns during one request. `Commander.Add` takes one such map per registration call, so each command's registration can succeed or fail on its own. Within one request a function listed twice gives the same outcome both times (see "## Left out"). Struct pointers are `Handle`s: a pointer to a `Value` tree, or something that is not a pointer. The place where a field is stored is the path of child indices leading to it.

## Model

| member | source | states |
|---|---|---|
| Inspector.InspectStruct | inspector.go:39-68 | The descriptors (or the error) are exactly those of the flattening `Flatten` of the handle. A non-pointer, or a pointer to a non-struct, gives "pointer to struct expected". |
| Inspector.Inspection.Inspect | inspector.go:81-161 | Appends exactly the descriptors of `Walk` for the field and advances the running index by their number. Leaves named XMLName, Local or Space are skipped. A kind other than int, string, bool or struct fails with "Unsupported kind: " and the kind. The first failure stops the walk. |
| Inspector.Inspection.InspectFields | inspector.go:140-156 | Walks the fields of a struct in order, prefixing each namespace with the struct's name and "->" when the name is not empty. On success the appended descriptors are exactly those of `WalkFields`. The first failing field stops the walk with its error. |
| Inspector.IsRequired | inspector.go:116-120 | A field is required iff its `valid` tag starts with "required". This is the `strings.Index(...) == 0` test. |
| Inspector.InspectStructNumbering | inspector.go:133-134 | On success, the descriptors are numbered 0, 1, 2, … in the order they are listed, because the shared counter moves once per described leaf. |
| Inspector.InspectStructFailures | inspector.go:42-51 | Anything but a pointer to a struct is rejected with "pointer to struct expected". Otherwise inspection fails iff some field, at any depth, has a kind other than int, string, bool or struct. |
| Inspector.WalkFailsIffUnsupported | inspector.go:158-159 | A field walk fails exactly when the field, or a nested one, has a kind other than string, int, bool or struct. |
| Inspector.InspectStructDescribesLeaves | inspector.go:138-150 | Inspecting a struct whose fields all have names lists every non-excluded int, string and bool field in depth-first declaration order. Each namespace is the chain of enclosing field names joined by "->". The tags, the required flag and the storage path are copied from the field. |
| Inspector.InspectZeroRecord | inspector.go:123-126 | Inspecting a freshly zeroed struct marks every descriptor Zero. |
| Inspector.DescribeZero | inspector.go:123-126 | A leaf's recorded zero is the zero of its own type: 0, "" or false. |
| Inspector.InspectStructPaths | inspector.go:102-106 | Every descriptor's path leads from the inspected struct to the very value the descriptor records. |
| Inspector.SetAtThenValueAt | shell.go:129-138 | Storing a value at a descriptor's path and reading it back gives the stored value. |
| Inspector.SetAtLeavesOthers | shell.go:129-138 | Storing at one path leaves unchanged every path that is neither a prefix nor an extension of it. |
| Inspector.SplitRequiredFields | inspector.go:163-181 | Required is the leaf descriptors (nested descriptor lists expanded in place) that are required, in inspection order. Optional is the rest of the leaves, in order. |
| Inspector.FilterPartition | inspector.go:163-181 | The required and the optional lists together are a permutation of their input: nothing is lost or duplicated. |
| Text.Index | inspector.go:116 | `strings.Index`: the first position of `sub` in `s`, or -1 iff `sub` does not occur. |
| Text.IndexZeroIffPrefix | inspector.go:116 | `strings.Index(s, sub) == 0` holds exactly when `sub` is a prefix of `s`. |
| Text.AtoiItoa | shell.go:36-41 | Parsing the decimal form of any 64-bit int gives that int back. |
| Text.SortStrings | commander.go:182 | `sort.Strings`: the result is sorted in byte order and is a permutation of the input. |
| Text.SortedUnique | commander.go:182 | Two sorted permutations of the same names are equal, so the listing order does not depend on map order. |
| Registry.Resolve | command.go:94-115 | The command's own handler is used when set, else the commander's default. With neither set, the result is the fixed "no … defined" error. Errors are wrapped with "error from command"/"error from commander" according to which handler was used. |
| Registry.LocalIgnoresDefault | command.go:95-106 | When a command sets its own handler, the commander's default has no effect. |
| Registry.DefaultDecides | command.go:96-100 | When a command sets no handler, the commander's default is the one invoked. |
| Registry.Command.Register | command.go:52-72 | Registration resolves the command's registration function against the commander's. A failure comes back wrapped with "error from command registration handler: " or "error from commander registration handler: ". |
| Registry.Command.HandleRequest | command.go:94-115 | The request handler resolves like `Resolve`. With no handler anywhere it fails with "no request handler defined". |
| Registry.Command.HandleResponse | command.go:118-138 | The response handler resolves like `Resolve`. With no handler anywhere it fails with "no response handler defined". |
| Registry.Command.RunHooks | command.go:143-149 | Every hook runs. Each failing hook's message is reported to the error handler, in hook order, and the run continues. |
| Registry.Command.HandleStatic | command.go:140-178 | The error log grows by exactly the pre-hook failures, the static-exec failure (wrapped, or "no static exec handler defined") and the post-hook failures, in that order. Nothing else changes. |
| Registry.Command.RunExtension | command.go:143-177 | For one extension point, the error log grows by exactly the pre-hook failures, then the failure of the exec resolved for that point (the command's own, else the commander's; wrapped with its origin, or "no … handler defined" when neither is set), then the post-hook failures, in that order. |
| Registry.Command.Reset | command.go:199-206 | The request and then the response are replaced by fresh zero values, each nil when its reset fails, and each reset error is reported, request first. |
| Registry.Command.HandleShell | command.go:197-244 | First the request and then the response are replaced by fresh zero values. Either is nil when its reset fails, and the reset errors are reported before any hook runs. Then the run proceeds as in `RunExtension` for the shell exec. |
| Registry.ResetStruct | command.go:180-195 | Fails with "pointer to struct expected" iff the handle is not a pointer to a struct. Otherwise it returns a pointer to the zero of that struct. |
| Registry.ResetStructIsFreshZero | command.go:180-195 | A reset struct has the original's type, is zero throughout and is unchanged by a second reset. Inspecting it marks every descriptor Zero. |
| Registry.ZeroOfSameType | command.go:185-194 | The zero of a value has the same type (same fields, same kinds), and taking the zero twice is the same as once. |
| Registry.Commander.constructor | commander.go:29-39 | A new commander has no commands and the documented defaults: the default registration handler, XML pretty-print responses, the generic static and shell execs and the default error handler. It has no request handler and no hooks. |
| Registry.Commander.HandleError | commander.go:42-44 | The message is passed to the current error handler. This is recorded as one more entry in the error log. |
| Registry.Commander.SetErrorHandler | commander.go:47-51 | Only the error handler changes. |
| Registry.Commander.RegistrationHandler | commander.go:54-58 | Returns the default registration handler slot of the settings. |
| Registry.Commander.ShellExec | commander.go:68-72 | Returns the default shell exec slot of the settings. |
| Registry.Commander.StaticExec | commander.go:82-86 | Returns the default static exec slot of the settings. |
| Registry.Commander.DefaultRequestHandler | commander.go:96-100 | Returns the default request handler slot of the settings. |
| Registry.Commander.DefaultResponseHandler | commander.go:113-117 | Returns the default response handler slot of the settings. |
| Registry.Commander.PreRequestHooks | commander.go:139-143 | Returns the pre-request hooks of the settings, in order. |
| Registry.Commander.PostRequestHooks | commander.go:155-159 | Returns the post-request hooks of the settings, in order. |
| Registry.Commander.SetDefaultRegistrationHandler | commander.go:61-65 | Only the default registration handler changes. |
| Registry.Commander.SetDefaultShellExec | commander.go:75-79 | Only the default shell exec changes. |
| Registry.Commander.SetDefaultStaticExec | commander.go:89-93 | Only the default static exec changes. |
| Registry.Commander.SetDefaultRequestHandler | commander.go:106-110 | Only the default request handler changes. |
| Registry.Commander.SetDefaultResponseHandler | commander.go:123-127 | Only the default response handler changes. |
| Registry.Commander.AddPreRequestHooks | commander.go:130-136 | The hooks are appended after the existing pre-request hooks, in the order given. |
| Registry.Commander.AddPostRequestHooks | commander.go:146-152 | The hooks are appended after the existing post-request hooks, in the order given. |
| Registry.Commander.Cmd | commander.go:194-200 | Returns the command stored under the name. A missing name gives the error "failed to resolve command in register". |
| Registry.Commander.All | commander.go:233-238 | Returns the stored commands, each under its own name. |
| Registry.Commander.Enlist | commander.go:205-210 | One step of the loop: the command points back to this commander and is stored under its name, replacing any earlier one. No other command is stored or removed. Its registration is exactly `Command.Register`: the command's own function, else the commander's default. |
| Registry.Commander.Add | commander.go:203-217 | Commands are attached, stored by name and registered one at a time, each registration with its own outcomes. The first registration error is returned at once: the failing command stays stored and the later ones are not touched. With no error, all are stored. Nothing about a command changes except its commander. |
| Registry.Commander.EnlistAll | commander.go:205-214 | The loop of `Add`: every command before the first failing registration was registered without error. The failing one is attached and stored, and its error is returned. The commands after it keep their old commander. |
| Registry.StoredLast | commander.go:210 | After adding several commands, a name maps to the last command added under it. A second command with the same name replaces the first. |
| Registry.StoredKeys | commander.go:210 | The stored names are the old names plus the names of the added commands. |
| Registry.StoredOthers | commander.go:210 | A name that none of the added commands carries keeps its old command. |
| Registry.Commander.CollectNames | commander.go:172-179 | The collected keys are a permutation of the command names. The width is the length of the longest one. |
| Registry.Commander.PrintCommandList | commander.go:167-191 | The printed lines are exactly the listing of the stored commands. |
| Registry.ListingOrder | commander.go:182-190 | The listing has one line per command, in strictly ascending name order. Every command appears. |
| Registry.ListingColumn | commander.go:185-190 | Line i starts with the i-th name in order. " - " sits at the column given by the longest name's length, followed by that command's short description and a newline. |
| Registry.ListingColumns | commander.go:185-190 | The same layout holds for every line of the listing at once. |
| Registry.ListingLineLayout | commander.go:186-189 | A line is the name, spaces up to the width, " - ", the description and a newline. |
| Registry.LongestIs | commander.go:172-179 | The width is attained by some name, and no name is longer. |
| Shell.ShellPrintError | shell.go:100-114 | Writes exactly the three lines of the error box for the message. |
| Shell.ErrorBox | shell.go:100-114 | The box has three lines, and the middle one is the message. |
| Shell.TopBorderLayout | shell.go:100-110 | The printed top border line is padder asterisks, " error ", padder asterisks again and the line break: 2·padder+8 characters. |
| Shell.ErrorBoxShape | shell.go:100-114 | The width is max(message length, 37). The bottom line is that many asterisks. The top line is (width-7)/2 asterisks, " error ", and as many asterisks again. |
| Shell.PrintMenu | shell.go:25-35 | Writes the header ending in "[0] - I'm done", one "[n] - namespace+name" line per field numbered from 1, and the "Select an option: " footer. |
| Shell.Choice | shell.go:36-53 | A typed line selects field k when it parses to k+1, and "I'm done" when it parses to 0. It is rejected iff it does not parse, is negative or exceeds the number of fields. |
| Shell.ChoiceOfPrintedNumber | shell.go:36-53 | Typing the number printed beside a field selects that field. Typing 0 selects "I'm done". |
| Shell.Present | shell.go:21-56 | An empty list returns -1 without reading or printing. Otherwise the menu is shown, and after every rejected line an error box and the menu again, until a line is accepted. The unread input is what follows that line. |
| Shell.PresentSelectsFirstAccepted | shell.go:36-53 | Rejected lines are skipped. The dialogue selects what the first acceptable line names and leaves exactly the rest unread. |
| Shell.PresentOptions | shell.go:21-56 | Reads, prints and returns exactly what `Present` describes. |
| Shell.ReadChoice | shell.go:36-53 | Reads one line. A rejected line is answered with the error box, an accepted one is returned. |
| Shell.PresentOptionalFieldsMultiSelect | shell.go:58-98 | A pick of 1..n selects field pick-1. "I'm done", a cancelled or out-of-range pick, or an empty list give -1. |
| Shell.MultiSelectAgreesWithMenu | shell.go:83-95 | Picking an entry from the list selects what typing its number into the menu would. |
| Shell.Entered | shell.go:127-141 | A string field takes the typed line as is. An int field takes the parsed 64-bit int, or fails with "failed to convert user input to integer". Any other kind fails with "unsupported value type: " and the kind. A stored value always has the field's own type. |
| Shell.EnteredIntRoundTrip | shell.go:131-138 | Typing the decimal form of any 64-bit int into an int field stores that int. |
| Shell.CollectShellValue | shell.go:118-142 | A field that cannot be set fails before anything is read. Otherwise it prints the field name as a prompt, reads one line and stores the value entered at the field's path, or returns the error. |
| Shell.CollectedValueStored | shell.go:127-141 | After a value is collected, the field holds it and every other field is unchanged. |
| Handlers.ValidationErrorAsWrittenShowsMissing | handlers.go:24 | For every message, the code's validation error is "validation error: %!s(MISSING)" followed by the validator's message as Go's formatter renders it with no arguments. A message without '%' comes through verbatim, and the text then differs from the intended "validation error: " + message. |
| Handlers.ValidationErrorExample | handlers.go:24 | A concrete validator message shows the "%!s(MISSING)" text. |
| Handlers.ValidationErrorPercentExample | handlers.go:24 | A message with a trailing '%', "100%", is itself garbled: "validation error: %!s(MISSING)100%!(NOVERB)". |
| Handlers.ValidationErrorKeepsMessage | handlers.go:24 | The corrected message is "validation error: " followed by the validator's message unchanged. |
| Handlers.Respond | handlers.go:27-32 | Succeeds iff both request handling and response handling succeed. At most those two handlers are invoked. |
| Handlers.RespondOrder | handlers.go:27-32 | The request handler runs first. Its failure comes back wrapped with "error from request handler: ", and the response handler is then never invoked. Otherwise the response handler's outcome is returned. |
| Handlers.GenericStaticHandler | handlers.go:15-33 | A request that fails validation is rejected before any handler runs. The message is the corrected one, "validation error: " and the validator's message, not the code's "%!s(MISSING)" text (see "## Findings"). Otherwise it proceeds as `Respond`. |
| Handlers.Static | command.go:75-82 | The command-line command carries the command's name as its use, its short and long descriptions, and no flags yet. Its run function is the command's handleStatic, modelled as `Registry.Command.HandleStatic`. |
| Handlers.FlagFor | handlers.go:52-66 | A string or int field gives a flag bound to that field, with its long name, zero default and hint. The shorthand is SFlag when SFlag has exactly one character and empty otherwise, so a longer SFlag binds the long name only. Any other kind fails with "unhandled type". |
| Handlers.BindFlags | handlers.go:48-69 | Flag binding fails only with "unhandled type". On success there are no more flags than fields. |
| Handlers.HasUnhandledSnoc | handlers.go:48-66 | Adding one field at the end makes the binding fail iff it failed already or the new field has both a long flag and a hint but an unsupported kind. |
| Handlers.BindFlagsMatchesReference | handlers.go:48-69 | Binding fails iff some field with a long flag and a hint has an unsupported kind. Otherwise the flags are exactly those of the fields with both, in field order. |
| Handlers.BindFlagsFailurePersists | handlers.go:63-66 | Once a field's type is unhandled, binding the rest of the fields fails with the same error. |
| Handlers.FlagsForSource | handlers.go:48-62 | Every bound flag is the flag that some inspected field gives. |
| Handlers.RegisteredFlagsTargetRequestFields | handlers.go:35-75 | The flags of a registered command all store into fields of the command's request. |
| Handlers.DefaultRegistrationHandler | handlers.go:35-75 | An inspection error or an unhandled field type is returned, and nothing is added to the parent. Otherwise exactly one subcommand, with its flags, is appended to the parent. |
| Handlers.BindFieldFlags | handlers.go:48-69 | The loop binds exactly the flags of `BindFlags`. |
| Handlers.CollectAllErrorPersists | handlers.go:100-105 | Once a required field fails, the remaining required fields are not prompted for. |
| Handlers.RequiredPromptedInOrder | handlers.go:100-105 | Required fields are prompted for in inspection order. Each consumes one typed line, and all come before any menu. |
| Handlers.ShellSessionInspectFailure | handlers.go:89-92 | A request the inspector rejects fails with the inspector's error, with no prompt and no input read. |
| Handlers.NoOptionalFieldsNoMenu | handlers.go:108-117 | With no optional fields the menu loop ends at once, printing nothing. |
| Handlers.PresentPicksRound | shell.go:36-53 | In a menu round, the rejected lines are skipped and typing k+1 selects optional field k. The value typed next is the next line left unread. |
| Handlers.OptionalRoundsStep | handlers.go:108-117 | After the menu selects field k and the next line is a value the field accepts, the value is stored at the field's path. The prompt is printed, one line is read, and the loop goes on with no error. |
| Handlers.OptionalRoundsDone | handlers.go:108-117 | Rejected lines followed by "0" end the menu loop. The request is unchanged, and the input after the "0" is left unread. |
| Handlers.OptionalRoundsPlaysRounds | handlers.go:108-117 | Play any rounds, each picking an optional field by its printed number and typing a value it accepts, then rejected lines and "0". The request ends as every round's value stored in order (`Applied`). No error occurs, and exactly the input after the "0" is left unread. |
| Handlers.AppliedLastPickWins | handlers.go:108-117 | Applies when the optional fields' paths lead to fields and none is a prefix of another. A field no round picks keeps its value. A field picked in several rounds holds the value typed in the last of them. |
| Handlers.CollectRequired | handlers.go:100-105 | The loop over the required fields does exactly what `CollectAll` describes. |
| Handlers.CollectOptional | handlers.go:108-117 | The menu loop does exactly what `OptionalRounds` describes. |
| Handlers.GenericShellHandler | handlers.go:87-125 | The request and the console end as `ShellSession` describes. A collection or inspection error is returned before the request handler runs. Otherwise the result is that of `Respond`. |

## Left out

- The `sync.Mutex` in `Commander` is not modelled: the model is sequential.
- cobra and ishell are not modelled. Their I/O, argument parsing, flag parsing and command trees (`RegisterToShell`, `Commander.RegisterShell`, the `Run` of a static command) are outside this model. The shell console is a list of lines yet to be typed and a list of lines written.
- `NewCommander` keeps the root cobra command. In this model the parent is instead a parameter of `Handlers.DefaultRegistrationHandler`.
- `DefaultErrorHandler` calls `log.Fatal`, which ends the process. The model records every reported error in `errorLog`, tagged with the error handler that received it, and does not model process exit. A nil error handler is not modelled.
- Calls to `log.Println` and `println`, and the commented-out debugging prints, are left out: they change no state the core reads.
- `XMLPrettyPrintResponseHandler` and `XMLCompactPrintResponseHandler` are named handlers whose output is given by `run`. XML encoding is not part of this model.
- govalidator is a parameter (`validate`) of `Handlers.GenericStaticHandler`. Its rules are not part of this model.
- Reflection and pointer aliasing are not modelled. A request is a value, updated through the path stored in each descriptor. Two descriptors or two commands that share Go memory are not modelled as sharing.
- Inspector.Inspection.Inspect: the branch of `inspect` for a non-pointer struct value cannot be reached from `InspectStruct` and is not modelled.
- String lengths are counted in characters. Go counts bytes, which differs only for non-ASCII names and messages.
- Shell.PresentOptions: when the typed input runs out, the model returns -1. Go would go on waiting for a line.
- Shell.Console.ReadLine: at end of input it returns "".
- Shell.PresentOptionalFieldsMultiSelect: the user's pick from ishell's MultiChoice is a parameter. The list display itself is not modelled.
- Shell.Entered: the `OverflowInt` check can never fire for a 64-bit field once `Atoi` has accepted the text, so it is not modelled separately.
- Shell.Choice: `intVal--` on the smallest 64-bit int would wrap in Go. The model does not wrap, and that input is rejected either way.
- Handlers.FormatNoArgs: models `fmt.Errorf` with no arguments only as far as plain text, `%%` and verbs without flags, width or precision.
- Handlers.DefaultRegistrationHandler: cobra panics when two fields declare the same flag name, and that is not modelled.
- The effects of user handlers and hooks on the request and the response are not modelled. `run` gives only their outcome.
- Registry.Command.HandleShell and Registry.Command.HandleStatic: the built-in execs `GenericShellExec` and `GenericStaticExec` are opaque here too, and `run` gives only their outcome. That outcome is not tied to `Handlers.GenericShellHandler` or `Handlers.GenericStaticHandler`, which model those execs separately. So the request that the default shell exec fills in from the user's input (shell.go:129-138) is not part of `HandleShell`'s final state, which leaves the request as reset.
- Handlers.DefaultRegistrationHandler: binding a flag with pflag's `StringVarP`, `StringVar`, `IntVarP` or `IntVar` (handlers.go:52-62) writes the flag's default, "" or 0, into the bound request field. The model changes only the parent's subcommands and leaves the request as it was. In Go, the fields bound before an "unhandled type" failure have already been overwritten.
- Registry.Commander.PrintCommandList: returns the lines instead of passing them to a `FormatPrinter`.
- Handlers.GenericStaticHandler: on a failed validation it returns the corrected message, "validation error: " and the validator's message. The code at handlers.go:24 returns "validation error: %!s(MISSING)" followed by the message as the formatter renders it with no arguments. That as-written text is `Handlers.ValidationErrorAsWritten`, and the "## Findings" table records the difference.
- Registry.Command.HandleStatic and Registry.Command.HandleShell: one `run` map serves the whole request. A hook listed both before and after the request, or twice in one list, gives the same outcome each time. A hook or exec whose result depends on what ran before it is not modelled.
- Registry.Commander.Add: only the outcome of each registration is modelled here. Its effect on the cobra command tree is modelled only by `Handlers.DefaultRegistrationHandler`.
- Handlers.FlagFor: the Go type switch at handlers.go:50-57 matches only the exact types `*string` and `*int`. A field of a named type such as `type Color string` has kind string and passes inspection, but registering it fails with "unhandled type". Values carry no type names, so the model binds a flag for such a field.
- Inspector.InspectStruct: unexported fields are not distinguished. For an unexported int, string or bool field, `ptrVal.Interface()` at inspector.go:102 panics in Go. The model describes the field like any other and marks it settable.
- Handlers.AppliedLastPickWins: assumes the optional fields' paths lead to fields and none is a prefix of another. Inspected leaves are distinct fields, but the model does not derive this from inspection.

## Findings

| source | as written | input that shows it | evidently intended | confidence | as-written member | corrected member |
|---|---|---|---|---|---|---|
| handlers.go:24 | `fmt.Errorf("validation error: %s" + err.Error())` passes the validator's message as part of the format and gives `%s` no argument, so the error reads "validation error: %!s(MISSING)" followed by the message as the formatter renders it (verbatim when it has no '%') | any failed validation, e.g. the message "name: non zero value required"; "100%" gives "…%!s(MISSING)100%!(NOVERB)" | "validation error: " followed by the message | not executed | Handlers.ValidationErrorAsWrittenShowsMissing | Handlers.ValidationErrorKeepsMessage |
