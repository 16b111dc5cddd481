/**
 * Interactive input (shell.go): the optional-parameter menu, the boxed error message and
 * reading one field's value from the user.
 *
 * The shell context is a Console holding the lines the user will type and the text written
 * so far. Go's ReadLine blocks for the next line; here the lines are given up front, and a
 * read past the last one yields the empty line.
 */
module Shell {
  import opened Wrappers
  import opened Text
  import opened Inspector
  import opened Registry

  const MinErrWidth: nat := 37
  const ErrTitle := "error"
  const ErrorInvalidOption := "Invalid option, try again"

  /** The line a read returns: the next typed line, or "" once the input is used up. */
  function NextLine(input: seq<string>): string
  {
    if input == [] then "" else input[0]
  }

  /** The input left after one read. */
  function Remaining(input: seq<string>): (rest: seq<string>)
    ensures |rest| == if input == [] then 0 else |input| - 1
  {
    if input == [] then [] else input[1..]
  }

  class Console {
    /** Lines the user has yet to type. */
    var input: seq<string>
    /** Everything written so far, one entry per write. */
    var output: seq<string>

    constructor (input: seq<string>)
      ensures this.input == input && output == []
    {
      this.input := input;
      output := [];
    }

    method ReadLine() returns (line: string)
      modifies `input
      ensures line == NextLine(old(input)) && input == Remaining(old(input))
    {
      line := NextLine(input);
      input := Remaining(input);
    }

    method Print(s: string)
      modifies `output
      ensures output == old(output) + [s]
    {
      output := output + [s];
    }

    method Println(s: string)
      modifies `output
      ensures output == old(output) + [Line(s)]
    {
      output := output + [Line(s)];
    }
  }

  // ---------------------------------------------------------------------------
  // shellPrintError

  /** The box is as wide as the message, but never narrower than MinErrWidth. */
  function ErrorWidth(message: string): (w: nat)
    ensures w >= |message| && w >= MinErrWidth
    ensures w == |message| || w == MinErrWidth
  {
    if |message| < MinErrWidth then MinErrWidth else |message|
  }

  /** The three lines shellPrintError writes: a titled top border, the message, a bottom border. */
  function ErrorBox(message: string): (lines: seq<string>)
    ensures |lines| == 3 && lines[1] == message + "\n"
  {
    var width := ErrorWidth(message);
    [Line(TopBorder((width - 7) / 2)), Line(message), Line(RepeatChar('*', width))]
  }

  /** The top border: `padder` stars each side of the title. */
  function TopBorder(padder: nat): string
  {
    RepeatChar('*', padder) + " " + ErrTitle + " " + RepeatChar('*', padder)
  }

  /**
   * The bottom border spans the message; the top border carries " error " between two equal
   * runs of stars and is as wide as the bottom one when that width is odd, one narrower when
   * it is even.
   */
  lemma ErrorBoxShape(message: string)
    ensures var width := ErrorWidth(message); var padder := (width - 7) / 2; var box := ErrorBox(message);
      && |box[2]| == width + 1 && width >= |message|
      && (forall k :: 0 <= k < width ==> box[2][k] == '*')
      && |box[0]| == (if width % 2 == 1 then width else width - 1) + 1
      && box[0][padder..padder + 7] == " error "
      && (forall k :: 0 <= k < padder ==> box[0][k] == '*')
      && (forall k :: padder + 7 <= k < 2 * padder + 7 ==> box[0][k] == '*')
  {
    TopBorderLayout((ErrorWidth(message) - 7) / 2);
  }

  /** The top border line: `padder` stars, " error ", `padder` stars and a newline. */
  lemma TopBorderLayout(padder: nat)
    ensures var top := Line(TopBorder(padder));
      && |top| == 2 * padder + 8
      && top[padder..padder + 7] == " error "
      && (forall k :: 0 <= k < padder ==> top[k] == '*')
      && (forall k :: padder + 7 <= k < 2 * padder + 7 ==> top[k] == '*')
  {
    var stars := RepeatChar('*', padder);
    var top := Line(TopBorder(padder));
    assert top == stars + (" error " + (stars + "\n"));
    forall k | padder + 7 <= k < 2 * padder + 7 ensures top[k] == '*' {
      assert top[k] == (stars + "\n")[k - padder - 7];
    }
  }

  method ShellPrintError(console: Console, message: string)
    modifies console`output
    ensures console.output == old(console.output) + ErrorBox(message)
  {
    var errStringWidth := |message|;
    if errStringWidth < MinErrWidth {
      errStringWidth := MinErrWidth;
    }
    var padderWidth := (errStringWidth - 7) / 2;
    var errorBorderTop := RepeatChar('*', padderWidth) + " " + ErrTitle + " " + RepeatChar('*', padderWidth);
    var errorBorderBot := RepeatChar('*', errStringWidth);
    console.Println(errorBorderTop);
    console.Println(message);
    console.Println(errorBorderBot);
  }

  // ---------------------------------------------------------------------------
  // presentOptions

  /** The menu line for optional field i, numbered from 1. */
  function OptionLine(i: nat, fi: FieldInfo): string
  {
    "[" + Itoa(i + 1) + "] - " + fi.namespace + fi.name + "\n"
  }

  /** What Println writes for `s`. */
  function Line(s: string): string
  {
    s + "\n"
  }

  const MenuHeader: seq<string> := [Line(""), Line("Optional query paramaters:"), Line(""), Line("[0] - I'm done")]
  const MenuFooter: seq<string> := [Line(""), Line("Select an option: ")]

  function OptionLines(fis: seq<FieldInfo>): (lines: seq<string>)
    ensures |lines| == |fis| && forall i :: 0 <= i < |fis| ==> lines[i] == OptionLine(i, fis[i])
  {
    seq(|fis|, i requires 0 <= i < |fis| => OptionLine(i, fis[i]))
  }

  /** What one round of the menu writes before reading the user's choice. */
  function Menu(fis: seq<FieldInfo>): seq<string>
  {
    MenuHeader + OptionLines(fis) + MenuFooter
  }

  /**
   * What a typed line selects from a menu of `count` fields: Some(-1) for "I'm done",
   * Some(k) for field k, None for a line the menu rejects.
   */
  function Choice(count: nat, line: string): (r: Option<int>)
    ensures r.Some? ==> -1 <= r.value < count
    ensures r.None? <==> Atoi(line).None? || Atoi(line).value < 0 || Atoi(line).value > count
  {
    var parsed := Atoi(line);
    if parsed.None? then None
    else
      var intVal := parsed.value - 1;
      if intVal == -1 then Some(-1)
      else if intVal < -1 || intVal > count - 1 then None
      else Some(intVal)
  }

  /** Typing the number printed next to an entry selects that entry; typing 0 selects "I'm done". */
  lemma ChoiceOfPrintedNumber(count: nat, i: nat)
    requires i < count <= MaxInt64
    ensures Choice(count, Itoa(i + 1)) == Some(i)
    ensures Choice(count, "0") == Some(-1)
  {
    AtoiItoa(i + 1);
    AtoiItoa(0);
    assert Itoa(0) == "0";
  }

  /** The outcome of a menu dialogue: the selection, the input left, the text written. */
  datatype Dialogue = Dialogue(selected: int, unread: seq<string>, printed: seq<string>)

  /**
   * presentOptions over the typed lines `lines`: the menu is shown again after every rejected
   * line, each rejection followed by an error box, until a line is accepted.
   */
  function Present(fis: seq<FieldInfo>, lines: seq<string>): (d: Dialogue)
    ensures -1 <= d.selected < |fis|
    ensures |d.unread| <= |lines| && d.unread == lines[|lines| - |d.unread|..]
    ensures fis == [] ==> d == Dialogue(-1, lines, [])
    ensures d.selected >= 0 ==> |d.unread| < |lines|
  {
    if fis == [] then Dialogue(-1, lines, [])
    else if lines == [] then Dialogue(-1, [], Menu(fis))
    else
      match Choice(|fis|, lines[0])
      case Some(k) => Dialogue(k, lines[1..], Menu(fis))
      case None =>
        var d := Present(fis, lines[1..]);
        TailSuffix(lines, |d.unread|);
        Dialogue(d.selected, d.unread, Menu(fis) + ErrorBox(ErrorInvalidOption) + d.printed)
  }

  /** A suffix of the tail of `lines` is the suffix of `lines` of the same length. */
  lemma TailSuffix(lines: seq<string>, n: nat)
    requires lines != [] && n < |lines|
    ensures lines[1..][|lines| - 1 - n..] == lines[|lines| - n..]
  {
  }

  /**
   * Rejected lines are skipped: the dialogue ends at the first line that names an entry of the
   * menu or "I'm done", and selects exactly that entry.
   */
  lemma {:induction false} PresentSelectsFirstAccepted(fis: seq<FieldInfo>, rejected: seq<string>, line: string, rest: seq<string>)
    requires fis != []
    requires forall k :: 0 <= k < |rejected| ==> Choice(|fis|, rejected[k]).None?
    requires Choice(|fis|, line).Some?
    ensures Present(fis, rejected + [line] + rest).selected == Choice(|fis|, line).value
    ensures Present(fis, rejected + [line] + rest).unread == rest
    decreases |rejected|
  {
    if rejected == [] {
      assert rejected + [line] + rest == [line] + rest;
    } else {
      assert (rejected + [line] + rest)[1..] == rejected[1..] + [line] + rest;
      PresentSelectsFirstAccepted(fis, rejected[1..], line, rest);
    }
  }

  method PrintMenu(console: Console, fis: seq<FieldInfo>)
    modifies console`output
    ensures console.output == old(console.output) + Menu(fis)
  {
    console.Println("");
    console.Println("Optional query paramaters:");
    console.Println("");
    console.Println("[0] - I'm done");
    assert console.output == old(console.output) + MenuHeader + OptionLines(fis[..0]);
    for i := 0 to |fis|
      invariant console.output == old(console.output) + MenuHeader + OptionLines(fis[..i])
    {
      assert OptionLines(fis[..i + 1]) == OptionLines(fis[..i]) + [OptionLine(i, fis[i])];
      console.Print("[" + Itoa(i + 1) + "] - " + fis[i].namespace + fis[i].name + "\n");
    }
    assert fis[..|fis|] == fis;
    console.Println("");
    console.Println("Select an option: ");
  }

  /**
   * presentOptions: -1 when there is nothing to offer or the user is done, otherwise the
   * index of the optional field chosen.
   */
  method PresentOptions(console: Console, fis: seq<FieldInfo>) returns (selected: int)
    modifies console`input, console`output
    ensures var d := Present(fis, old(console.input));
      selected == d.selected && console.input == d.unread && console.output == old(console.output) + d.printed
  {
    if |fis| == 0 {
      return -1;
    }
    ghost var d0 := Present(fis, console.input);
    while true
      invariant Present(fis, console.input).selected == d0.selected
      invariant Present(fis, console.input).unread == d0.unread
      invariant old(console.output) + d0.printed == console.output + Present(fis, console.input).printed
      decreases |console.input|
    {
      ghost var before, lines := console.output, console.input;
      PrintMenu(console, fis);
      if console.input == [] {
        // the typed lines are used up: the user is taken to be done
        return -1;
      }
      var accepted := ReadChoice(console, fis);
      if accepted.Some? {
        return accepted.value;
      }
      ghost var rest := Present(fis, console.input).printed;
      assert Present(fis, lines).printed == Menu(fis) + ErrorBox(ErrorInvalidOption) + rest;
      assert console.output == before + Menu(fis) + ErrorBox(ErrorInvalidOption);
      Regroup(before, Menu(fis), ErrorBox(ErrorInvalidOption), rest);
    }
  }

  lemma Regroup(a: seq<string>, b: seq<string>, c: seq<string>, d: seq<string>)
    ensures a + (b + c + d) == (a + b + c) + d
  {
  }

  /** One read of presentOptions: the typed line's choice, with an error box when it is rejected. */
  method ReadChoice(console: Console, fis: seq<FieldInfo>) returns (accepted: Option<int>)
    requires console.input != []
    modifies console`input, console`output
    ensures accepted == Choice(|fis|, old(console.input)[0]) && console.input == old(console.input)[1..]
    ensures console.output == old(console.output) + if accepted.None? then ErrorBox(ErrorInvalidOption) else []
  {
    var selected := console.ReadLine();
    var intVal := Atoi(selected);
    if intVal.None? {
      ShellPrintError(console, ErrorInvalidOption);
      return None;
    }
    var choice := intVal.value - 1;
    if choice == -1 {
      return Some(-1);
    }
    if choice < -1 || choice > |fis| - 1 {
      ShellPrintError(console, ErrorInvalidOption);
      return None;
    }
    return Some(choice);
  }

  /**
   * presentOptionalFieldsMultiSelect, given the index `picked` the user chose from the list
   * ["I'm done", field 0, field 1, ...]: the field's index, or -1 for "I'm done", a cancelled
   * or out-of-range pick, or an empty list.
   */
  function PresentOptionalFieldsMultiSelect(fis: seq<FieldInfo>, picked: int): (r: int)
    ensures -1 <= r < |fis|
    ensures r >= 0 <==> 1 <= picked <= |fis|
    ensures r >= 0 ==> r == picked - 1
  {
    if |fis| > 0 then
      var intVal := picked - 1;
      if intVal == -1 then -1
      else if intVal < -1 || intVal > |fis| - 1 then -1
      else intVal
    else -1
  }

  /** Picking an entry from the list selects what typing its number into the menu selects. */
  lemma MultiSelectAgreesWithMenu(fis: seq<FieldInfo>, picked: int)
    requires fis != [] && 0 <= picked <= MaxInt64
    ensures PresentOptionalFieldsMultiSelect(fis, picked) ==
      match Choice(|fis|, Itoa(picked)) case Some(k) => k case None => -1
  {
    AtoiItoa(picked);
  }

  // ---------------------------------------------------------------------------
  // collectShellValue

  /** The name reflect gives a value's kind. */
  function KindName(v: Value): string
  {
    match v
    case IntValue(_) => "int"
    case StringValue(_) => "string"
    case BoolValue(_) => "bool"
    case Record(_) => "struct"
    case OtherValue(k) => k
  }

  /** The value a typed line gives a field, by the field's kind. */
  function Entered(fi: FieldInfo, line: string): (r: Result<Value>)
    ensures r.Success? ==> SameType(fi.value, r.value)
    ensures r.Success? <==> fi.value.StringValue? || (fi.value.IntValue? && Atoi(line).Some?)
    ensures fi.value.StringValue? ==> r == Success(StringValue(line))
  {
    match fi.value
    case StringValue(_) => Success(StringValue(line))
    case IntValue(_) =>
      var intVal := Atoi(line);
      if intVal.None? then Failure("failed to convert user input to integer")
      else Success(IntValue(intVal.value))
    case _ => Failure("unsupported value type: " + KindName(fi.value))
  }

  /** Typing an int's decimal form into an int field stores that int. */
  lemma EnteredIntRoundTrip(fi: FieldInfo, n: int)
    requires fi.value.IntValue? && MinInt64 <= n <= MaxInt64
    ensures Entered(fi, Itoa(n)) == Success(IntValue(n))
  {
    AtoiItoa(n);
  }

  /**
   * collectShellValue: prompts with the field's name, reads a line and stores what it gives
   * into the request field the descriptor refers to; on an error the request is unchanged.
   */
  method CollectShellValue(console: Console, cmd: Command, fi: FieldInfo) returns (err: Option<string>)
    requires cmd.request.Pointer?
    modifies console`input, console`output, cmd`request
    ensures !fi.settable ==>
      && err == Some("unable to set value (CanSet=false)")
      && console.input == old(console.input) && console.output == old(console.output)
      && cmd.request == old(cmd.request)
    ensures fi.settable ==>
      && console.output == old(console.output) + [fi.name + ":"]
      && console.input == Remaining(old(console.input))
      && var entered := Entered(fi, NextLine(old(console.input)));
        && (entered.Failure? ==> err == Some(entered.error) && cmd.request == old(cmd.request))
        && (entered.Success? ==> err == None && cmd.request == Pointer(SetAt(old(cmd.request).target, fi.path, entered.value)))
  {
    if !fi.settable {
      return Some("unable to set value (CanSet=false)");
    }
    console.Print(fi.name + ":");
    var strVal := console.ReadLine();
    match fi.value
    case StringValue(_) =>
      cmd.request := Pointer(SetAt(cmd.request.target, fi.path, StringValue(strVal)));
      return None;
    case IntValue(_) =>
      var intVal := Atoi(strVal);
      if intVal.None? {
        return Some("failed to convert user input to integer");
      }
      cmd.request := Pointer(SetAt(cmd.request.target, fi.path, IntValue(intVal.value)));
      return None;
    case _ =>
      return Some("unsupported value type: " + KindName(fi.value));
  }

  /**
   * A value collected for a descriptor of the request is what the request then holds at that
   * field, and every field off that path keeps its value.
   */
  lemma CollectedValueStored(request: Value, fi: FieldInfo, line: string, other: seq<nat>)
    requires ValueAt(request, fi.path).Some? && Entered(fi, line).Success?
    ensures ValueAt(SetAt(request, fi.path, Entered(fi, line).value), fi.path) == Some(Entered(fi, line).value)
    ensures !(fi.path <= other) && !(other <= fi.path) ==>
      ValueAt(SetAt(request, fi.path, Entered(fi, line).value), other) == ValueAt(request, other)
  {
    SetAtThenValueAt(request, fi.path, Entered(fi, line).value);
    if !(fi.path <= other) && !(other <= fi.path) {
      SetAtLeavesOthers(request, fi.path, other, Entered(fi, line).value);
    }
  }
}
