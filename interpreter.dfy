/** The re-entrant core of the command language: `processCmd`
    (js/terminal.js) and, from js/commands.js, `evalTokens`, `run`, `ifCmd`,
    `forCmd`, `aliasCmd`, `evalExpr` and `processArray`. They call each
    other without a structural decrease (a parenthesised expression
    re-enters the dispatcher, an alias runs a program whose lines are
    dispatched), so every member takes `fuel`; `Exhausted` is a call that
    did not finish within it. */
module Interpreter {
  import opened Wrappers
  import opened JsString
  import opened Tokenizer
  import opened Flags
  import opened Session
  import Commands

  /** How a call ends: it returns a value, it throws (a thrown string or a
      TypeError, which propagates until some `catch`), or it runs out of fuel. */
  datatype Step<T> = Returned(state: Session, value: T) | Raised(state: Session, error: string) | Exhausted

  /** A step that ends with a state keeps what no command changes. */
  predicate Kept<T>(s: Session, r: Step<T>)
  {
    r.Exhausted? || Keeps(s, r.state)
  }

  /** A command's reply as a returned value. */
  function FromReply(r: Commands.Reply): Step<string>
  {
    Returned(r.state, r.value)
  }

  /** `executing = false; return await cmdErr(term, msg, code)` in `run`. */
  function Stop(s: Session, msg: string, code: int): (r: Step<string>)
    ensures r.Returned? && r.value == "ERROR" && !r.state.executing && r.state.status != 0
    ensures Keeps(s, r.state)
  {
    var (s', out) := CmdErr(s.(executing := false), msg, code);
    Returned(s', out)
  }

  /** The message of the TypeError a property read on `undefined` throws. */
  function ReadOfUndefined(property: string): string
  {
    "TypeError: Cannot read properties of undefined (reading '" + property + "')"
  }

  /** RUN and ALIAS after a run: save, reset the status and answer "",
      whatever the run returned. */
  function Saved(r: Step<string>): (q: Step<string>)
    ensures q.Returned? <==> r.Returned?
    ensures q.Returned? ==> q.value == "" && q.state.status == 0 && !q.state.suppress
    ensures !r.Returned? ==> q == r
  {
    match r
    case Returned(s, _) => Returned(SetLocalStorage(s).(status := 0), "")
    case Raised(s, e) => Raised(s, e)
    case Exhausted => Exhausted
  }

  /** The commands that evaluate their line and then act on the values. */
  predicate EvaluatesFirst(c: Cmd)
  {
    c.Assign? || c.Unassign? || c.Print? || c.Equals? || c.Lt? || c.Gt? || c.Goto? || c.Delete? || c.Move?
  }

  /** The commands whose `catch` wraps the error as `Runtime error; e.`;
      the others print it as it is. */
  predicate WrapsErrors(c: Cmd)
  {
    c.Assign? || c.Unassign? || c.For? || c.Alias?
  }

  /** What an evaluating command does with its evaluated arguments. */
  function Apply(s: Session, c: Cmd, a: seq<string>): (r: Commands.Reply)
    requires EvaluatesFirst(c)
    ensures Keeps(s, r.state)
  {
    match c
    case Assign => Commands.Assign(s, a)
    case Unassign => Commands.Unassign(s, a)
    case Print => Commands.PrintWords(s, a)
    case Equals => Commands.Compare(s, a, Commands.Same)
    case Lt => Commands.Compare(s, a, Commands.Less)
    case Gt => Commands.Compare(s, a, Commands.Greater)
    case Goto => Commands.Goto(s, a)
    case Delete => Commands.Delete(s, a)
    case Move => Commands.Move(s, a)
  }

  // ---------------------------------------------------------------------
  // The dispatcher

  /** `processCmd(command)`: an empty line answers ""; otherwise the status
      is reset and the upper-cased first word is tried as a registered
      command, as an alias, and as a line number, in that order. */
  function ProcessCmd(fuel: nat, s: Session, command: string): (r: Step<string>)
    ensures Kept(s, r)
    decreases fuel, 0, 0, 0
  {
    if command == "" then Returned(s, "")
    else if fuel == 0 then Exhausted
    else
      var s1 := s.(status := 0);
      var args := Split(command, ' ');
      var cmd := Upper(args[0]);
      match Lookup(s1.registry, cmd)
      case Some(c) => Dispatch(fuel - 1, s1, c, args)
      case None =>
        match AliasLookup(s1.aliases, cmd)
        case Some(pid) => Run(fuel - 1, s1, pid)
        case None =>
          if IsNumeric(args[0]) then FromReply(Commands.StoreNumbered(s1, args))
          else FromReply(Commands.NotRecognized(s1, args[0]))
  }

  /** The callback of a registered command. */
  function Dispatch(fuel: nat, s: Session, c: Cmd, args: seq<string>): (r: Step<string>)
    ensures Kept(s, r)
    decreases fuel, 7, 0, 0
  {
    match c
    case Exit => FromReply(Commands.Exit(s))
    case List => FromReply(Commands.ListInput(s))
    case New => FromReply(Commands.New(s))
    case Save => FromReply(Commands.Save(s, args))
    case Run => Saved(Run(fuel, s, s.input))
    case If => IfCmd(fuel, s, args)
    case For => ForCmd(fuel, s, args)
    case Alias => AliasCmd(fuel, s, args)
    case _ => Evaluated(fuel, s, c, args)
  }

  /** A command that evaluates its whole line first; a failed evaluation
      is reported through `cmdErr`. */
  function Evaluated(fuel: nat, s: Session, c: Cmd, args: seq<string>): (r: Step<string>)
    requires EvaluatesFirst(c)
    ensures Kept(s, r)
    decreases fuel, 6, 0, 0
  {
    match EvalLine(fuel, s, args)
    case Exhausted => Exhausted
    case Raised(s1, e) => FromReply(Commands.Fail(s1, if WrapsErrors(c) then "Runtime error; " + e + "." else e))
    case Returned(s1, a) => FromReply(Apply(s1, c, a))
  }

  // ---------------------------------------------------------------------
  // Evaluation of placeholders

  /** `tokenizeString` then `evalTokens` on the words joined by spaces. */
  function EvalLine(fuel: nat, s: Session, args: seq<string>): (r: Step<seq<string>>)
    ensures Kept(s, r)
    decreases fuel, 5, 0, 0
  {
    match Tokenize(Join(args, " "))
    case Err(e) => Raised(s, e)
    case Ok(t) => EvalArgs(fuel, s, t.args, 0, t.tokens)
  }

  /** The outer loop of `evalTokens` from argument `i` on. */
  function EvalArgs(fuel: nat, s: Session, args: seq<string>, i: nat, tokens: seq<Token>): (r: Step<seq<string>>)
    ensures Kept(s, r)
    ensures r.Returned? ==> |r.value| == |args| && (i <= |args| ==> r.value[..i] == args[..i])
    decreases fuel, 3, |args| - i, 0
  {
    if i >= |args| then Returned(s, args)
    else
      match EvalArg(fuel, s, args[i], 0, tokens)
      case Returned(s1, a) => EvalArgs(fuel, s1, args[i := a], i + 1, tokens)
      case Raised(s1, e) => Raised(s1, e)
      case Exhausted => Exhausted
  }

  /** The inner loop of `evalTokens` on one argument from token `j` on. A
      variable replaces its placeholder; a quoted string or a
      parenthesised command replaces the whole argument. */
  function EvalArg(fuel: nat, s: Session, arg: string, j: nat, tokens: seq<Token>): (r: Step<string>)
    ensures Kept(s, r)
    decreases fuel, 2, 0, |tokens| - j
  {
    if j >= |tokens| then Returned(s, arg)
    else
      var t := tokens[j];
      if !Contains(arg, t.Replace()) then EvalArg(fuel, s, arg, j + 1, tokens)
      else match t.kind
        case Var =>
          if t.text !in s.variables then Raised(s, "Reference error; variable " + t.text + " does not exist.")
          else EvalArg(fuel, s, ReplaceFirst(arg, t.Replace(), s.variables[t.text]), j + 1, tokens)
        case Quote =>
          if fuel == 0 then Exhausted
          else (
            match EvalArg(fuel - 1, s, t.text, 0, tokens)
            case Returned(s1, v) => EvalArg(fuel, s1, v, j + 1, tokens)
            case Raised(s1, e) => Raised(s1, e)
            case Exhausted => Exhausted)
        case Paren =>
          if fuel == 0 then Exhausted
          else (
            match EvalParen(fuel, s, t.text, tokens)
            case Returned(s1, v) => EvalArg(fuel, s1, v, j + 1, tokens)
            case Raised(s1, e) => Raised(s1, e)
            case Exhausted => Exhausted)
  }

  /** The `paren` case of `evalTokens`: evaluate the command's words, run
      it with output suppressed, and fail on a non-zero status. */
  function EvalParen(fuel: nat, s: Session, text: string, tokens: seq<Token>): (r: Step<string>)
    requires fuel > 0
    ensures Kept(s, r)
    ensures r.Returned? ==> r.state.status == 0 && !r.state.suppress
    decreases fuel, 1, 0, 0
  {
    match EvalArgs(fuel - 1, s, Split(text, ' '), 0, tokens)
    case Exhausted => Exhausted
    case Raised(s1, e) => Raised(s1, e)
    case Returned(s1, words) =>
      match ProcessCmd(fuel - 1, s1.(suppress := true), Join(words, " "))
      case Exhausted => Exhausted
      case Raised(s2, e) => Raised(s2, e)
      case Returned(s2, out) =>
        var s3 := s2.(suppress := false);
        if s3.status != 0 then Raised(s3, "Runtime error; expression evaluation failed.")
        else Returned(s3, out)
  }

  // ---------------------------------------------------------------------
  // run

  /** `run(term, program)` on the program array `pid`. */
  function Run(fuel: nat, s: Session, pid: nat): (r: Step<string>)
    ensures Kept(s, r)
    ensures r.Returned? ==> !r.state.executing
    decreases fuel, 2, 0, 0
  {
    RunFrom(fuel, s.(executing := true), pid, 0, 100)
  }

  /** The loop of `run` from `line` on, with `stack` jumps left. The array
      is read afresh at every line, since a line may change it. */
  function RunFrom(fuel: nat, s: Session, pid: nat, line: nat, stack: nat): (r: Step<string>)
    ensures Kept(s, r)
    ensures r.Returned? ==> !r.state.executing
    decreases fuel, 1, 0, 0
  {
    if fuel == 0 then Exhausted
    else
      var p := ProgramAt(s, pid);
      if line >= |p| then Returned(s.(executing := false), "")
      else if !HasLine(p, line) then RunFrom(fuel - 1, s, pid, line + 1, stack)
      else
        var text := p[line].value;
        if Commands.IsControlLine(text) then Stop(s, "Cannot execute control command within a program.", 1)
        else
          match ProcessCmd(fuel - 1, s, text)
          case Exhausted => Exhausted
          case Raised(s1, e) => Raised(s1, e)
          case Returned(s1, control) => Proceed(fuel - 1, s1, pid, line, stack, control)
  }

  /** The GOTO protocol after line `line` answered `control`: a reply
      "GOTO:n" jumps to line n, which must hold a text, and uses up one of
      the jumps left. */
  function Proceed(fuel: nat, s: Session, pid: nat, line: nat, stack: nat, control: string): (r: Step<string>)
    ensures Kept(s, r)
    ensures r.Returned? ==> !r.state.executing
    decreases fuel, 3, 0, 0
  {
    if StartsWith(control, "GOTO:") then
      var target := Commands.GotoTarget(control);
      if !(target.Some? && HasLine(ProgramAt(s, pid), target.value)) then
        Stop(s, "Invalid program line " + Commands.NumberText(target) + " specified.", 1)
      else if stack <= 1 then Stop(s, "Stack limit exceeded.", s.status)
      else AfterLine(fuel, s, pid, target.value, stack - 1, control)
    else AfterLine(fuel, s, pid, line + 1, stack, control)
  }

  /** The end of one iteration of `run`: EXIT or `stopPrinting` ends the
      run quietly, a non-zero status ends it with an error, and otherwise
      it goes on at `next`. */
  function AfterLine(fuel: nat, s: Session, pid: nat, next: nat, stack: nat, control: string): (r: Step<string>)
    ensures Kept(s, r)
    ensures r.Returned? ==> !r.state.executing
    decreases fuel, 2, 0, 0
  {
    if control == "EXIT" || s.stopPrinting then Returned(s.(executing := false, stopPrinting := false), "")
    else if s.status != 0 then Stop(s, "Execution error.", s.status)
    else RunFrom(fuel, s, pid, next, stack)
  }

  // ---------------------------------------------------------------------
  // IF

  /** `evalExpr(terminal, expr, mode)`: only a parenthesised command is
      dispatched, with output suppressed. */
  function EvalExpr(fuel: nat, s: Session, x: Commands.Expression): (r: Step<Option<string>>)
    ensures Kept(s, r)
    ensures !x.Command? ==> r.Returned? && r.state == s
    ensures x.Command? && r.Returned? ==> r.state.status == 0 && !r.state.suppress
    decreases fuel, 2, 0, 0
  {
    match x
    case Plain(w) => Returned(s, w)
    case Quoted(t) => Returned(s, Some(t))
    case Variable(_, v) => Returned(s, Some(v))
    case Command(t) =>
      match ProcessCmd(fuel, s.(suppress := true), t)
      case Exhausted => Exhausted
      case Raised(s1, e) => Raised(s1, e)
      case Returned(s1, out) =>
        var s2 := s1.(suppress := false);
        if s2.status != 0 then Raised(s2, "Runtime error; expression evaluation failed.")
        else Returned(s2, Some(out))
  }

  /** `ifCmd(args)` on the raw words of the line. */
  function IfCmd(fuel: nat, s: Session, args: seq<string>): (r: Step<string>)
    ensures Kept(s, r)
    ensures r.Returned? ==> r.state.status == 0 || r.value == "ERROR"
    decreases fuel, 6, 0, 0
  {
    match Commands.IfSyntax(args)
    case Some(msg) => FromReply(Commands.Fail(s, msg))
    case None =>
      var thenPos, elsePos := Commands.LastWord(args, "THEN"), Commands.LastWord(args, "ELSE");
      var elseAt := if elsePos == 0 then |args| else elsePos;
      match Commands.ExtractVarFromArgs(s.variables, args[1..thenPos])
      case Err(e) => FromReply(Commands.Fail(s, e))
      case Ok(condition) =>
        match EvalExpr(fuel, s, condition)
        case Exhausted => Exhausted
        case Raised(s1, e) => FromReply(Commands.Fail(s1, e))
        case Returned(s1, result) =>
          if Commands.IsTrue(result) then Branch(fuel, s1, Commands.Slice(args, thenPos + 1, elseAt))
          else if elseAt != |args| then Branch(fuel, s1, args[elsePos + 1..])
          else Returned(s1.(status := 0), "")
  }

  /** The chosen branch of IF: its value, converted with `toString`, which
      throws on `undefined` outside the `try`. */
  function Branch(fuel: nat, s: Session, words: seq<string>): (r: Step<string>)
    ensures Kept(s, r)
    ensures r.Returned? ==> r.state.status == 0 || r.value == "ERROR"
    decreases fuel, 5, 0, 0
  {
    match Commands.ExtractVarFromArgs(s.variables, words)
    case Err(e) => FromReply(Commands.Fail(s, e))
    case Ok(x) =>
      match EvalExpr(fuel, s, x)
      case Exhausted => Exhausted
      case Raised(s1, e) => FromReply(Commands.Fail(s1, e))
      case Returned(s1, out) =>
        if out.None? then Raised(s1, ReadOfUndefined("toString"))
        else Returned(s1.(status := 0), out.value)
  }

  // ---------------------------------------------------------------------
  // FOR

  /** `forCmd(args)`. */
  function ForCmd(fuel: nat, s: Session, args: seq<string>): (r: Step<string>)
    ensures Kept(s, r)
    ensures r.Returned? ==> !r.state.executing || r.value == "ERROR"
    decreases fuel, 6, 0, 0
  {
    match Commands.ForSyntax(args)
    case Some(msg) => FromReply(Commands.Fail(s, msg))
    case None =>
      var doPos := Commands.LastWord(args, "DO");
      var command := Join(args[doPos + 1..], " ");
      match EvalLine(fuel, s, args[..doPos])
      case Exhausted => Exhausted
      case Raised(s1, e) => FromReply(Commands.Fail(s1, "Runtime error; " + e + "."))
      case Returned(s1, a) => ForLoop(fuel, s1, a, command)
  }

  /** FOR once the words before DO are evaluated: the checks on the
      variable name, then `processArray` over the lines of the value list. */
  function ForLoop(fuel: nat, s: Session, a: seq<string>, command: string): (r: Step<string>)
    ensures Kept(s, r)
    ensures r.Returned? ==> !r.state.executing || r.value == "ERROR"
    decreases fuel, 5, 0, 0
  {
    if |a| < 2 then Raised(s, ReadOfUndefined("charAt"))
    else if Commands.FirstCharIs(a[1], '$') then FromReply(Commands.Fail(s, "Syntax error; variable name cannot begin with $."))
    else if a[1] == "" then FromReply(Commands.Fail(s, "Syntax error; missing variable name."))
    else
      var s2 := s.(executing := true);
      if |a| < 4 || a[3] == "" then FromReply(Commands.Fail(s2, ReadOfUndefined("errorMsg")))
      else
        var values := Split(a[3], '\n');
        match ForEach(fuel, s2, a[1], values, 0, command)
        case Exhausted => Exhausted
        case Raised(s3, e) => FromReply(Commands.Fail(s3, e))
        case Returned(s3, _) => Returned(s3.(executing := false), Commands.ForResult(|values|))
  }

  /** The loop of `processArray` with FOR's callback from value `k` on:
      bind the variable, save, and dispatch the command, whose result is
      dropped. */
  function ForEach(fuel: nat, s: Session, name: string, values: seq<string>, k: nat, command: string): (r: Step<string>)
    ensures Kept(s, r)
    decreases fuel, 2, |values| - k, 0
  {
    if k >= |values| then Returned(s, "")
    else
      var s1 := SetLocalStorage(s.(variables := s.variables[name := values[k]]));
      match ProcessCmd(fuel, s1, command)
      case Exhausted => Exhausted
      case Raised(s2, e) => Raised(s2, e)
      case Returned(s2, _) => ForEach(fuel, s2, name, values, k + 1, command)
  }

  // ---------------------------------------------------------------------
  // ALIAS

  /** A flag's value, `false` when it was never set. */
  function Flag(flags: map<char, FlagValue>, c: char): FlagValue
  {
    if c in flags then flags[c] else Off
  }

  /** `aliasCmd(args)`: delete, list or recall an alias, run one, or list
      them all. */
  function AliasCmd(fuel: nat, s: Session, args: seq<string>): (r: Step<string>)
    ensures Kept(s, r)
    ensures r.Returned? ==> r.state.status == 0
    decreases fuel, 6, 0, 0
  {
    if |args| < 2 then FromReply(Commands.ShowAliases(s))
    else
      match EvalLine(fuel, s, args)
      case Exhausted => Exhausted
      case Raised(s1, e) =>
        Raised(Commands.Fail(s1, "Runtime error; " + e + ".").state, ReadOfUndefined("D"))
      case Returned(s1, a) =>
        var parsed := ParseCommandLine(a, true, Available, {});
        var name := Upper(parsed.name);
        if parsed.action in DeleteAction || Truthy(Flag(parsed.flags, 'D')) then
          FromReply(Commands.AliasDelete(s1, name, args))
        else if parsed.action in ListAction || Truthy(Flag(parsed.flags, 'L')) then
          FromReply(Commands.AliasList(s1, name, args))
        else if parsed.action in RecallAction || Truthy(Flag(parsed.flags, 'R')) then
          FromReply(Commands.AliasRecall(s1, name, args))
        else
          match AliasLookup(s1.aliases, Upper(args[1]))
          case None => FromReply(Commands.ShowAliases(s1))
          case Some(pid) => Saved(Run(fuel, s1, pid))
  }

  // ---------------------------------------------------------------------
  // The loops as the source writes them

  /** `run`'s `for` loop over the lines, one unit of fuel per iteration. */
  method RunLoop(fuel: nat, s: Session, pid: nat) returns (r: Step<string>)
    ensures r == Run(fuel, s, pid)
  {
    var t := s.(executing := true);
    var line: nat, stack: nat, f := 0, 100, fuel;
    while true
      invariant RunFrom(f, t, pid, line, stack) == Run(fuel, s, pid)
      decreases f
    {
      if f == 0 {
        return Exhausted;
      }
      var p := ProgramAt(t, pid);
      if line >= |p| {
        return Returned(t.(executing := false), "");
      }
      if !HasLine(p, line) {
        f, line := f - 1, line + 1;
        continue;
      }
      var text := p[line].value;
      if Commands.IsControlLine(text) {
        return Stop(t, "Cannot execute control command within a program.", 1);
      }
      var step := ProcessCmd(f - 1, t, text);
      if !step.Returned? {
        return if step.Raised? then Raised(step.state, step.error) else Exhausted;
      }
      var control := step.value;
      assert RunFrom(f, t, pid, line, stack) == Proceed(f - 1, step.state, pid, line, stack, control);
      ProceedOutcome(f - 1, step.state, pid, line, stack, control);
      var next: nat, left := line + 1, stack;
      if StartsWith(control, "GOTO:") {
        var target := Commands.GotoTarget(control);
        if !(target.Some? && HasLine(ProgramAt(step.state, pid), target.value)) {
          return Stop(step.state, "Invalid program line " + Commands.NumberText(target) + " specified.", 1);
        }
        if stack <= 1 {
          return Stop(step.state, "Stack limit exceeded.", step.state.status);
        }
        next, left := target.value, stack - 1;
      }
      if control == "EXIT" || step.state.stopPrinting {
        return Returned(step.state.(executing := false, stopPrinting := false), "");
      }
      if step.state.status != 0 {
        return Stop(step.state, "Execution error.", step.state.status);
      }
      f, t, line, stack := f - 1, step.state, next, left;
    }
  }

  /** What one program line does to the run once it has been dispatched:
      an invalid GOTO target and the hundredth jump end the run with an
      error, EXIT or `stopPrinting` end it quietly, a non-zero status ends
      it with "Execution error.", and otherwise the run goes on at the
      next line or at the GOTO target with one jump fewer left. */
  lemma RunLine(fuel: nat, s: Session, pid: nat, line: nat, stack: nat, s1: Session, control: string)
    requires fuel > 0 && HasLine(ProgramAt(s, pid), line)
    requires !Commands.IsControlLine(ProgramAt(s, pid)[line].value)
    requires ProcessCmd(fuel - 1, s, ProgramAt(s, pid)[line].value) == Returned(s1, control)
    ensures var r := RunFrom(fuel, s, pid, line, stack);
      if StartsWith(control, "GOTO:") then
        var target := Commands.GotoTarget(control);
        if !(target.Some? && HasLine(ProgramAt(s1, pid), target.value)) then
          r == Stop(s1, "Invalid program line " + Commands.NumberText(target) + " specified.", 1)
        else if stack <= 1 then r == Stop(s1, "Stack limit exceeded.", s1.status)
        else if s1.stopPrinting then r == Returned(s1.(executing := false, stopPrinting := false), "")
        else if s1.status != 0 then r == Stop(s1, "Execution error.", s1.status)
        else r == RunFrom(fuel - 1, s1, pid, target.value, stack - 1)
      else if control == "EXIT" || s1.stopPrinting then r == Returned(s1.(executing := false, stopPrinting := false), "")
      else if s1.status != 0 then r == Stop(s1, "Execution error.", s1.status)
      else r == RunFrom(fuel - 1, s1, pid, line + 1, stack)
  {
    assert RunFrom(fuel, s, pid, line, stack) == Proceed(fuel - 1, s1, pid, line, stack, control);
    ProceedOutcome(fuel - 1, s1, pid, line, stack, control);
  }

  /** A program line that is the word EXIT, in any case, ends the run
      quietly: `exitCmd` resets the status and answers "EXIT", and `run`
      returns "" with `executing` and `stopPrinting` cleared. */
  lemma ExitEndsRun(fuel: nat, s: Session, pid: nat, line: nat, stack: nat)
    requires fuel > 1 && HasLine(ProgramAt(s, pid), line)
    requires Upper(ProgramAt(s, pid)[line].value) == "EXIT"
    requires Lookup(s.registry, "EXIT") == Some(Cmd.Exit)
    ensures RunFrom(fuel, s, pid, line, stack) == Returned(s.(status := 0, executing := false, stopPrinting := false), "")
  {
    var text := ProgramAt(s, pid)[line].value;
    assert ' ' !in text by {
      forall i | 0 <= i < |text| ensures text[i] != ' ' {
        assert Upper(text)[i] == UpperChar(text[i]);
      }
    }
    assert Split(text, ' ') == [text];
    assert !Commands.IsControlLine(text) by {
      var u := Upper(text);
      assert u[..3][0] == 'E' && u[..4][0] == 'E';
    }
    RunLine(fuel, s, pid, line, stack, s.(status := 0), "EXIT");
  }

  /** `RunLine` once the reply is known. */
  lemma ProceedOutcome(fuel: nat, s: Session, pid: nat, line: nat, stack: nat, control: string)
    ensures var r := Proceed(fuel, s, pid, line, stack, control);
      if StartsWith(control, "GOTO:") then
        var target := Commands.GotoTarget(control);
        if !(target.Some? && HasLine(ProgramAt(s, pid), target.value)) then
          r == Stop(s, "Invalid program line " + Commands.NumberText(target) + " specified.", 1)
        else if stack <= 1 then r == Stop(s, "Stack limit exceeded.", s.status)
        else if s.stopPrinting then r == Returned(s.(executing := false, stopPrinting := false), "")
        else if s.status != 0 then r == Stop(s, "Execution error.", s.status)
        else r == RunFrom(fuel, s, pid, target.value, stack - 1)
      else if control == "EXIT" || s.stopPrinting then r == Returned(s.(executing := false, stopPrinting := false), "")
      else if s.status != 0 then r == Stop(s, "Execution error.", s.status)
      else r == RunFrom(fuel, s, pid, line + 1, stack)
  {
    if StartsWith(control, "GOTO:") {
      assert control != "EXIT";
    }
  }

  /** The outer loop of `evalTokens`, over the arguments; the inner loop
      is `EvalArgLoop`. */
  method EvalTokensLoop(fuel: nat, s: Session, args: seq<string>, tokens: seq<Token>) returns (r: Step<seq<string>>)
    ensures r == EvalArgs(fuel, s, args, 0, tokens)
  {
    var a, t, i := args, s, 0;
    while i < |a|
      invariant i <= |a|
      invariant EvalArgs(fuel, t, a, i, tokens) == EvalArgs(fuel, s, args, 0, tokens)
    {
      var value := EvalArgLoop(fuel, t, a[i], tokens);
      if !value.Returned? {
        return if value.Raised? then Raised(value.state, value.error) else Exhausted;
      }
      t, a, i := value.state, a[i := value.value], i + 1;
    }
    return Returned(t, a);
  }

  /** The inner loop of `evalTokens`: the tokens in turn on one argument.
      The recursive evaluations of a quoted string and of a parenthesised
      command are the functions above. */
  method EvalArgLoop(fuel: nat, s: Session, arg: string, tokens: seq<Token>) returns (r: Step<string>)
    ensures r == EvalArg(fuel, s, arg, 0, tokens)
  {
    var t, a, j := s, arg, 0;
    while j < |tokens|
      invariant j <= |tokens|
      invariant EvalArg(fuel, t, a, j, tokens) == EvalArg(fuel, s, arg, 0, tokens)
    {
      var token := tokens[j];
      if Contains(a, token.Replace()) {
        if token.kind.Var? {
          if token.text !in t.variables {
            return Raised(t, "Reference error; variable " + token.text + " does not exist.");
          }
          a := ReplaceFirst(a, token.Replace(), t.variables[token.text]);
        } else {
          if fuel == 0 {
            return Exhausted;
          }
          var value: Step<string>;
          if token.kind.Quote? {
            value := EvalArg(fuel - 1, t, token.text, 0, tokens);
          } else {
            value := EvalParen(fuel, t, token.text, tokens);
          }
          if !value.Returned? {
            return if value.Raised? then Raised(value.state, value.error) else Exhausted;
          }
          t, a := value.state, value.value;
        }
      }
      j := j + 1;
    }
    return Returned(t, a);
  }


  /** `processArray`'s loop with FOR's callback. */
  method ForEachLoop(fuel: nat, s: Session, name: string, values: seq<string>, command: string) returns (r: Step<string>)
    ensures r == ForEach(fuel, s, name, values, 0, command)
  {
    var t, k := s, 0;
    while k < |values|
      invariant k <= |values|
      invariant ForEach(fuel, t, name, values, k, command) == ForEach(fuel, s, name, values, 0, command)
    {
      var step := ProcessCmd(fuel, SetLocalStorage(t.(variables := t.variables[name := values[k]])), command);
      if !step.Returned? {
        return if step.Raised? then Raised(step.state, step.error) else Exhausted;
      }
      t, k := step.state, k + 1;
    }
    return Returned(t, "");
  }

  // ---------------------------------------------------------------------
  // Properties

  /** The order in which `processCmd` resolves the first word: a
      registered command shadows an alias of the same name, an alias
      shadows a line number, and anything else is reported. */
  lemma ResolutionOrder(fuel: nat, s: Session, command: string)
    requires fuel > 0 && command != ""
    ensures var s1, args := s.(status := 0), Split(command, ' ');
      var cmd, r := Upper(args[0]), ProcessCmd(fuel, s, command);
      (Lookup(s.registry, cmd).Some? ==> r == Dispatch(fuel - 1, s1, Lookup(s.registry, cmd).value, args))
      && (Lookup(s.registry, cmd).None? && AliasLookup(s.aliases, cmd).Some? ==>
            r == Run(fuel - 1, s1, AliasLookup(s.aliases, cmd).value))
      && (Lookup(s.registry, cmd).None? && AliasLookup(s.aliases, cmd).None? && IsNumeric(args[0]) ==>
            r.Returned? && r.value == Join(args[1..], " ") && r.state.input == s.input)
      && (Lookup(s.registry, cmd).None? && AliasLookup(s.aliases, cmd).None? && !IsNumeric(args[0]) ==>
            r.Returned? && r.value == "\"" + args[0] + "\" is not recognized as a valid command.")
  {
    assert Commands.Rest(Split(command, ' ')) == Split(command, ' ')[1..];
  }

  /** A run over lines that are all holes or empty ends without output,
      clearing `executing`, once it has fuel for every line. */
  lemma {:induction false} RunOverHoles(fuel: nat, s: Session, pid: nat, line: nat, stack: nat)
    requires forall k :: line <= k ==> !HasLine(ProgramAt(s, pid), k)
    requires fuel > 0 && fuel > |ProgramAt(s, pid)| - line
    ensures RunFrom(fuel, s, pid, line, stack) == Returned(s.(executing := false), "")
    decreases |ProgramAt(s, pid)| - line
  {
    if line < |ProgramAt(s, pid)| {
      assert !HasLine(ProgramAt(s, pid), line);
      RunOverHoles(fuel - 1, s, pid, line + 1, stack);
    }
  }

  /** Whether a word holds none of the placeholders from token `j` on. */
  predicate Unmarked(arg: string, j: nat, tokens: seq<Token>)
  {
    forall k :: j <= k < |tokens| ==> !Contains(arg, tokens[k].Replace())
  }

  /** A word without placeholders comes back as it is, and nothing is
      dispatched. */
  lemma {:induction false} EvalArgUnmarked(fuel: nat, s: Session, arg: string, j: nat, tokens: seq<Token>)
    requires Unmarked(arg, j, tokens)
    ensures EvalArg(fuel, s, arg, j, tokens) == Returned(s, arg)
    decreases |tokens| - j
  {
    if j < |tokens| {
      EvalArgUnmarked(fuel, s, arg, j + 1, tokens);
    }
  }

  /** A line without placeholders comes back as it is. */
  lemma {:induction false} EvalArgsUnmarked(fuel: nat, s: Session, args: seq<string>, i: nat, tokens: seq<Token>)
    requires forall k :: i <= k < |args| ==> Unmarked(args[k], 0, tokens)
    ensures EvalArgs(fuel, s, args, i, tokens) == Returned(s, args)
    decreases |args| - i
  {
    if i < |args| {
      EvalArgUnmarked(fuel, s, args[i], 0, tokens);
      assert args[i := args[i]] == args;
      EvalArgsUnmarked(fuel, s, args, i + 1, tokens);
    }
  }

  /** A variable placeholder with no such variable throws the reference
      error; a bound one is replaced by the variable's value. */
  lemma VariableToken(fuel: nat, s: Session, arg: string, j: nat, tokens: seq<Token>)
    requires j < |tokens| && tokens[j].kind == Var && Contains(arg, tokens[j].Replace())
    ensures tokens[j].text !in s.variables ==>
      EvalArg(fuel, s, arg, j, tokens) == Raised(s, "Reference error; variable " + tokens[j].text + " does not exist.")
    ensures tokens[j].text in s.variables ==>
      EvalArg(fuel, s, arg, j, tokens) == EvalArg(fuel, s, ReplaceFirst(arg, tokens[j].Replace(), s.variables[tokens[j].text]), j + 1, tokens)
  {
  }

  /** A quoted string or a parenthesised command replaces the whole word
      that holds its placeholder: what else the word held is lost. */
  lemma WholeWordReplaced(fuel: nat, s: Session, arg1: string, arg2: string, j: nat, tokens: seq<Token>)
    requires j < |tokens| && tokens[j].kind != Var
    requires Contains(arg1, tokens[j].Replace()) && Contains(arg2, tokens[j].Replace())
    ensures EvalArg(fuel, s, arg1, j, tokens) == EvalArg(fuel, s, arg2, j, tokens)
  {
  }

  /** FOR with an empty command leaves the variable bound to the last
      value, and output no longer suppressed. */
  lemma {:induction false} ForEachBindsLast(fuel: nat, s: Session, name: string, values: seq<string>, k: nat)
    requires k < |values|
    ensures ForEach(fuel, s, name, values, k, "")
      == Returned(s.(variables := s.variables[name := values[|values| - 1]], suppress := false), "")
    decreases |values| - k
  {
    var s1 := SetLocalStorage(s.(variables := s.variables[name := values[k]]));
    assert ProcessCmd(fuel, s1, "") == Returned(s1, "");
    if k + 1 < |values| {
      ForEachBindsLast(fuel, s1, name, values, k + 1);
      assert s1.variables[name := values[|values| - 1]] == s.variables[name := values[|values| - 1]];
    }
  }

  /** Whether a word is read as a plain value by IF: no string, variable
      or command starts with it and it is neither keyword. */
  predicate PlainWord(w: string)
  {
    !Commands.IsSpecial(w) && Upper(w) != "THEN" && Upper(w) != "ELSE"
  }

  /** `IF c THEN a ELSE b` on plain words answers `a` when `c` is true
      ("TRUE" or a positive number) and `b` otherwise; without ELSE a
      false condition answers "". */
  lemma IfChooses(fuel: nat, s: Session, c: string, a: string, b: string)
    requires PlainWord(c) && PlainWord(a) && PlainWord(b)
    ensures IfCmd(fuel, s, ["IF", c, "THEN", a, "ELSE", b])
      == Returned(s.(status := 0), if Commands.IsTrue(Some(c)) then a else b)
    ensures IfCmd(fuel, s, ["IF", c, "THEN", a])
      == Returned(s.(status := 0), if Commands.IsTrue(Some(c)) then a else "")
  {
    KeywordsAt(c, a, b);
    PlainValue(s.variables, c);
    BranchPlain(fuel, s, a);
    BranchPlain(fuel, s, b);
    var full, short := ["IF", c, "THEN", a, "ELSE", b], ["IF", c, "THEN", a];
    assert full[1..2] == short[1..2] == [c];
    assert Commands.Slice(full, 3, 4) == Commands.Slice(short, 3, 4) == [a];
    assert full[5..] == [b];
    assert Commands.IfSyntax(full).None? && Commands.IfSyntax(short).None?;
    assert EvalExpr(fuel, s, Commands.Plain(Some(c))) == Returned(s, Some(c));
  }

  /** A branch of one plain word answers that word. */
  lemma BranchPlain(fuel: nat, s: Session, w: string)
    requires PlainWord(w)
    ensures Branch(fuel, s, [w]) == Returned(s.(status := 0), w)
  {
    PlainValue(s.variables, w);
  }

  /** Where IF finds its keywords in the two forms above. */
  lemma KeywordsAt(c: string, a: string, b: string)
    requires PlainWord(c) && PlainWord(a) && PlainWord(b)
    ensures Commands.LastWord(["IF", c, "THEN", a, "ELSE", b], "THEN") == 2
    ensures Commands.LastWord(["IF", c, "THEN", a, "ELSE", b], "ELSE") == 4
    ensures Commands.LastWord(["IF", c, "THEN", a], "THEN") == 2
    ensures Commands.LastWord(["IF", c, "THEN", a], "ELSE") == 0
  {
    UpperKeyword("IF");
    UpperKeyword("THEN");
    UpperKeyword("ELSE");
    var full := ["IF", c, "THEN", a, "ELSE", b];
    assert full[..5] == ["IF", c, "THEN", a, "ELSE"];
    assert full[..5][..4] == ["IF", c, "THEN", a];
    assert full[..5][..4][..3] == ["IF", c, "THEN"];
    assert full[..5][..4][..3][..2] == ["IF", c];
    assert full[..5][..4][..3][..2][..1] == ["IF"];
    assert ["IF", c, "THEN"][..2] == ["IF", c];
    assert ["IF", c][..1] == ["IF"];
    assert ["IF"][..0] == [];
    assert Commands.LastWord(["IF"], "ELSE") == 0;
    assert Commands.LastWord(["IF", c], "ELSE") == 0;
    assert Commands.LastWord(["IF", c, "THEN"], "ELSE") == 0;
    assert Commands.LastWord(["IF", c, "THEN"], "THEN") == 2;
  }

  /** A single plain word is read as itself. */
  lemma PlainValue(vars: map<string, string>, w: string)
    requires PlainWord(w)
    ensures Commands.ExtractVarFromArgs(vars, [w]) == Ok(Commands.Plain(Some(w)))
  {
    assert Commands.FirstSpecial([w], 1) == 1;
  }

  /** A word without lower-case letters is its own upper case. */
  lemma UpperKeyword(w: string)
    requires forall i :: 0 <= i < |w| ==> !('a' <= w[i] <= 'z')
    ensures Upper(w) == w
  {
  }
}
