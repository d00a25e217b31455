/** What the commands of js/commands.js do once their arguments have been
    evaluated: the checks, the changes to the stores and the replies. The
    evaluation itself, which may re-enter the dispatcher, lives in the
    module `Interpreter`. */
module Commands {
  import opened Wrappers
  import opened JsString
  import opened Session

  /** The new state and the value a command returns. */
  datatype Reply = Reply(state: Session, value: string)

  /** `return await cmdErr(this, msg, 1)`. */
  function Fail(s: Session, msg: string): (r: Reply)
    ensures r.value == "ERROR" && r.state.status == 1
    ensures r.state == s.(status := 1, output := r.state.output)
    ensures r.state.output == if s.suppress then s.output else s.output + [msg + "\n"]
    ensures Keeps(s, r.state)
  {
    var (s', out) := CmdErr(s, msg, 1);
    Reply(s', out)
  }

  /** `args.slice(1)`. */
  function Rest(args: seq<string>): seq<string>
  {
    if |args| <= 1 then [] else args[1..]
  }

  /** `${x}` for an argument that may be missing. */
  function ArgText(args: seq<string>, k: nat): string
  {
    if k < |args| then args[k] else "undefined"
  }

  /** `${n}` for the result of `parseInt`; `None` is NaN. */
  function NumberText(n: Option<int>): string
  {
    if n.Some? then IntToString(n.value) else "NaN"
  }

  /** `${line}` for a program slot; `None` is `undefined`. */
  function LineText(line: Option<string>): string
  {
    if line.Some? then line.value else "undefined"
  }

  /** `str.charAt(0) === c`. */
  predicate FirstCharIs(str: string, c: char)
  {
    |str| > 0 && str[0] == c
  }

  // ---------------------------------------------------------------------
  // Program slots addressed by the result of parseInt

  /** The index a `parseInt` result addresses, if it is an array index. */
  predicate Addresses(n: Option<int>)
  {
    n.Some? && IsArrayIndex(n.value)
  }

  /** `program[n]`. */
  function ReadLine(p: Program, n: Option<int>): Option<string>
  {
    if Addresses(n) then LineAt(p, n.value) else None
  }

  /** `delete program[n]`. */
  function RemoveLine(p: Program, n: Option<int>): (r: Program)
    ensures Addresses(n) ==> LineAt(r, n.value) == None
    ensures forall k :: !(Addresses(n) && k == n.value) ==> LineAt(r, k) == LineAt(p, k)
  {
    if Addresses(n) then DeleteLine(p, n.value) else p
  }

  /** `program[n] = v`. */
  function WriteLine(p: Program, n: Option<int>, v: Option<string>): (r: Program)
    ensures Addresses(n) ==> LineAt(r, n.value) == v
    ensures forall k :: !(Addresses(n) && k == n.value) ==> LineAt(r, k) == LineAt(p, k)
  {
    if Addresses(n) then SetLine(p, n.value, v) else p
  }

  /** The session with its input program replaced. */
  function WithInput(s: Session, p: Program): (r: Session)
    ensures Input(r) == (if s.input < |s.programs| then p else [])
    ensures r.input == s.input && r.aliases == s.aliases && |r.programs| == |s.programs|
    ensures forall q :: q != s.input ==> ProgramAt(r, q) == ProgramAt(s, q)
    ensures r == s.(programs := r.programs)
  {
    WithProgram(s, s.input, p)
  }

  // ---------------------------------------------------------------------
  // ASSIGN and UNASSIGN

  /** The arguments of a well-formed ASSIGN: `ASSIGN value TO name`, the
      name neither empty nor starting with `$`. */
  predicate AssignForm(a: seq<string>)
  {
    |a| == 4 && Upper(a[2]) == "TO" && a[3] != "" && !FirstCharIs(a[3], '$')
  }

  /** `assignmentCmd` after evaluation: binds the variable and answers its value. */
  function Assign(s: Session, a: seq<string>): (r: Reply)
    ensures AssignForm(a) ==>
      r.value == a[1] && r.state.variables == s.variables[a[3] := a[1]]
      && r.state.status == 0 && !r.state.suppress && r.state.output == s.output
      && r.state.programs == s.programs && r.state.aliases == s.aliases
    ensures !AssignForm(a) ==> r.value == "ERROR" && r.state.status == 1 && r.state.variables == s.variables
    ensures AssignForm(a) ==> r.state == s.(variables := r.state.variables, status := 0, suppress := false)
    ensures !AssignForm(a) ==> r.state == s.(status := 1, output := r.state.output)
    ensures Keeps(s, r.state)
  {
    if |a| != 4 then Fail(s, "Syntax error; ASSIGN takes four arguments.")
    else if Upper(a[2]) != "TO" then Fail(s, "Syntax error; second argument of ASSIGN must be TO.")
    else if FirstCharIs(a[3], '$') then Fail(s, "Syntax error; variable name cannot begin with $.")
    else if a[3] == "" then Fail(s, "Syntax error; missing variable name.")
    else Reply(SetLocalStorage(s.(variables := s.variables[a[3] := a[1]])).(status := 0), a[1])
  }

  /** `unassignCmd` after evaluation: removes a bound variable; an unbound
      name is reported, the status left as it was. */
  function Unassign(s: Session, a: seq<string>): (r: Reply)
    ensures |a| >= 2 && a[1] in s.variables ==>
      r == Reply(s.(variables := s.variables - {a[1]}, status := 0, suppress := false), "")
    ensures !(|a| >= 2 && a[1] in s.variables) ==>
      r.value == "Variable \"" + ArgText(a, 1) + "\" does not exist."
      && r.state == Println(s, r.value)
    ensures Keeps(s, r.state)
  {
    if |a| < 2 || a[1] !in s.variables then
      var out := "Variable \"" + ArgText(a, 1) + "\" does not exist.";
      Reply(Println(s, out), out)
    else Reply(SetLocalStorage(s.(variables := s.variables - {a[1]})).(status := 0), "")
  }

  /** Assigning a variable and unassigning it leaves no binding for it and
      every other binding as it was. */
  lemma AssignThenUnassign(s: Session, value: string, name: string)
    requires AssignForm(["ASSIGN", value, "TO", name])
    ensures var t := Assign(s, ["ASSIGN", value, "TO", name]).state;
      var u := Unassign(t, ["UNASSIGN", name]).state;
      name !in u.variables && u.variables == s.variables - {name} && u.status == 0
  {
    var t := Assign(s, ["ASSIGN", value, "TO", name]).state;
    assert ["UNASSIGN", name][1] == name;
    assert name in t.variables;
  }

  // ---------------------------------------------------------------------
  // PRINT, EQUALS, LT, GT, GOTO and EXIT

  /** `printCmd` after evaluation: the words after PRINT, printed and returned. */
  function PrintWords(s: Session, a: seq<string>): (r: Reply)
    ensures r.value == Join(Rest(a), " ")
    ensures r.state.output == if s.suppress then s.output else s.output + [r.value + "\n"]
    ensures r.state == s.(status := 0, output := r.state.output)
    ensures Keeps(s, r.state)
  {
    var out := Join(Rest(a), " ");
    Reply(Println(s.(status := 0), out), out)
  }

  /** PRINT of words without spaces prints a line that splits back into
      those words. */
  lemma {:induction false} PrintWordsSplits(s: Session, words: seq<string>)
    requires words != []
    requires forall k :: 0 <= k < |words| ==> ' ' !in words[k]
    ensures Split(PrintWords(s, ["PRINT"] + words).value, ' ') == words
  {
    assert Rest(["PRINT"] + words) == words;
    SplitJoin(words, ' ');
  }

  /** The three comparison commands. */
  datatype Comparison = Same | Less | Greater

  function ComparisonName(op: Comparison): string
  {
    match op
    case Same => "EQUALS"
    case Less => "LT"
    case Greater => "GT"
  }

  /** `===`, `<` and `>` on strings. */
  predicate Holds(op: Comparison, x: string, y: string)
  {
    match op
    case Same => x == y
    case Less => LexLess(x, y)
    case Greater => LexLess(y, x)
  }

  /** `equalsCmd`, `lessThanCmd` and `greaterThanCmd` after evaluation. */
  function Compare(s: Session, a: seq<string>, op: Comparison): (r: Reply)
    ensures |a| != 3 ==> r == Fail(s, "Syntax error; " + ComparisonName(op) + " requires two arguments.")
    ensures |a| == 3 ==>
      (r.value == "TRUE" <==> Holds(op, a[1], a[2]))
      && (r.value == "FALSE" <==> !Holds(op, a[1], a[2]))
      && r.state == Println(s.(status := 0), r.value)
    ensures Keeps(s, r.state)
  {
    if |a| != 3 then Fail(s, "Syntax error; " + ComparisonName(op) + " requires two arguments.")
    else
      var out := if Holds(op, a[1], a[2]) then "TRUE" else "FALSE";
      Reply(Println(s.(status := 0), out), out)
  }

  /** Of two texts exactly one comparison holds. */
  lemma Trichotomy(s: Session, x: string, y: string)
    ensures var a := ["CMP", x, y];
      var n := (if Compare(s, a, Same).value == "TRUE" then 1 else 0)
             + (if Compare(s, a, Less).value == "TRUE" then 1 else 0)
             + (if Compare(s, a, Greater).value == "TRUE" then 1 else 0);
      n == 1
  {
    LexLessTotal(x, y);
    if x == y {
      LexLessIrreflexive(x);
    } else if LexLess(x, y) && LexLess(y, x) {
      LexLessTransitive(x, y, x);
      LexLessIrreflexive(x);
    }
  }

  /** `gotoCmd` after evaluation: the jump request the runner reads. The
      session, status included, is left as it is, and `run` reads the
      argument back with `parseInt`. */
  function Goto(s: Session, a: seq<string>): (r: Reply)
    ensures r.state == s
    ensures StartsWith(r.value, "GOTO:")
    ensures Lacks(ArgText(a, 1), ':') ==> GotoTarget(r.value) == ParseInt(ArgText(a, 1))
    ensures Keeps(s, r.state)
  {
    var v := "GOTO:" + ArgText(a, 1);
    assert v[..5] == "GOTO:" && v[5..] == ArgText(a, 1);
    Reply(s, v)
  }

  /** `exitCmd`: the reply "EXIT" that ends a run. */
  function Exit(s: Session): (r: Reply)
    ensures r.value == "EXIT"
    ensures r.state == s.(status := 0)
    ensures Keeps(s, r.state)
  {
    Reply(s.(status := 0), "EXIT")
  }

  // ---------------------------------------------------------------------
  // DELETE and MOVE

  /** DELETE's line number is numeric and not negative. */
  predicate DeleteForm(a: seq<string>)
  {
    |a| == 2 && IsNumeric(a[1]) && !(ParseInt(a[1]).Some? && ParseInt(a[1]).value < 0)
  }

  /** `deleteCmd` after evaluation: removes one line of the input program
      and answers the line number and the old text. */
  function Delete(s: Session, a: seq<string>): (r: Reply)
    ensures !DeleteForm(a) ==> r.value == "ERROR" && r.state.status == 1 && r.state.programs == s.programs
    ensures DeleteForm(a) ==>
      var n := ParseInt(a[1]);
      r.value == NumberText(n) + " " + LineText(ReadLine(Input(s), n))
      && r.state.status == 0 && r.state.input == s.input && r.state.aliases == s.aliases
      && (Addresses(n) ==> LineAt(Input(r.state), n.value) == None)
      && (forall k :: !(Addresses(n) && k == n.value) ==> LineAt(Input(r.state), k) == LineAt(Input(s), k))
      && (forall q :: q != s.input ==> ProgramAt(r.state, q) == ProgramAt(s, q))
    ensures !DeleteForm(a) ==> r.state == s.(status := 1, output := r.state.output)
    ensures DeleteForm(a) ==>
      r.state == s.(programs := r.state.programs, status := 0, suppress := false, output := s.output + [r.value + "\n"])
    ensures Keeps(s, r.state)
  {
    if |a| != 2 then Fail(s, "Syntax error; DELETE requires two arguments.")
    else if !IsNumeric(a[1]) then Fail(s, "Syntax error; DELETE command requires one integer argument.")
    else
      var n := ParseInt(a[1]);
      if n.Some? && n.value < 0 then Fail(s, "Syntax error; DELETE argument cannot be less than 0.")
      else
        var out := ReadLine(Input(s), n);
        var text := NumberText(n) + " " + LineText(out);
        var s1 := SetLocalStorage(WithInput(s, RemoveLine(Input(s), n))).(status := 0);
        Reply(Println(s1, text), text)
  }

  /** MOVE's two line numbers are numeric and not negative. */
  predicate MoveForm(a: seq<string>)
  {
    |a| == 3 && IsNumeric(a[1]) && IsNumeric(a[2])
    && !(ParseInt(a[1]).Some? && ParseInt(a[1]).value < 0)
    && !(ParseInt(a[2]).Some? && ParseInt(a[2]).value < 0)
  }

  /** `moveCmd` after evaluation: line `from` is removed and its old text
      (or `undefined`) stored at `to`. */
  function Move(s: Session, a: seq<string>): (r: Reply)
    ensures !MoveForm(a) ==> r.value == "ERROR" && r.state.status == 1 && r.state.programs == s.programs
    ensures MoveForm(a) ==>
      var from, to := ParseInt(a[1]), ParseInt(a[2]);
      r.value == NumberText(to) + " " + LineText(ReadLine(Input(s), from))
      && r.state.status == 0 && r.state.input == s.input && r.state.aliases == s.aliases
      && (s.input < |s.programs| ==> Input(r.state) == Moved(Input(s), from, to))
      && (forall q :: q != s.input ==> ProgramAt(r.state, q) == ProgramAt(s, q))
    ensures !MoveForm(a) ==> r.state == s.(status := 1, output := r.state.output)
    ensures MoveForm(a) ==>
      r.state == s.(programs := r.state.programs, status := 0, suppress := false, output := s.output + [r.value + "\n"])
    ensures Keeps(s, r.state)
  {
    if |a| != 3 then Fail(s, "Syntax error; MOVE requires two arguments.")
    else if !IsNumeric(a[1]) || !IsNumeric(a[2]) then
      Fail(s, "Syntax error; MOVE command requires two integer arguments.")
    else
      var from, to := ParseInt(a[1]), ParseInt(a[2]);
      if (from.Some? && from.value < 0) || (to.Some? && to.value < 0) then
        Fail(s, "Syntax error; MOVE arguments cannot be less than 0.")
      else
        var out := ReadLine(Input(s), from);
        var p := Moved(Input(s), from, to);
        var text := NumberText(to) + " " + LineText(out);
        var s1 := SetLocalStorage(WithInput(s, p)).(status := 0);
        Reply(Println(s1, text), text)
  }

  /** Line `from` moved to line `to`: `to` holds the old text of `from`
      (or `undefined`), `from` is a hole unless it is `to`, and every other
      line is as it was. */
  function Moved(p: Program, from: Option<int>, to: Option<int>): (r: Program)
    ensures Addresses(to) ==> LineAt(r, to.value) == ReadLine(p, from)
    ensures Addresses(from) && from != to ==> LineAt(r, from.value) == None
    ensures forall k :: !(Addresses(from) && k == from.value) && !(Addresses(to) && k == to.value) ==>
      LineAt(r, k) == LineAt(p, k)
  {
    WriteLine(RemoveLine(p, from), to, ReadLine(p, from))
  }

  // ---------------------------------------------------------------------
  // NEW, SAVE and numbered lines

  /** `newCmd`: the input becomes a fresh empty array; arrays saved as
      aliases are untouched. */
  function New(s: Session): (r: Reply)
    ensures Input(r.state) == [] && r.value == "" && r.state.status == 0
    ensures r.state.aliases == s.aliases
    ensures forall q: nat :: q < |s.programs| ==> ProgramAt(r.state, q) == ProgramAt(s, q)
    ensures Valid(s) ==> Valid(r.state)
    ensures r.state.input == |s.programs| && |r.state.programs| == |s.programs| + 1
    ensures r.state.output == if s.suppress then s.output else s.output + ["Stored program cleared.\n"]
    ensures r.state == s.(programs := r.state.programs, input := r.state.input, status := 0, suppress := false, output := r.state.output)
    ensures Keeps(s, r.state)
  {
    var s0 := s.(programs := s.programs + [[]], input := |s.programs|);
    assert "Stored program cleared." + "\n" == "Stored program cleared.\n";
    Reply(SetLocalStorage(Println(s0, "Stored program cleared.")).(status := 0), "")
  }

  /** `saveCmd` (which does not evaluate its arguments): the upper-cased
      name now refers to the input array itself, not a copy. */
  function Save(s: Session, args: seq<string>): (r: Reply)
    ensures |args| != 2 ==> r == Fail(s, "Syntax error; SAVE requires one argument.")
    ensures |args| == 2 && Lookup(s.registry, Upper(args[1])).Some? ==>
      r == Fail(s, "Cannot SAVE an alias with the same name as built in command.")
    ensures |args| == 2 && Lookup(s.registry, Upper(args[1])).None? ==>
      r.value == "" && r.state.status == 0 && r.state.input == s.input && r.state.programs == s.programs
      && AliasLookup(r.state.aliases, Upper(args[1])) == Some(s.input)
      && (forall other :: other != Upper(args[1]) ==> AliasLookup(r.state.aliases, other) == AliasLookup(s.aliases, other))
    ensures |args| == 2 && Lookup(s.registry, Upper(args[1])).None? ==>
      r.state == s.(aliases := r.state.aliases, status := 0, suppress := false)
    ensures Valid(s) ==> Valid(r.state)
    ensures Keeps(s, r.state)
  {
    if |args| != 2 then Fail(s, "Syntax error; SAVE requires one argument.")
    else if Lookup(s.registry, Upper(args[1])).Some? then
      Fail(s, "Cannot SAVE an alias with the same name as built in command.")
    else
      var name := Upper(args[1]);
      forall other ensures AliasLookup(SetAlias(s.aliases, name, s.input), name) == Some(s.input)
        && (other != name ==> AliasLookup(SetAlias(s.aliases, name, s.input), other) == AliasLookup(s.aliases, other))
      {
        SetAliasLookup(s.aliases, name, s.input, other);
      }
      SetAliasValid(s, name);
      Reply(SetLocalStorage(s.(aliases := SetAlias(s.aliases, name, s.input))).(status := 0), "")
  }

  /** Pointing an alias at the input keeps every reference valid. */
  lemma {:induction false} SetAliasValid(s: Session, name: string)
    ensures Valid(s) ==> Valid(s.(aliases := SetAlias(s.aliases, name, s.input)))
  {
    if Valid(s) {
      SetAliasEntries(s.aliases, name, s.input, |s.programs|);
    }
  }

  /** Every entry after `SetAlias` refers below `bound` when the old ones did. */
  lemma {:induction false} SetAliasEntries(aliases: seq<AliasEntry>, name: string, program: nat, bound: nat)
    requires program < bound
    requires forall k :: 0 <= k < |aliases| ==> aliases[k].program < bound
    ensures forall k :: 0 <= k < |SetAlias(aliases, name, program)| ==> SetAlias(aliases, name, program)[k].program < bound
  {
    if aliases != [] && aliases[0].name != name {
      SetAliasEntries(aliases[1..], name, program, bound);
      var tail := SetAlias(aliases[1..], name, program);
      assert SetAlias(aliases, name, program) == [aliases[0]] + tail;
    }
  }

  /** A line stored after SAVE is seen through the alias as well: both
      names refer to one array. */
  lemma SaveSharesProgram(s: Session, name: string, n: nat, text: string)
    requires Valid(s) && IsArrayIndex(n)
    requires Lookup(s.registry, Upper(name)).None?
    ensures var t := Save(s, ["SAVE", name]).state;
      var u := StoreNumbered(t, [IntToString(n), text]).state;
      AliasLookup(u.aliases, Upper(name)) == Some(u.input)
      && LineAt(Input(u), n) == Some(text)
  {
    var t := Save(s, ["SAVE", name]).state;
    assert ["SAVE", name][1] == name;
    ParseIntToString(n);
    IntToStringIsNumeric(n);
    assert Rest([IntToString(n), text]) == [text];
  }

  /** `processCmd` on a line whose first word is a number: the rest of the
      line is stored at that line of the input program and returned. */
  function StoreNumbered(s: Session, args: seq<string>): (r: Reply)
    requires |args| >= 1
    ensures r.value == Join(Rest(args), " ")
    ensures r.state.input == s.input && r.state.aliases == s.aliases && r.state.status == s.status
    ensures var n := ParseInt(args[0]);
      (s.input < |s.programs| && Addresses(n) ==> LineAt(Input(r.state), n.value) == Some(r.value))
      && (forall k :: !(Addresses(n) && k == n.value) ==> LineAt(Input(r.state), k) == LineAt(Input(s), k))
    ensures forall q :: q != s.input ==> ProgramAt(r.state, q) == ProgramAt(s, q)
    ensures r.state == s.(programs := r.state.programs, suppress := false)
    ensures Keeps(s, r.state)
  {
    var rest := Join(Rest(args), " ");
    Reply(SetLocalStorage(WithInput(s, WriteLine(Input(s), ParseInt(args[0]), Some(rest)))), rest)
  }

  /** `processCmd` on a word that is neither a command, an alias nor a number. */
  function NotRecognized(s: Session, word: string): (r: Reply)
    ensures r.value == "\"" + word + "\" is not recognized as a valid command."
    ensures r.state.output == if s.suppress then s.output else s.output + [r.value + "\n"]
    ensures r.state == s.(output := r.state.output)
    ensures Keeps(s, r.state)
  {
    var out := "\"" + word + "\" is not recognized as a valid command.";
    Reply(Println(s, out), out)
  }

  // ---------------------------------------------------------------------
  // LIST and the alias listing

  /** Each text followed by a line break, as `println` prints it. */
  function Lined(lines: seq<string>): (r: seq<string>)
    ensures |r| == |lines| && forall k :: 0 <= k < |lines| ==> r[k] == lines[k] + "\n"
  {
    seq(|lines|, k requires 0 <= k < |lines| => lines[k] + "\n")
  }

  /** `println` of each text in turn. */
  function PrintLines(s: Session, lines: seq<string>): (r: Session)
    decreases |lines|
    ensures s.suppress ==> r == s
    ensures !s.suppress ==> r == s.(output := s.output + Lined(lines))
  {
    if lines == [] then s
    else
      var t := Println(s, lines[0]);
      LinedCons(s.output, lines);
      PrintLines(t, lines[1..])
  }

  /** Printing the first line, then the others. */
  lemma LinedCons(out: seq<string>, lines: seq<string>)
    requires lines != []
    ensures out + [lines[0] + "\n"] + Lined(lines[1..]) == out + Lined(lines)
  {
    assert Lined(lines) == [lines[0] + "\n"] + Lined(lines[1..]);
  }

  /** The lines `list` prints from slot `k` on: `line text` for every slot
      that holds a non-empty text, in ascending order. */
  function Listed(p: Program, k: nat): (r: seq<string>)
    decreases |p| - k
    ensures |r| <= |p| - k || k > |p|
  {
    if k >= |p| then []
    else if HasLine(p, k) then [IntToString(k) + " " + p[k].value] + Listed(p, k + 1)
    else Listed(p, k + 1)
  }

  /** The lines `list` prints, each followed by "\n" and concatenated: what it returns. */
  function Concat(lines: seq<string>): string
  {
    if lines == [] then "" else lines[0] + Concat(lines[1..])
  }

  /** `list(term, program)`: prints the present lines and returns them. */
  function List(s: Session, p: Program): (r: Reply)
    ensures r.value == Concat(Lined(Listed(p, 0)))
    ensures r.state == PrintLines(s, Listed(p, 0))
  {
    Reply(PrintLines(s, Listed(p, 0)), Concat(Lined(Listed(p, 0))))
  }

  /** The `for ... in` loop of `list`, proved to compute `List`. */
  method ListLoop(s: Session, p: Program) returns (r: Reply)
    ensures r == List(s, p)
  {
    var out := "";
    var t := s;
    var line := 0;
    while line < |p|
      invariant 0 <= line <= |p|
      invariant out + Concat(Lined(Listed(p, line))) == Concat(Lined(Listed(p, 0)))
      invariant PrintLines(t, Listed(p, line)) == PrintLines(s, Listed(p, 0))
    {
      if HasLine(p, line) {
        var text := IntToString(line) + " " + p[line].value;
        ListLoopStep(p, line, out, t, text);
        out := out + text + "\n";
        t := Println(t, text);
      }
      line := line + 1;
    }
    r := Reply(t, out);
  }

  /** One printed line of `list`: the rest of the listing is what is left. */
  lemma ListLoopStep(p: Program, line: nat, out: string, t: Session, text: string)
    requires line < |p| && HasLine(p, line) && text == IntToString(line) + " " + p[line].value
    ensures out + Concat(Lined(Listed(p, line))) == (out + text + "\n") + Concat(Lined(Listed(p, line + 1)))
    ensures PrintLines(t, Listed(p, line)) == PrintLines(Println(t, text), Listed(p, line + 1))
  {
    var rest := Listed(p, line + 1);
    assert Listed(p, line) == [text] + rest;
    ListedText(out, text, rest);
    ListedPrint(t, text, rest);
  }

  /** The answer of `list` after one more listed line. */
  lemma ListedText(out: string, text: string, rest: seq<string>)
    ensures out + Concat(Lined([text] + rest)) == (out + text + "\n") + Concat(Lined(rest))
  {
    assert Lined([text] + rest) == [text + "\n"] + Lined(rest);
    assert Concat([text + "\n"] + Lined(rest)) == text + "\n" + Concat(Lined(rest));
  }

  /** The printing of `list` after one more listed line. */
  lemma ListedPrint(t: Session, text: string, rest: seq<string>)
    ensures PrintLines(t, [text] + rest) == PrintLines(Println(t, text), rest)
  {
    assert ([text] + rest)[1..] == rest;
  }


  /** `list` returns "" exactly when the program has no non-empty line. */
  lemma {:induction false} ListEmpty(p: Program, k: nat)
    decreases |p| - k
    ensures Listed(p, k) == [] <==> forall n :: k <= n < |p| ==> !HasLine(p, n)
  {
    if k < |p| {
      ListEmpty(p, k + 1);
    }
  }

  /** Every listed entry is `line text` for a line that holds that text. */
  lemma {:induction false} ListedLines(p: Program, k: nat, i: nat)
    requires i < |Listed(p, k)|
    decreases |p| - k
    ensures exists n :: k <= n < |p| && HasLine(p, n) && Listed(p, k)[i] == IntToString(n) + " " + p[n].value
  {
    if HasLine(p, k) && i == 0 {
      assert Listed(p, k)[0] == IntToString(k) + " " + p[k].value;
    } else if HasLine(p, k) {
      ListedLines(p, k + 1, i - 1);
    } else {
      ListedLines(p, k + 1, i);
    }
  }

  /** The line numbers `list` reports, in the order its `for ... in` loop
      visits the array's indices: one per entry of the listing, each a
      line of the array. */
  function ListedNumbers(p: Program, k: nat): (r: seq<nat>)
    decreases |p| - k
    ensures |r| == |Listed(p, k)|
    ensures forall i :: 0 <= i < |r| ==> k <= r[i] < |p|
  {
    if k >= |p| then []
    else if HasLine(p, k) then [k] + ListedNumbers(p, k + 1)
    else ListedNumbers(p, k + 1)
  }

  /** Entry `i` of the listing is line `ListedNumbers(p, k)[i]`, which
      holds a text, followed by that text. */
  lemma {:induction false} ListedEntry(p: Program, k: nat, i: nat)
    requires i < |ListedNumbers(p, k)|
    ensures var n := ListedNumbers(p, k)[i];
      HasLine(p, n) && Listed(p, k)[i] == IntToString(n) + " " + p[n].value
    decreases |p| - k
  {
    if HasLine(p, k) {
      assert ListedNumbers(p, k) == [k] + ListedNumbers(p, k + 1);
      assert Listed(p, k) == [IntToString(k) + " " + p[k].value] + Listed(p, k + 1);
      if i > 0 {
        ListedEntry(p, k + 1, i - 1);
      }
    } else {
      ListedEntry(p, k + 1, i);
    }
  }

  /** The listing is in ascending order of line number. */
  lemma {:induction false} ListedAscending(p: Program, k: nat, i: nat, j: nat)
    requires i < j < |ListedNumbers(p, k)|
    ensures ListedNumbers(p, k)[i] < ListedNumbers(p, k)[j]
    decreases |p| - k
  {
    if HasLine(p, k) && i > 0 {
      ListedAscending(p, k + 1, i - 1, j - 1);
    } else if !HasLine(p, k) {
      ListedAscending(p, k + 1, i, j);
    }
  }

  /** Every line from `k` on that holds a text is listed. */
  lemma {:induction false} ListedNumbersComplete(p: Program, k: nat, n: nat)
    requires k <= n && HasLine(p, n)
    ensures n in ListedNumbers(p, k)
    decreases |p| - k
  {
    if n > k {
      ListedNumbersComplete(p, k + 1, n);
    }
  }

  /** Every line that holds a text appears in the listing. */
  lemma ListedComplete(p: Program, n: nat)
    requires HasLine(p, n)
    ensures IntToString(n) + " " + p[n].value in Listed(p, 0)
  {
    ListedNumbersComplete(p, 0, n);
    var r := ListedNumbers(p, 0);
    var i :| 0 <= i < |r| && r[i] == n;
    ListedEntry(p, 0, i);
  }

  /** `listCmd`: lists the input program, then "End of Program.". */
  function ListInput(s: Session): (r: Reply)
    ensures r.value == Concat(Lined(Listed(Input(s), 0)))
    ensures r.state == Println(PrintLines(s, Listed(Input(s), 0)), "End of Program.").(status := 0)
    ensures Keeps(s, r.state)
  {
    var listed := List(s, Input(s));
    Reply(Println(listed.state.(status := 0), "End of Program."), listed.value)
  }

  /** The closing part of `aliasCmd`: the alias names, or a note that there are none. */
  function ShowAliases(s: Session): (r: Reply)
    ensures r.value == "" && r.state.status == 0
    ensures r.state.output == if s.suppress then s.output
      else if s.aliases == [] then s.output + ["No available aliases yet\n"]
      else s.output + ["Available aliases:\n"] + Lined(AliasNames(s.aliases))
    ensures r.state == s.(status := 0, output := r.state.output)
    ensures Keeps(s, r.state)
  {
    var names := AliasNames(s.aliases);
    var printed := if |names| == 0 then Println(s, "No available aliases yet")
                   else PrintLines(Println(s, "Available aliases:"), names);
    assert "Available aliases:" + "\n" == "Available aliases:\n";
    assert "No available aliases yet" + "\n" == "No available aliases yet\n";
    assert |names| == 0 <==> s.aliases == [];
    Reply(printed.(status := 0), "")
  }

  // ---------------------------------------------------------------------
  // ALIAS

  /** The alias named `name`, deleted; alias names are distinct as long as
      they are only added through `SetAlias`. */
  function AliasDelete(s: Session, name: string, args: seq<string>): (r: Reply)
    ensures r.value == "" && r.state.status == 0
    ensures DistinctNames(s.aliases) && name != "" && AliasLookup(s.aliases, name).Some? ==>
      AliasLookup(r.state.aliases, name) == None
      && forall other :: other != name ==> AliasLookup(r.state.aliases, other) == AliasLookup(s.aliases, other)
    ensures !(name != "" && AliasLookup(s.aliases, name).Some?) ==> r.state.aliases == s.aliases
    ensures r.state == s.(status := 0, aliases := r.state.aliases, suppress := r.state.suppress, output := r.state.output)
    ensures (r.state.suppress ==> s.suppress) && s.output <= r.state.output
    ensures Keeps(s, r.state)
  {
    var s1 := s.(status := 0);
    if name == "" then Reply(Println(s1, "Alias name required."), "")
    else if AliasLookup(s1.aliases, name).None? then
      Reply(Println(s1, "Alias " + ArgText(args, 2) + " does not exist; nothing deleted."), "")
    else
      forall other | DistinctNames(s.aliases) ensures AliasLookup(RemoveAlias(s.aliases, name), name) == None
        && (other != name ==> AliasLookup(RemoveAlias(s.aliases, name), other) == AliasLookup(s.aliases, other))
      {
        RemoveAliasLookup(s.aliases, name, other);
      }
      RemoveAliasBelow(s.aliases, name, |s.programs|);
      var s2 := SetLocalStorage(s1.(aliases := RemoveAlias(s1.aliases, name)));
      Reply(Println(s2, "Alias " + name + " deleted."), "")
  }

  /** The program saved as `name`, listed. */
  function AliasList(s: Session, name: string, args: seq<string>): (r: Reply)
    ensures name != "" && AliasLookup(s.aliases, name).Some? ==>
      r.value == Concat(Lined(Listed(ProgramAt(s, AliasLookup(s.aliases, name).value), 0)))
    ensures r.state.status == 0 && r.state.aliases == s.aliases && r.state.programs == s.programs
    ensures r.state == s.(status := 0, output := r.state.output) && s.output <= r.state.output
    ensures Keeps(s, r.state)
  {
    var s1 := s.(status := 0);
    if name == "" then Reply(Println(s1, "Alias name required."), "")
    else match AliasLookup(s1.aliases, name)
      case None => Reply(Println(s1, "Alias " + ArgText(args, 2) + " does not exist."), "")
      case Some(pid) =>
        var listed := List(s1, ProgramAt(s1, pid));
        Reply(Println(listed.state, "End of Program."), listed.value)
  }

  /** The array that ALIAS recall makes the input, as written: looked up
      by the raw third word, so `None` (`undefined`) whenever that word
      differs from the evaluated name. */
  function RecallTargetAsWritten(aliases: seq<AliasEntry>, args: seq<string>): Option<nat>
  {
    if |args| >= 3 then AliasLookup(aliases, Upper(args[2])) else None
  }

  /** `ALIAS -R $P` with `$P` bound to a saved alias: the evaluated name
      finds the alias, but the raw word `$P` does not, so as written the
      input would become `undefined`. */
  lemma RecallFinding()
    ensures var aliases := [AliasEntry("GAME", 0)];
      AliasLookup(aliases, Upper("game")) == Some(0)
      && RecallTargetAsWritten(aliases, ["ALIAS", "-R", "$P"]) == None
  {
    var aliases := [AliasEntry("GAME", 0)];
    assert Upper("game") == "GAME";
    assert Upper("$P") == "$P";
    assert AliasLookup(aliases, "$P") == AliasLookup([], "$P");
  }

  /** Where the raw third word upper-cases to the evaluated name, the lookup
      as written and the lookup by that name agree: the two differ only
      when evaluation changed the word. */
  lemma RecallAgrees(aliases: seq<AliasEntry>, name: string, args: seq<string>)
    requires |args| >= 3 && Upper(args[2]) == name
    ensures RecallTargetAsWritten(aliases, args) == AliasLookup(aliases, name)
  {
  }

  /** The saved program `name`, made the input again. The input becomes
      the array that the evaluated name refers to, the array the check
      before it found; see `RecallFinding` for the lookup as written. */
  function AliasRecall(s: Session, name: string, args: seq<string>): (r: Reply)
    ensures r.value == "" && r.state.status == 0 && r.state.aliases == s.aliases && r.state.programs == s.programs
    ensures name != "" && AliasLookup(s.aliases, name).Some? ==> r.state.input == AliasLookup(s.aliases, name).value
    ensures !(name != "" && AliasLookup(s.aliases, name).Some?) ==> r.state.input == s.input
    ensures r.state == s.(status := 0, input := r.state.input, suppress := r.state.suppress, output := r.state.output)
    ensures (r.state.suppress ==> s.suppress) && s.output <= r.state.output
    ensures Keeps(s, r.state)
  {
    var s1 := s.(status := 0);
    if name == "" then Reply(Println(s1, "Alias name required."), "")
    else match AliasLookup(s1.aliases, name)
      case None => Reply(Println(s1, "Alias " + ArgText(args, 2) + " does not exist; nothing recalled."), "")
      case Some(pid) =>
        AliasLookupBelow(s.aliases, name, |s.programs|);
        var s2 := SetLocalStorage(s1.(input := pid));
        Reply(Println(s2, "Alias " + name + " recalled."), "")
  }

  // ---------------------------------------------------------------------
  // extractVarFromArgs and evalExpr's modes

  /** What `extractVarFromArgs` finds: a plain word (`undefined` for no
      words), a quoted string, a variable's value, or a command in parentheses. */
  datatype Expression =
    | Plain(word: Option<string>)
    | Quoted(text: string)
    | Variable(name: string, bound: string)
    | Command(text: string)

  /** Whether an argument starts an expression, a string or a variable. */
  predicate IsSpecial(arg: string)
  {
    |arg| > 0 && (arg[0] == '(' || arg[0] == '"' || arg[0] == '$')
  }

  /** The first argument from `i` on that starts with `(`, `"` or `$`. */
  function FirstSpecial(args: seq<string>, i: nat): (k: nat)
    decreases |args| - i
    ensures i <= k <= |args| || (k == i && i > |args|)
    ensures k < |args| ==> IsSpecial(args[k])
    ensures forall j :: i <= j < k && j < |args| ==> !IsSpecial(args[j])
  {
    if i >= |args| || IsSpecial(args[i]) then i else FirstSpecial(args, i + 1)
  }

  /** Whether argument `i` closes a group opened at `start`: it ends with
      the closing character, and it is not the lone opening character. */
  predicate Closes(args: seq<string>, start: nat, i: nat, close: char)
    requires i < |args|
  {
    |args[i]| > 0 && args[i][|args[i]| - 1] == close && !(i == start && |args[i]| == 1)
  }

  /** The first argument from `i` on that closes the group opened at `start`. */
  function Closing(args: seq<string>, start: nat, i: nat, close: char): (r: Option<nat>)
    decreases |args| - i
    ensures r.Some? ==> i <= r.value < |args| && Closes(args, start, r.value, close)
    ensures r.Some? ==> forall j :: i <= j < r.value ==> !Closes(args, start, j, close)
    ensures r.None? ==> forall j :: i <= j < |args| ==> !Closes(args, start, j, close)
  {
    if i >= |args| then None
    else if Closes(args, start, i, close) then Some(i)
    else Closing(args, start, i + 1, close)
  }

  /** `value.slice(1, value.length - 1)`. */
  function Unwrap(value: string): string
  {
    if |value| < 2 then "" else value[1..|value| - 1]
  }

  /** `extractVarFromArgs(terminal, args)`: classifies the words by the
      first one that starts with `(`, `"` or `$`. */
  function ExtractVarFromArgs(vars: map<string, string>, args: seq<string>): Result<Expression>
  {
    var k := FirstSpecial(args, 0);
    if k >= |args| then Ok(Plain(if |args| > 0 then Some(args[|args| - 1]) else None))
    else if args[k][0] == '$' then
      var name := args[k][1..];
      if name !in vars then Err("Reference error; variable " + name + " does not exist.")
      else Ok(Variable(name, vars[name]))
    else
      var close := if args[k][0] == '(' then ')' else '"';
      match Closing(args, k, k, close)
      case None =>
        Err(if close == ')' then "Syntax error; missing closing parenthesis."
            else "Syntax error; missing closing double quote.")
      case Some(e) =>
        var value := Unwrap(Join(args[k..e + 1], " "));
        Ok(if close == ')' then Command(value) else Quoted(value))
  }

  /** The two loops of `extractVarFromArgs`, as the source writes them,
      proved to compute `ExtractVarFromArgs`. */
  method ExtractVarLoop(vars: map<string, string>, args: seq<string>) returns (r: Result<Expression>)
    ensures r == ExtractVarFromArgs(vars, args)
  {
    var i := 0;
    while i < |args| && !IsSpecial(args[i])
      invariant 0 <= i <= |args|
      invariant FirstSpecial(args, 0) == FirstSpecial(args, i)
    {
      i := i + 1;
    }
    if i == |args| {
      return Ok(Plain(if |args| > 0 then Some(args[|args| - 1]) else None));
    }
    if args[i][0] == '$' {
      var name := args[i][1..];
      if name !in vars {
        return Err("Reference error; variable " + name + " does not exist.");
      }
      return Ok(Variable(name, vars[name]));
    }
    var close := if args[i][0] == '(' then ')' else '"';
    var start := i;
    var value := "";
    var valid := false;
    while i < |args|
      invariant start <= i <= |args|
      invariant Closing(args, start, start, close) == Closing(args, start, i, close)
      invariant i > start ==> value == Join(args[start..i], " ") + " "
      invariant i == start ==> value == ""
    {
      if i == start {
        assert args[start..i + 1] == [args[i]];
      } else {
        JoinAppend(args[start..i], [args[i]], " ");
        assert args[start..i] + [args[i]] == args[start..i + 1];
      }
      value := value + args[i];
      assert value == Join(args[start..i + 1], " ");
      if Closes(args, start, i, close) {
        valid := true;
        break;
      }
      value := value + " ";
      i := i + 1;
    }
    if !valid {
      return Err(if close == ')' then "Syntax error; missing closing parenthesis."
                 else "Syntax error; missing closing double quote.");
    }
    r := Ok(if close == ')' then Command(Unwrap(value)) else Quoted(Unwrap(value)));
  }

  // ---------------------------------------------------------------------
  // IF and FOR syntax

  /** The position of the last word that upper-cases to `w` (`for ... in`
      keeps overwriting it), or 0. */
  function LastWord(args: seq<string>, w: string): (k: nat)
    ensures k == 0 || (k < |args| && Upper(args[k]) == w)
    ensures forall j :: k < j < |args| ==> Upper(args[j]) != w
  {
    if |args| == 0 then 0
    else if Upper(args[|args| - 1]) == w then |args| - 1
    else LastWord(args[..|args| - 1], w)
  }

  /** The scan of `ifCmd` and `forCmd` for two keywords, as the source
      writes it, proved to compute `LastWord` for each. */
  method KeywordPositions(args: seq<string>, first: string, second: string) returns (p: nat, q: nat)
    ensures p == LastWord(args, first) && q == LastWord(args, second)
  {
    p, q := 0, 0;
    var i := 0;
    while i < |args|
      invariant 0 <= i <= |args|
      invariant p == LastWord(args[..i], first) && q == LastWord(args[..i], second)
    {
      assert args[..i + 1][..i] == args[..i];
      if Upper(args[i]) == first { p := i; }
      if Upper(args[i]) == second { q := i; }
      i := i + 1;
    }
    assert args[..i] == args;
  }

  /** The syntax errors `ifCmd` reports before evaluating anything. */
  function IfSyntax(args: seq<string>): (r: Option<string>)
    ensures var t, e := LastWord(args, "THEN"), LastWord(args, "ELSE");
      r.None? <==> 2 <= t && t + 1 < |args| && e + 1 != |args|
  {
    var thenPos, elsePos := LastWord(args, "THEN"), LastWord(args, "ELSE");
    if thenPos == 0 then Some("Syntax error; THEN argument is required for IF statement.")
    else if thenPos == 1 then Some("Syntax error; missing conditional after IF.")
    else if thenPos == |args| - 1 then Some("Syntax error; missing expression after THEN argument.")
    else if elsePos == |args| - 1 then Some("Syntax error; missing expression after ELSE argument.")
    else None
  }

  /** `args.slice(a, b)` for `0 <= a` and `b <= args.length`. */
  function Slice(args: seq<string>, a: nat, b: nat): seq<string>
    requires b <= |args|
  {
    if a < b then args[a..b] else []
  }

  /** `result === "TRUE" || result > 0`: IF's truth test. */
  predicate IsTrue(result: Option<string>)
  {
    result == Some("TRUE") || (result.Some? && IsPositiveNumber(result.value))
  }

  /** A number written out is true exactly when it is positive. */
  lemma IsTrueNumber(n: int)
    ensures IsTrue(Some(IntToString(n))) <==> n > 0
  {
    var s := IntToString(n);
    var m: nat := if n < 0 then -n else n;
    var d := NatToString(m);
    IntToStringIsNumeric(n);
    IntToStringIsIntText(n);
    TrimStartIntText(s);
    TrimEndIntText(s);
    NatToStringDigits(m);
    assert Trim(s) == s;
    assert s != "TRUE" by {
      if n < 0 { assert s[0] == '-'; } else { assert IsDigit(s[0]); }
    }
    assert !IsNonDecimalLiteral(s) by {
      if |s| > 2 && s[0] == '0' {
        assert n >= 0 && d == s;
        NatToStringLeadingZero(m);
      }
    }
    if n < 0 {
      assert s[0] == '-';
    } else {
      assert StripSign(s) == d by { assert IsDigit(s[0]); }
      MantissaDigits(d, m);
    }
  }

  /** Only 0 is written with a leading zero. */
  lemma NatToStringLeadingZero(m: nat)
    requires |NatToString(m)| > 1
    ensures NatToString(m)[0] != '0'
  {
    if m >= 10 {
      if m / 10 >= 10 {
        NatToStringLeadingZero(m / 10);
      } else {
        assert NatToString(m / 10) == [DigitChar(m / 10)];
      }
    }
  }

  /** A decimal text has a non-zero digit exactly when its value is positive. */
  lemma {:induction false} MantissaDigits(d: string, m: nat)
    requires d == NatToString(m)
    decreases m
    ensures MantissaNonZero(d) <==> m > 0
  {
    NatToStringDigits(m);
    if m < 10 {
      assert d == [DigitChar(m)];
      assert MantissaNonZero(d[1..]) == false by { assert d[1..] == []; }
    } else {
      NatToStringDigits(m / 10);
      MantissaDigits(NatToString(m / 10), m / 10);
      MantissaAppend(NatToString(m / 10), DigitChar(m % 10));
      NatToStringLeadingZero(m);
      NatToStringDigits(m / 10);
    }
  }

  /** Appending a digit keeps a non-zero mantissa non-zero. */
  lemma {:induction false} MantissaAppend(d: string, c: char)
    requires forall i :: 0 <= i < |d| ==> IsDigit(d[i])
    requires IsDigit(c)
    ensures MantissaNonZero(d) ==> MantissaNonZero(d + [c])
    ensures d != [] && '1' <= d[0] <= '9' ==> MantissaNonZero(d + [c])
  {
    if d != [] {
      assert (d + [c])[0] == d[0];
      assert (d + [c])[1..] == d[1..] + [c];
      assert d != "Infinity" by { assert IsDigit(d[0]); }
      assert d + [c] != "Infinity" by { assert IsDigit(d[0]); }
      MantissaAppend(d[1..], c);
    }
  }

  /** The syntax errors `forCmd` reports before evaluating anything. */
  function ForSyntax(args: seq<string>): (r: Option<string>)
    ensures r.None? <==> LastWord(args, "IN") != 0 && LastWord(args, "DO") != 0
  {
    if LastWord(args, "IN") == 0 then Some("Syntax error; IN argument is required with FOR statement.")
    else if LastWord(args, "DO") == 0 then Some("Syntax error; DO argument is required with FOR statement.")
    else None
  }

  // ---------------------------------------------------------------------
  // The runner's protocol

  /** A program line that `run` refuses to execute. */
  predicate IsControlLine(text: string)
  {
    var u := Upper(text);
    StartsWith(u, "RUN") || StartsWith(u, "MOVE") || StartsWith(u, "DELETE") || StartsWith(u, "SAVE")
  }

  /** `parseInt(control.split(":")[1])` for a reply that starts with "GOTO:". */
  function GotoTarget(control: string): Option<int>
    requires StartsWith(control, "GOTO:")
  {
    ParseInt(Split(control[5..], ':')[0])
  }

  /** A GOTO reply names the line its argument names. */
  lemma GotoTargetOfLine(s: Session, n: nat)
    ensures StartsWith(Goto(s, ["GOTO", IntToString(n)]).value, "GOTO:")
    ensures GotoTarget(Goto(s, ["GOTO", IntToString(n)]).value) == Some(n)
  {
    var t := IntToString(n);
    var v := "GOTO:" + t;
    assert ArgText(["GOTO", t], 1) == t;
    assert v[5..] == t;
    IntToStringIsIntText(n);
    NatToStringDigits(n);
    assert ':' !in t by {
      forall i | 0 <= i < |t| ensures t[i] != ':' { assert IsDigit(t[i]); }
    }
    ParseIntToString(n);
  }

  /** `processArray`'s result for a callback that returns nothing: the
      `undefined` results joined by line breaks, that is the breaks alone. */
  function ForResult(count: nat): (r: string)
    ensures |r| == (if count == 0 then 0 else count - 1)
    ensures forall i :: 0 <= i < |r| ==> r[i] == '\n'
  {
    Repeat('\n', count - 1)
  }
}
