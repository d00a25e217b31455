# chrome-term in Dafny

chrome-term is a browser-extension terminal. It has a character-grid
display, a small BASIC-like command language with numbered program lines,
variables, aliases, IF, FOR and GOTO, a snake game and a listing of the
browser's bookmarks. This project models the core of that system in Dafny
and proves properties of the model:

- `wrappers.dfy` holds `Option` and `Result`. `js_string.dfy` (module
  `JsString`) holds the JavaScript string and number operations the source
  relies on: `toUpperCase`, `indexOf`, `replace` with a string pattern,
  `split`, `join`, `parseInt`, `isNaN`, `String(n)` and `<` on strings. It
  also holds the padding helpers of js/commands.js.
- `tokenizer.dfy` holds the tokenizer of js/commands.js. It extracts
  variables, quoted strings and parenthesised commands and replaces each by
  a placeholder.
- `flags.dfy` holds the flag parser and `tokenizeCommandLineInput`.
- `session.dfy` holds the terminal's state as a value: the command
  registry, the program arrays (shared by reference, so kept in one table),
  aliases, variables, status, printed output and the `suppressOutput`,
  `stopPrinting` and `executing` flags. It also holds `registerCmd`,
  `sortObject` and `cmdErr`.
- `commands.dfy` holds the commands once their arguments are evaluated
  (ASSIGN, UNASSIGN, PRINT, EQUALS/LT/GT, GOTO, EXIT, DELETE, MOVE, NEW, SAVE,
  LIST, the parts of ALIAS) and the syntax checks of IF and FOR.
- `interpreter.dfy` holds `processCmd`, `evalTokens`, `evalExpr`, `run`,
  `ifCmd`, `forCmd`, `processArray` and `aliasCmd` as mutually recursive
  functions with a fuel bound. It proves the loops of the source against
  them.
- `screen.dfy` holds the display grid, the cursor and what `print`,
  `insertNewLine`, `incrementCharPos`, `scrollTerminalContents` and
  `backspace` do to them.
- `terminal.dfy` holds the `ChromeTerminal` class. Its grid is an array of
  rows that its methods update in place.
- `snake.dfy` holds the snake game: argument validation, the key handler,
  movement, the shift of the body, apple placement, eating and collision.
  The game state is the `Game` class.
- `bookmarks.dfy` holds `ChromeCommands`: the flattening of the bookmark
  tree and `ls`.

Throughout, `None` stands for JavaScript's `undefined` (or `NaN` for a
number). A TypeError that the source would throw, such as a property read
on `undefined`, is a `Raised`/`Thrown` outcome that propagates to the
nearest `catch`.

## Model

| member | source | states |
|---|---|---|
| JsString.Spaces | js/commands.js:1494-1502 | the loop builds a text of `num` copies of the character, and the empty text for a negative count |
| JsString.PadWithSpaces | js/commands.js:1462-1472 | a short text is padded with spaces to exactly `totalLen`, its own characters first; a long one is cut and ends in "..." (or is cut plainly when it is at most 5 long) |
| JsString.MaxLen | js/commands.js:1474-1482 | a text shorter than the maximum is returned as it is; a longer one is cut to `max` characters, the last being "-" when the text is longer than 3 |
| JsString.PadWithZeros | js/commands.js:1484-1492 | a short text is right-aligned in zeros to exactly `totalLen`; a long one is cut and ends in "-" |
| JsString.ParseIntToString | js/commands.js:728-729 | `parseInt` of a written-out integer gives the integer back, so line numbers survive the round trip through text |
| JsString.JoinSplit | js/commands.js:1530-1541 | joining the parts of a split with the separator gives back the text |
| JsString.SplitJoin | js/commands.js:1530-1541 | splitting a join of separator-free parts gives back the parts |
| JsString.ReplaceFirstSpec | js/commands.js:1093-1109 | `replace` with a string pattern replaces the first occurrence only, and nothing when there is none |
| JsString.LexLessTotal | js/commands.js:552-590 | string `<` is total and asymmetric: of two different texts exactly one is below the other |
| JsString.LexLessTransitive | js/commands.js:552-590 | string `<` is transitive |
| Tokenizer.ExtractVarsTokens | js/commands.js:1132-1148 | `ExtractVars` (`extractVars`): every variable token is numbered by its position and names a run of word characters |
| Tokenizer.ExtractQuotesTokens | js/commands.js:1093-1109 | `ExtractQuotes` (`extractQuotes`): every quote token is numbered by its position and its text holds no double quote |
| Tokenizer.VarMatchesSpec | js/commands.js:1132-1148 | every match of the variable pattern is `$` followed by word characters |
| Tokenizer.QuoteMatchesSpec | js/commands.js:1093-1109 | every match of the quote pattern is a quoted text on one line without an inner quote |
| Tokenizer.ParenMatchesSpec | js/commands.js:1111-1130 | every match of the innermost-parenthesis pattern is `(`, text without parentheses, `)` |
| Tokenizer.ParenRoundShrinks | js/commands.js:1111-1130 | each round of `extractParens` removes at least one `(`, so its loop ends |
| Tokenizer.ExtractParensDone | js/commands.js:1111-1130 | when `extractParens` stops, no parenthesised group is left in the text |
| Tokenizer.ExtractParensTokens | js/commands.js:1111-1130 | `ExtractParens` (`extractParens`): the paren tokens are numbered consecutively from the first index, innermost groups first |
| Tokenizer.ReplaceEachLoop | js/commands.js:1093-1148 | the loop that replaces each match by its placeholder and records its token computes `Extract` |
| Tokenizer.ExtractParensLoop | js/commands.js:1111-1130 | the `while` loop of `extractParens` computes the round-by-round definition |
| Tokenizer.TokenizeOk | js/commands.js:1150-1180 | `Tokenize` (`tokenizeString`): a line that tokenizes leaves no quote and no parenthesis in its text, and its arguments are the text split on spaces |
| Tokenizer.TokenizePlain | js/commands.js:1150-1180 | a line without `$`, quotes or parentheses tokenizes to itself with no tokens |
| Tokenizer.TokenizeStrayClose | js/commands.js:1150-1180 | a `)` with no `(` is reported as "Unmatched closing parenthesis." |
| Flags.ParseFlagsLoop | js/commands.js:1280-1304 | the loop over the characters of a flag word computes `ParseFlags` |
| Flags.ParseFlagsSpec | js/commands.js:1280-1304 | `ParseFlags` (`parseFlags`): every modifier gets a value: off when the word does not mention it, its argument (the next word) when it takes one, on otherwise; an argument is consumed exactly when some mentioned flag takes one |
| Flags.MergeFlagsSpec | js/commands.js:1306-1313 | `MergeFlags` (`mergeFlags`): merging keeps every flag of the first map and adds or overrides with the flags of the second that are set |
| Flags.ParseCommandLineLoop | js/commands.js:1214-1269 | the loop of `tokenizeCommandLineInput` computes `ParseCommandLine` |
| Flags.ParseCommandLineAction | js/commands.js:1214-1278 | `ParseCommandLine` (`tokenizeCommandLineInput`): the action is the upper-cased second word exactly when it is one of the possible actions; every flag found was mentioned by a flag word; without flag words there are no flags and the name starts right after the command or action |
| Flags.ScanFlagsSets | js/commands.js:1251-1262 | with no letter taking an argument, a letter mentioned by any flag cluster scanned sets it to `true`, and a `true` letter stays so |
| Flags.ParseCommandLineFlags | js/commands.js:1214-1278 | the converse of `ParseCommandLineAction` for the interpreter's parse: a letter mentioned by a flag cluster after the action is set to `true` |
| Session.Initial | js/terminal.js:30-95 | the initial state is well formed: the input is an existing program array |
| Session.SetLine | js/terminal.js:398-402 | storing a line changes that slot only, growing the array with holes when it lies past the end |
| Session.DeleteLine | js/commands.js:1040-1066 | `delete program[n]` leaves a hole at `n`, keeps the length and every other slot |
| Session.SetAliasLookup | js/commands.js:758-768 | after setting an alias, the name finds the program and every other name finds what it found before |
| Session.RemoveAliasLookup | js/commands.js:780-783 | after deleting an alias, the name finds nothing and every other name finds what it found before |
| Session.PutSpec | js/terminal.js:416-419 | assigning a registry key binds the name to the command and keeps every other binding and distinct keys |
| Session.SortObjectSpec | js/terminal.js:460-468 | `SortObject` (`sortObject`) sorts the keys and keeps every binding and the number of keys |
| Session.RegisterCmdSpec | js/terminal.js:416-419 | after `RegisterCmd` (`registerCmd`) the registry is sorted, the name finds the command and every other name finds what it found before |
| Session.RegisterAllSpec | js/commands.js:13-232 | after a series of registrations the registry is sorted with distinct keys, and the last registration of each name wins |
| Session.RegisterAllKeeps | js/commands.js:13-232 | a name that none of the registrations uses keeps its binding |
| Session.CmdErr | js/commands.js:1086-1091 | the status becomes the code, or 1 when the code is 0, so never 0; the message is printed unless output is suppressed; the answer is "ERROR"; nothing else changes |
| Session.Printed | js/terminal.js:184-186 | printing appends exactly the text to the output log unless output is suppressed, and changes nothing else |
| Session.Println | js/terminal.js:222-225 | `println` appends exactly the text and a line break to the log unless output is suppressed, and changes nothing else |
| Session.SetLocalStorage | js/terminal.js:434-438 | saving turns `suppressOutput` off and changes nothing else |
| Commands.Fail | js/commands.js:1086-1091 | a command error answers "ERROR" with status 1 and prints the message with a line break unless output is suppressed |
| Commands.RemoveLine | js/commands.js:1040-1066 | `delete program[n]` empties slot `n` when it is an array index, and changes nothing else |
| Commands.WriteLine | js/commands.js:1010-1038 | `program[n] = v` stores at slot `n` when it is an array index, and changes nothing else |
| Commands.WithInput | js/commands.js:1010-1066 | replacing the input program changes no other program array, alias or input index |
| Commands.Assign | js/commands.js:234-261 | a well-formed ASSIGN binds the variable to the value, answers the value with status 0 and changes nothing else; otherwise it answers "ERROR" with status 1 and no binding changes |
| Commands.Unassign | js/commands.js:263-282 | a bound variable is removed with status 0; for an unbound one the state is exactly the old one with the message and a line break printed (`Println`), the status and the variables untouched |
| Commands.AssignThenUnassign | js/commands.js:234-282 | ASSIGN then UNASSIGN of a name leaves every other binding as it was and none for the name |
| Commands.PrintWords | js/commands.js:674-686 | PRINT answers the words after it joined by single spaces; the output log grows by exactly that answer and a line break unless output is suppressed; the status becomes 0 and no other part of the state changes |
| Commands.PrintWordsSplits | js/commands.js:674-686 | what PRINT answers for words without spaces splits back on spaces into exactly those words |
| Commands.Compare | js/commands.js:532-590 | with two arguments the answer is "TRUE" exactly when the comparison holds and "FALSE" exactly when it does not, and it is printed; otherwise it is the syntax error for that command |
| Commands.Trichotomy | js/commands.js:532-590 | of EQUALS, LT and GT on the same two texts exactly one answers "TRUE" |
| Commands.Goto | js/commands.js:850-859 | GOTO changes no part of the state, the status included, and answers a reply starting with "GOTO:" from which `run`'s `parseInt(control.split(":")[1])` reads back the argument (when it holds no colon) |
| Commands.Delete | js/commands.js:1040-1066 | a numeric, non-negative line number removes that line of the input program only and answers the number and the old text, printed; the variables, aliases, other arrays and everything but status 0 and the log are unchanged; otherwise it is an error and no program changes |
| Commands.Move | js/commands.js:1010-1038 | with two valid line numbers the input program becomes `Moved`, no other array changes, and the answer is the target number and the old text, printed; the variables, aliases and everything but status 0 and the log are unchanged; otherwise it is an error and no program changes |
| Commands.Moved | js/commands.js:1030-1032 | after a move the target holds the source's old text, the source is a hole unless it is the target, and every other line is as it was |
| Commands.New | js/commands.js:842-848 | NEW makes the input a fresh empty array; every existing array, aliases included, is untouched, the variables are unchanged, status 0, "Stored program cleared." is printed, and the state stays well formed |
| Commands.Save | js/commands.js:758-768 | SAVE with a free name makes the upper-cased name refer to the input array itself and keeps every other alias; the programs, the input and the variables are unchanged; a built-in name or a wrong argument count is the matching error |
| Commands.SetAliasValid | js/commands.js:763 | pointing an alias at the input keeps every reference valid |
| Commands.SaveSharesProgram | js/commands.js:758-768 | after SAVE, a line stored into the input is seen through the alias as well: both names refer to one array |
| Commands.StoreNumbered | js/terminal.js:398-402 | a numbered line stores the rest of the words at that line of the input and answers them; no other line, no other array, no alias, no variable and not the status changes |
| Commands.NotRecognized | js/terminal.js:405-407 | an unknown word is answered with the "is not recognized" message; the log grows by exactly that message and a line break unless output is suppressed, and nothing else changes, the status (reset to 0 by `processCmd`) included |
| Commands.Listed | js/commands.js:695-704 | the listing: at most one entry per remaining slot (see `ListedEntry`, `ListedAscending` and `ListedComplete`) |
| Commands.List | js/commands.js:695-704 | `list` answers the listed lines each followed by a line break and prints each of them |
| Commands.ListLoop | js/commands.js:695-704 | the `for ... in` loop of `list` computes `List` |
| Commands.ListEmpty | js/commands.js:695-704 | the listing is empty exactly when no slot holds a non-empty text |
| Commands.ListedLines | js/commands.js:695-704 | every listed entry is a line number followed by the text stored there |
| Commands.ListedNumbers | js/commands.js:697-703 | the line numbers `list` visits with a text: one per listed entry, each a slot of the array |
| Commands.ListedEntry | js/commands.js:697-703 | entry i of the listing is its line number, which holds a text, followed by that text |
| Commands.ListedAscending | js/commands.js:697-703 | the listing is in strictly ascending order of line number |
| Commands.ListedNumbersComplete | js/commands.js:697-703 | every line from the start slot on that holds a text is among the listed numbers |
| Commands.ListedComplete | js/commands.js:697-703 | every line that holds a text appears in the listing as its number followed by its text |
| Commands.ListInput | js/commands.js:688-693 | LIST lists the input program, prints "End of Program." and sets status 0 |
| Commands.ShowAliases | js/commands.js:828-839 | without a matching subcommand ALIAS prints "No available aliases yet", or "Available aliases:" followed by each name on its own line, answers "" with status 0 and changes nothing else |
| Commands.AliasDelete | js/commands.js:776-787 | deleting an existing alias removes that name only; a missing name leaves the aliases unchanged; the status becomes 0, messages are only appended to the log, and nothing else changes |
| Commands.AliasList | js/commands.js:790-802 | listing an existing alias answers the listing of the array it refers to, with status 0; only the status and the printed log change |
| Commands.RecallAgrees | js/commands.js:805-813 | when the raw third word upper-cases to the evaluated name, the lookup as written at line 813 finds the same array as the lookup by the evaluated name |
| Commands.RecallFinding | js/commands.js:813 | for a name given through a variable, the raw third word finds no alias although the evaluated name does |
| Commands.AliasRecall | js/commands.js:805-817 | recalling an existing alias makes the input the array the evaluated name refers to (the intended lookup; line 813 as written is `RecallFinding`); otherwise the input stays; only the input, the status and the log change |
| Commands.FirstSpecial | js/commands.js:1317-1322 | the first word from `i` on that starts with `(`, a quote or `$`, and none before it |
| Commands.Closing | js/commands.js:1333-1348 | the first word that closes the group, and none before it; `None` exactly when no word closes it |
| Commands.ExtractVarLoop | js/commands.js:1315-1363 | the two loops of `extractVarFromArgs` compute `ExtractVarFromArgs`, whose own properties are `FirstSpecial` and `Closing` |
| Commands.LastWord | js/commands.js:287-290 | the position of the last word that upper-cases to the keyword, 0 when there is none |
| Commands.KeywordPositions | js/commands.js:287-290 | the scan of IF and FOR finds the last position of each keyword |
| Commands.IfSyntax | js/commands.js:292-299 | IF passes its syntax checks exactly when THEN is after the condition and before the last word, and ELSE is not the last word |
| Commands.IsTrueNumber | js/commands.js:305 | a written-out number counts as true for IF exactly when it is positive |
| Commands.ForSyntax | js/commands.js:332-335 | FOR passes its syntax checks exactly when both IN and DO occur after the first word |
| Commands.GotoTargetOfLine | js/commands.js:728-729 | the reply of `GOTO n` is parsed back by `run` as line `n` |
| Commands.ForResult | js/commands.js:1530-1541 | with a callback that returns nothing the result is one line break fewer than there are values, and nothing else |
| Interpreter.Stop | js/commands.js:713-756 | a run stopped by an error answers "ERROR", clears `executing`, leaves a non-zero status and keeps the registry |
| Interpreter.ProcessCmd | js/terminal.js:379-407 | whatever the command does, when it finishes the registry is as it was and a well-formed state stays well formed |
| Interpreter.Dispatch | js/terminal.js:388-390 | the callback of a registered command keeps the registry and a well-formed state |
| Interpreter.Evaluated | js/commands.js:674-686 | a command that evaluates its line first keeps the registry and a well-formed state, on the error path as well |
| Interpreter.Apply | js/commands.js:234-282 | every evaluating command keeps the registry and a well-formed state once its arguments are known |
| Interpreter.EvalLine | js/commands.js:1150-1212 | tokenizing and evaluating a line keeps the registry and a well-formed state |
| Interpreter.EvalArgs | js/commands.js:1182-1212 | `evalTokens` returns as many words as it was given, leaves the words before its start alone, and keeps the registry and a well-formed state |
| Interpreter.EvalArg | js/commands.js:1184-1207 | evaluating one word keeps the registry and a well-formed state |
| Interpreter.EvalParen | js/commands.js:1197-1205 | a parenthesised command that returns a value has left status 0 and output no longer suppressed |
| Interpreter.EvalExpr | js/commands.js:1365-1388 | a plain value or variable is returned as it is with the state untouched; a command that returns leaves status 0 and output no longer suppressed |
| Interpreter.IfCmd | js/commands.js:284-322 | IF that returns has status 0 unless it answers "ERROR"; the registry and a well-formed state are kept |
| Interpreter.Branch | js/commands.js:302-321 | the chosen branch of IF returns with status 0 unless it answers "ERROR" |
| Interpreter.ForCmd | js/commands.js:324-364 | FOR that returns has cleared `executing` unless it answers "ERROR"; the registry and a well-formed state are kept |
| Interpreter.ForLoop | js/commands.js:346-363 | FOR after its words are evaluated: a return clears `executing` unless the answer is "ERROR" |
| Interpreter.ForEach | js/commands.js:352-360 | binding and dispatching each value keeps the registry and a well-formed state |
| Interpreter.AliasCmd | js/commands.js:770-840 | ALIAS that returns leaves status 0, and keeps the registry and a well-formed state |
| Interpreter.Run | js/commands.js:713-756 | a run that returns has cleared `executing`, and keeps the registry and a well-formed state |
| Interpreter.RunFrom | js/commands.js:716-752 | the loop of `run` from a line on, when it returns, has cleared `executing` |
| Interpreter.Proceed | js/commands.js:728-742 | the GOTO protocol, when it returns, has cleared `executing` |
| Interpreter.AfterLine | js/commands.js:743-751 | the end of an iteration of `run`, when it returns, has cleared `executing` |
| Interpreter.Saved | js/commands.js:820-825 | RUN and ALIAS answer "" with status 0 after a run that returns, and pass on a throw |
| Interpreter.RunLoop | js/commands.js:713-756 | the `for` loop of `run` computes `Run` |
| Interpreter.RunLine | js/commands.js:716-752 | after a program line: an invalid GOTO target and the hundredth jump end the run with their errors; EXIT or `stopPrinting` end it quietly; a non-zero status ends it with "Execution error."; otherwise it goes on at the next line or the GOTO target |
| Interpreter.ExitEndsRun | js/commands.js:743-747 | a program line EXIT, in any case, ends the run quietly: the answer is "", the status 0, and `executing` and `stopPrinting` are cleared |
| Interpreter.ProceedOutcome | js/commands.js:728-752 | the same protocol once the reply of a line is known |
| Interpreter.RunOverHoles | js/commands.js:716-718 | a run over holes and empty lines prints nothing and returns "" |
| Interpreter.EvalTokensLoop | js/commands.js:1182-1212 | the outer loop of `evalTokens` computes `EvalArgs` |
| Interpreter.EvalArgLoop | js/commands.js:1184-1207 | the inner loop of `evalTokens` over the tokens computes `EvalArg` |
| Interpreter.EvalArgsUnmarked | js/commands.js:1182-1212 | a line without placeholders comes back as it is |
| Interpreter.VariableToken | js/commands.js:1188-1193 | an unknown variable throws the reference error; a known one replaces its placeholder by its value |
| Interpreter.WholeWordReplaced | js/commands.js:1194-1205 | a quoted string or a command replaces the whole word holding its placeholder, whatever else the word held |
| Interpreter.ForEachLoop | js/commands.js:1530-1541 | the loop of `processArray` with FOR's callback computes `ForEach` |
| Interpreter.ForEachBindsLast | js/commands.js:352-360 | FOR leaves the variable bound to the last value |
| Interpreter.ResolutionOrder | js/terminal.js:379-407 | a registered command shadows an alias, an alias shadows a line number, and any other word is reported as not recognized |
| Interpreter.IfChooses | js/commands.js:284-322 | IF on plain words answers the THEN word when the condition is "TRUE" or a positive number, and the ELSE word (or "") otherwise |
| Screen.Blank | js/terminal.js:30-95 | a fresh grid has one empty row per screen row |
| Screen.Scrolled | js/terminal.js:124-133 | every row moves up by one and the last row becomes empty |
| Screen.Write | js/terminal.js:200-213 | writing a cell changes that cell only |
| Screen.Paint | js/terminal.js:184-220 | printing keeps the cursor inside the screen |
| Screen.PaintAppend | js/terminal.js:184-220 | printing two texts one after the other is printing their concatenation |
| Screen.PrintlnColumn | js/terminal.js:222-225 | after `println` the cursor is at the start of a line |
| Screen.BackspaceAfterPrint | js/terminal.js:105-122 | on a screen of at least two rows, backspace right after printing a character from any column but -1 moves back onto the cell that character was written to |
| Screen.BackspaceInBounds | js/terminal.js:105-122 | backspace keeps the cursor inside the screen |
| Terminal.SizeError | js/terminal.js:31-34 | the window is accepted exactly when it has 30 to 100 columns and 15 to 100 rows; otherwise the first failing check's message |
| Terminal.CharPos | js/terminal.js:170-178 | the position is accepted exactly when both coordinates are numbers below the column and row counts, negative ones included, and then it is exactly those coordinates; otherwise the x message when x fails, else the y message |
| Terminal.BannerColumnAccepted | js/snake.js:313-321 | on a terminal of 30 to 49 columns the victory banner's column `floor(columns/2 - 25)` is negative, and `setCharPos` accepts it with the banner's row |
| Terminal.KeyCodesAccepted | js/terminal.js:291-340 | every code `charToKeyCode` gives is one `parseInput` accepts, and none is Enter, Backspace or Tab |
| Terminal.ChromeTerminal.Init | js/terminal.js:30-95 | a terminal of the given size with a blank grid, the cursor at the origin and an empty session |
| Terminal.ChromeTerminal.Create | js/terminal.js:30-35 | the constructor fails exactly when the size is out of bounds, with that message; otherwise a fresh terminal with a blank grid |
| Terminal.ChromeTerminal.Scroll | js/terminal.js:124-133 | the in-place loop leaves the rows scrolled up by one and the cursor one row higher |
| Terminal.ChromeTerminal.InsertNewLine | js/terminal.js:97-103 | the cursor moves to the start of the next line, scrolling at the bottom, and stays on the screen |
| Terminal.ChromeTerminal.IncrementCharPos | js/terminal.js:162-168 | the cursor advances, wrapping to a new line at the last column, and stays on the screen |
| Terminal.ChromeTerminal.SetCharPos | js/terminal.js:170-178 | the answer is `CharPos`; when it accepts, the cursor is set to exactly the given coordinates, negative ones included; otherwise it stays; the terminal stays well formed exactly when the row is not negative |
| Terminal.ChromeTerminal.Backspace | js/terminal.js:105-122 | refuses at the origin, fails on an unwritten cell, and otherwise moves the cursor back one cell |
| Terminal.ChromeTerminal.Print | js/terminal.js:184-220 | with output suppressed nothing changes; otherwise the grid and cursor become `Paint` of the text and the text is logged |
| Terminal.ChromeTerminal.Println | js/terminal.js:222-225 | `print` of the text and a line break, ending at the start of a line |
| Terminal.ChromeTerminal.ParseInput | js/terminal.js:308-340 | Enter prints a line break (grid and log, or nothing while suppressed) and answers the joined input; Backspace moves the cursor as `Backspace` does (refused, unwritten or back a cell) and pops the input unless the cell was never written; Tab changes nothing; an accepted key is appended and printed (grid and log, or nothing while suppressed) unless input is limited |
| Terminal.ChromeTerminal.RegisterCmd | js/terminal.js:416-419 | the registry becomes `RegisterCmd` of the old one, and the cursor stays |
| Terminal.ChromeTerminal.ProcessCmd | js/terminal.js:379-407 | the reply is the interpreter's `ProcessCmd` on the old session, whose new state becomes the terminal's |
| Snake.LengthArg | js/snake.js:33-34 | a missing or empty argument takes the default |
| Snake.Settings | js/snake.js:33-48 | the corrected check (the source lets a NaN length through; see `SettingsFinding`): the game starts exactly when the length is a number from 1 to 65 and the maximum a number from 10 to 75; otherwise the first failing check's message |
| Snake.SettingsFinding | js/snake.js:33-41 | as written `SNAKE x` passes the length check with a NaN length; the corrected check refuses it |
| Snake.SettingsAgree | js/snake.js:33-48 | for numeric arguments the written and corrected checks agree |
| Snake.KeyDirection | js/snake.js:70-103 | the arrows always choose a direction and only the arrow and W/A/S/D codes do |
| Snake.Turn | js/snake.js:75-102 | the direction changes exactly when the new one is neither the current one nor its opposite, and then the old one is remembered |
| Snake.TurnNeverReverses | js/snake.js:75-102 | the remembered direction is never the opposite of the current one |
| Snake.StepStaysInField | js/snake.js:149-177 | the game ends exactly when the step would leave the field, and otherwise the head moves one cell in its direction |
| Snake.Overwrite | js/snake.js:228-232 | copying a prefix over a sequence replaces those positions only |
| Snake.ShiftedSegments | js/snake.js:215-232 | after the shift the head is first, each of the first `snakeLength` segments takes its predecessor's place, and the rest is kept |
| Snake.ShiftedSegmentsInRange | js/snake.js:215-232 | a shift that reads only stored locations keeps the arrays' length and leaves no `undefined` in them |
| Snake.LastSegmentUndefined | js/snake.js:219 | the last segment `drawSnake` erases is `undefined` exactly when the length is past the end of the location arrays |
| Snake.LongStartUndefined | js/snake.js:33-53 | a starting length above the maximum, such as `SNAKE 20 10`, passes both range checks and leaves the last segment `undefined` |
| Snake.ShiftLocs | js/snake.js:218-232 | the two loops of `drawSnake` compute `Shifted` |
| Snake.FirstFreeSpec | js/snake.js:246-259 | a cell is found exactly when some draw falls off the snake, and it is the first such draw, every earlier one being on the snake |
| Snake.Game.Init | js/snake.js:1-53 | the state `resetVars` and the validated settings give, with `maxLength` copies of the start cell in the location arrays |
| Snake.Game.Key | js/snake.js:70-115 | the direction turns as `Turn` says; ESC, or Q when not limited, exits; P when not limited toggles the pause; nothing else changes |
| Snake.Game.Move | js/snake.js:149-177 | the head moves as `Stepped` says, or the game is over when the step leaves the field; nothing else changes |
| Snake.Game.DrawSnake | js/snake.js:215-232 | when the head has moved and the last segment is `undefined`, erasing it throws in `setCharPos` (js/terminal.js:170-172) and nothing is shifted; otherwise, when the head has moved, the location arrays are shifted, and they stay when it has not |
| Snake.Game.Overlaps | js/snake.js:250-256 | overlap exactly when the cell is one of the first `snakeLength` segments |
| Snake.Game.FindFree | js/snake.js:246-259 | the loop finds `FirstFree` |
| Snake.Game.PlaceApple | js/snake.js:242-263 | the apple is placed exactly when some draw is free; it is then inside the field and off the snake |
| Snake.Game.DetectAppleEat | js/snake.js:265-278 | eating adds to the score and the length; reaching the maximum wins; otherwise a new apple is placed and the game speeds up |
| Snake.Game.DetectCollision | js/snake.js:280-286 | a collision is set exactly when the head lies on a body segment |
| Snake.Game.Frame | js/snake.js:138-185 | a paused frame changes nothing; a step out of the field ends the game and changes nothing else; otherwise the head moves as `Stepped` says, ESC or Q ends the frame with nothing else changed, a moved head with an `undefined` last segment makes `drawSnake` throw and ends the frame in the catch with nothing else changed (`Failed`, every frame of a game started longer than its maximum), the body becomes `Shifted` when the head moved, eating adds one to the score and the length, reaching the maximum wins, otherwise eating places the apple at `FirstFree` and speeds the game up, and the collision flag is set exactly when the head lies on the body; a frame that goes on has no collision, no win and no exit |
| Bookmarks.ToEntry | js/chrome.js:54-78 | a node with a URL becomes a bookmark and one without becomes a folder; every other field is copied |
| Bookmarks.FlattenAppend | js/chrome.js:54-78 | flattening a list in two parts flattens each part in turn |
| Bookmarks.DescendantsFirst | js/chrome.js:54-78 | a node's descendants come right before its own entry, after everything from earlier nodes and before everything from later ones |
| Bookmarks.FlattenHasTitled | js/chrome.js:54-78 | every node with a title anywhere in the tree has its entry in the result |
| Bookmarks.FlattenFromTitled | js/chrome.js:54-78 | every entry of the result comes from a node with a title in the tree |
| Bookmarks.ChildrenOf | js/chrome.js:40 | an entry, folder or bookmark, is listed exactly when its parent is the current folder |
| Bookmarks.ChildrenOfAppend | js/chrome.js:40 | the filter keeps the entries' order: the children of two runs are the first run's children followed by the second's |
| Bookmarks.LsLines | js/chrome.js:39-48 | split on line breaks, the output of `ls` is the titles of the folder's entries in order |
| Bookmarks.ChromeCommands.Init | js/chrome.js:2-5 | the bookmarks are the flattened tree and the path defaults to the root |
| Bookmarks.ChromeCommands.ProcessBookmarks | js/chrome.js:54-78 | the loop with its recursion into the children computes `Flatten` |
| Bookmarks.ChromeCommands.Listing | js/chrome.js:43-45 | the loop of `ls` gives each title followed by a line break |
| Bookmarks.ChromeCommands.Ls | js/chrome.js:39-48 | `ls` answers the lines of the current folder, sets status 0 and prints them |

## Behaviour worth noting

Two things the code does that a reader may not expect; the model follows the code in both:

- An unrecognized command is not an error. The code (js/terminal.js:405-407) prints the message and leaves the status at 0, which `processCmd` reset. `Commands.NotRecognized` models that.
- `IF c THEN (PRINT x)` prints nothing. The code evaluates the branch through `evalExpr` (js/commands.js:1365-1388), which suppresses output, so nothing is printed; the branch's value is the answer.

## Left out

- Property names of `Object.prototype` (`constructor`, `toString` and so on) are not modelled as keys of the registry, the aliases or the variables. The model treats those stores as plain maps.
- `String.prototype.replace` treats `$&`, `$1` and similar patterns in the replacement text specially. The model replaces text literally.
- Number formatting for values of 1e21 and above, and for fractions, is not modelled. `String(n)` is modelled for integers only.
- `toUpperCase` is modelled for ASCII letters only. JavaScript's full Unicode case mapping is left out.
- JavaScript strings are sequences of UTF-16 code units; the model's strings are sequences of Unicode scalar values. A character outside the Basic Multilingual Plane is one element in the model and two code units in the source, which changes lengths, indices and the order `<` gives such characters.
- Commands.WriteLine and Commands.StoreNumbered store only at array indices (0 to 2^32 - 2). The source also stores a numbered line whose number is negative or not a number (`-5 PRINT hi`, or a line that starts with a space, whose key is "NaN") as a property of the input array, which `list`'s `for ... in` then prints; the model answers such a line but drops the store, so Commands.List and Commands.ListInput never show it.
- Commands.AliasDelete, Commands.AliasList and Commands.AliasRecall answer "" when the alias name is missing or names no alias. The source answers the `undefined` that `println` returns, so `IF TRUE THEN (ALIAS -D)` throws a TypeError at `out.toString()` in the source and answers "" in the model. The model's command answers are strings, so this `undefined` is not represented.
- Commands.AliasRecall and the interpreter's ALIAS -R use the corrected lookup by the evaluated name, not the raw third word of js/commands.js:813 (see Findings); the two agree whenever the third word is the name itself (`Commands.RecallAgrees`).
- Commands.ShowAliases lists the names in the order they were saved. `Object.keys` lists integer-like names (after `SAVE 10`, say) first, in ascending order, and the rest in insertion order.
- Terminal.ChromeTerminal.SetCharPos accepts a negative row, as the source does; the terminal is then not `Valid`, and printing there, which reads a row that does not exist and throws a TypeError in the source, is not modelled.
- Terminal.ChromeTerminal.SetCharPos: coordinates are integers or NaN (`None`). Fractional and string coordinates are not modelled.
- The DOM, the caret, colours, themes, `saveDisplayInfo` and `refresh` are not modelled. Neither are the `localStorage` persistence of `setLocalStorage` and the restore of the program from `localStorage` in the constructor. In the model `setLocalStorage` only turns `suppressOutput` off, as its first line does.
- The timeouts and `sleep` of `print` and `incrementCharPos` are left out: they only delay.
- `printPrompt`, `inputText`, `startInputLoop`, `initListeners` and the tab completion of `specialKey` are not modelled, because they are DOM and event plumbing. `ParseInput` returns what it would resolve instead of calling `resolve`.
- Terminal.ChromeTerminal.ProcessCmd: the output of a command is recorded in the session's output log and is not painted on the grid. Only `Print`, `Println`, `ParseInput` and `Ls` paint.
- Interpreter.ProcessCmd, Interpreter.Run and the other interpreter functions take a fuel bound. A command that runs out of fuel answers `Exhausted`. This stands in for runs that do not end, such as an unbounded GOTO loop that keeps changing its program.
- ADD, CLEAR, CLR, CLS, COLOR, DIVIDE, DOWNLOAD, EXP, HELP, INPUT, LOGARITHM, MULTIPLY, RND, SETCURSOR, SQRT, SUBTRACT, SYSTEM, THEME and VARS, which js/commands.js:14-232 registers, are not in the model's registry (`Session.DefaultCommands`). Their callbacks are outside the modelled core. Two things follow from their absence:
  - Commands.Save accepts `SAVE CLS` or `SAVE ADD`, which the source refuses with "Cannot SAVE an alias with the same name as built in command." (js/commands.js:761).
  - Interpreter.ProcessCmd passes such a word on to the alias lookup, the numbered-line store or "not recognized", where the source runs the command.
- Commands.IsTrueNumber and Interpreter.IfChooses model IF's `result > 0` on the exact value of the number text. A text whose JavaScript number underflows to 0, such as `1e-400`, picks ELSE in the source and THEN in the model.
- Snake.Game.PlaceApple: the random draws of `rnd` are a parameter. When the draws run out before a free cell is found, the model reports it (`NoDraw`); the source would keep drawing for ever.
- Snake drawing is left out: the border, the score board, the banners of `gameOver` and `youWin`, and the cells `printAt` paints. So are the `requestAnimationFrame` scheduling and the `sleepTime` throttle between frames. `sleepTime` itself is kept.
- Snake.Settings: the status 1 and the `println` of a validation message are not modelled; the message is the error of the result.
- Snake.Game.Frame: the new state and the outcome are stated; the drawing each outcome triggers is not.
- Snake.Game.Frame: on `Failed` the error message that `moveSnake`'s catch prints, and the game loop it resolves (after which `snake` answers "END" with status 0 while the requested frames keep coming), are not modelled; the frame's outcome and state are.
- The `ChromeCommands` constructor's registrations of CD, LS, MKDIR, RMDIR, CP and MV are not modelled, and neither are the empty `cd`, `mkdir`, `rmdir`, `cp` and `mv`.
- A bookmark node's title that is not a string is modelled as `None`. A missing or empty URL is modelled as "", and children that are not an array as no children. The dates are integers or `None`.

## Findings

| source | as written | input that shows it | evidently intended | confidence | as-written member | corrected member |
|---|---|---|---|---|---|---|
| js/commands.js:813 | ALIAS recall looks the alias up again by the raw third word, upper-cased, instead of the evaluated name it checked | `ALIAS -R $P` with `$P` bound to the name of a saved alias: the check finds the alias, the recall reads `undefined` into the input | the input becomes the array of the alias that was found | not executed | Commands.RecallFinding | Commands.AliasRecall |
| js/snake.js:33-48 | the range checks compare with `>` and `<`, which are false for NaN, so a non-numeric length passes | `SNAKE x` starts a game with a NaN length | a length or maximum that is not a number is refused with the range message | not executed | Snake.SettingsFinding | Snake.Settings |
