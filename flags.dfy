/** The action and flag parser of the command language (js/commands.js,
    `tokenizeCommandLineInput`, `isAction`, `isFlags`, `parseFlags` and
    `mergeFlags`). It works on an argument list that has already been
    split on spaces and evaluated; the evaluation step lives in the
    interpreter. */
module Flags {
  import opened Wrappers
  import opened JsString

  /** The value a flag letter holds: `false`, `true`, or the argument it took. */
  datatype FlagValue = Off | On | Arg(text: string)

  /** Whether a flag value is truthy in JavaScript: `true`, or a non-empty argument. */
  predicate Truthy(v: FlagValue)
  {
    v.On? || (v.Arg? && v.text != "")
  }

  /** The shape of `availableFlags`: the word lists of the actions and the
      modifier letters. */
  datatype PossibleFlags = PossibleFlags(actions: seq<seq<string>>, modifiers: string)

  const ListAction: seq<string> := ["--LIST", "LIST", "L"]
  const RecallAction: seq<string> := ["--RECALL", "RECALL", "R"]
  const DeleteAction: seq<string> := ["--DELETE", "DELETE", "D"]

  /** `availableFlags`: the actions LIST, RECALL and DELETE and the letters D, L, P, R, U. */
  const Available: PossibleFlags := PossibleFlags([ListAction, RecallAction, DeleteAction], "DLPRU")

  /** `isAction(str, possibleFlags)`: the word is one of the words of some
      action; `None` stands for `undefined`, which is in no list. */
  predicate IsAction(str: Option<string>, pf: PossibleFlags)
  {
    str.Some? && exists a :: 0 <= a < |pf.actions| && str.value in pf.actions[a]
  }

  /** `isFlags(str, modifiers)`: the upper-cased word matches `^-[letters]+$`. */
  predicate IsFlags(str: string, modifiers: string)
  {
    var u := Upper(str);
    |u| >= 2 && u[0] == '-' && forall k :: 1 <= k < |u| ==> u[k] in modifiers
  }

  /** What `parseFlags` returns: a value per modifier letter, and whether a
      letter took the next word as its argument. */
  datatype FlagsResult = FlagsResult(opts: map<char, FlagValue>, tookArgument: bool)

  /** The next word as a letter's argument: `args[index + 1]`, or "" when it
      is missing or empty. */
  function NextWord(args: seq<string>, index: nat): string
  {
    if index + 1 < |args| then args[index + 1] else ""
  }

  /** Every modifier letter set to `false`. */
  function AllOff(modifiers: string): (m: map<char, FlagValue>)
    ensures forall c :: c in m <==> c in modifiers
    ensures forall c :: c in m ==> m[c] == Off
  {
    map c | c in modifiers :: Off
  }

  /** The loop of `parseFlags` over the characters of `args[index]` from
      position `k` on. */
  function ParseFlagsFrom(args: seq<string>, index: nat, k: nat, modifiers: string,
                          takesArgument: set<char>, acc: FlagsResult): FlagsResult
    requires index < |args| && k <= |args[index]|
    decreases |args[index]| - k
  {
    if k == |args[index]| then acc
    else
      var flag := UpperChar(args[index][k]);
      var acc' :=
        if flag !in acc.opts then acc
        else if flag in takesArgument then FlagsResult(acc.opts[flag := Arg(NextWord(args, index))], true)
        else FlagsResult(acc.opts[flag := On], acc.tookArgument);
      ParseFlagsFrom(args, index, k + 1, modifiers, takesArgument, acc')
  }

  /** `parseFlags(args, index, possibleFlags, options)`; `takesArgument` is
      the set of letters whose option asks for `lookForArgument`. */
  function ParseFlags(args: seq<string>, index: nat, modifiers: string, takesArgument: set<char>): FlagsResult
    requires index < |args|
  {
    ParseFlagsFrom(args, index, 0, modifiers, takesArgument, FlagsResult(AllOff(modifiers), false))
  }

  /** The letter at position `k` of the word, upper-cased, is a modifier. */
  predicate Mentions(word: string, c: char, modifiers: string)
  {
    c in modifiers && exists k :: 0 <= k < |word| && UpperChar(word[k]) == c
  }

  /** The loop of `parseFlags`, as the source writes it, proved to compute `ParseFlags`. */
  method ParseFlagsLoop(args: seq<string>, index: nat, modifiers: string, takesArgument: set<char>)
    returns (r: FlagsResult)
    requires index < |args|
    ensures r == ParseFlags(args, index, modifiers, takesArgument)
  {
    var opts := AllOff(modifiers);
    var took := false;
    var flags := args[index];
    var k := 0;
    while k < |flags|
      invariant 0 <= k <= |flags|
      invariant ParseFlagsFrom(args, index, k, modifiers, takesArgument, FlagsResult(opts, took))
             == ParseFlags(args, index, modifiers, takesArgument)
    {
      var flag := UpperChar(flags[k]);
      if flag in opts {
        if flag in takesArgument {
          opts := opts[flag := Arg(NextWord(args, index))];
          took := true;
        } else {
          opts := opts[flag := On];
        }
      }
      k := k + 1;
    }
    r := FlagsResult(opts, took);
  }

  /** What the loop of `parseFlags` keeps: the letters are the modifiers;
      a letter is set once the word mentions it, to its argument when it
      takes one; an argument was taken once a letter that takes one is met. */
  predicate FlagsSoFar(word: string, k: nat, modifiers: string, takesArgument: set<char>,
                       arg: string, r: FlagsResult)
    requires k <= |word|
  {
    (forall c :: c in r.opts <==> c in modifiers)
    && (forall c :: c in r.opts ==>
          r.opts[c] == (if !Mentions(word[..k], c, modifiers) then Off
                        else if c in takesArgument then Arg(arg) else On))
    && (r.tookArgument <==> exists c :: c in takesArgument && Mentions(word[..k], c, modifiers))
  }

  lemma MentionsStep(word: string, k: nat, c: char, modifiers: string)
    requires k < |word|
    ensures Mentions(word[..k + 1], c, modifiers)
        <==> Mentions(word[..k], c, modifiers) || (c in modifiers && UpperChar(word[k]) == c)
  {
    if Mentions(word[..k + 1], c, modifiers) {
      var j :| 0 <= j < k + 1 && UpperChar(word[..k + 1][j]) == c;
      if j < k { assert word[..k][j] == word[..k + 1][j]; }
    }
    if Mentions(word[..k], c, modifiers) {
      var j :| 0 <= j < k && UpperChar(word[..k][j]) == c;
      assert word[..k + 1][j] == word[..k][j];
    }
    if c in modifiers && UpperChar(word[k]) == c {
      assert word[..k + 1][k] == word[k];
    }
  }

  lemma {:induction false} ParseFlagsFromSpec(args: seq<string>, index: nat, k: nat, modifiers: string,
                                              takesArgument: set<char>, acc: FlagsResult)
    requires index < |args| && k <= |args[index]|
    requires FlagsSoFar(args[index], k, modifiers, takesArgument, NextWord(args, index), acc)
    decreases |args[index]| - k
    ensures FlagsSoFar(args[index], |args[index]|, modifiers, takesArgument, NextWord(args, index),
                       ParseFlagsFrom(args, index, k, modifiers, takesArgument, acc))
  {
    var word := args[index];
    if k < |word| {
      var flag := UpperChar(word[k]);
      var acc' :=
        if flag !in acc.opts then acc
        else if flag in takesArgument then FlagsResult(acc.opts[flag := Arg(NextWord(args, index))], true)
        else FlagsResult(acc.opts[flag := On], acc.tookArgument);
      forall c ensures Mentions(word[..k + 1], c, modifiers)
                   <==> Mentions(word[..k], c, modifiers) || (c in modifiers && flag == c) {
        MentionsStep(word, k, c, modifiers);
      }
      assert FlagsSoFar(word, k + 1, modifiers, takesArgument, NextWord(args, index), acc');
      ParseFlagsFromSpec(args, index, k + 1, modifiers, takesArgument, acc');
    }
  }

  /** `parseFlags` sets exactly the modifier letters the word mentions, in
      either case: to `true`, or, for a letter that takes an argument, to
      the next word ("" when there is none); it reports an argument taken
      exactly when such a letter is mentioned. */
  lemma ParseFlagsSpec(args: seq<string>, index: nat, modifiers: string, takesArgument: set<char>)
    requires index < |args|
    ensures var r := ParseFlags(args, index, modifiers, takesArgument);
      (forall c :: c in r.opts <==> c in modifiers)
      && (forall c :: c in r.opts ==>
            r.opts[c] == (if !Mentions(args[index], c, modifiers) then Off
                          else if c in takesArgument then Arg(NextWord(args, index)) else On))
      && (r.tookArgument <==> exists c :: c in takesArgument && Mentions(args[index], c, modifiers))
  {
    var word := args[index];
    assert word[..0] == [];
    assert word[..|word|] == word;
    ParseFlagsFromSpec(args, index, 0, modifiers, takesArgument, FlagsResult(AllOff(modifiers), false));
  }

  /** `mergeFlags(a, b)`: the letters of `b` that are `true` or hold an
      argument overwrite those of `a`. */
  function MergeFlags(a: map<char, FlagValue>, b: map<char, FlagValue>): map<char, FlagValue>
  {
    a + map k | k in b && b[k] != Off :: b[k]
  }

  /** What `mergeFlags` keeps and what it takes over. */
  lemma MergeFlagsSpec(a: map<char, FlagValue>, b: map<char, FlagValue>)
    ensures var m := MergeFlags(a, b);
      (forall k :: k in m <==> k in a || (k in b && b[k] != Off))
      && (forall k :: k in b && b[k] != Off ==> m[k] == b[k])
      && (forall k :: k in a && (k !in b || b[k] == Off) ==> m[k] == a[k])
  {
  }

  /** What `tokenizeCommandLineInput` returns: the upper-cased command word,
      the action, the flags, the name made of the remaining words, and the
      index where the name starts. */
  datatype Parsed = Parsed(cmd: string, action: string, flags: map<char, FlagValue>, name: string, start: nat)

  /** The flag loop of `tokenizeCommandLineInput` from word `i` on: every
      flag cluster advances `start`, and a cluster that took an argument
      advances it once more and skips that argument. */
  function ScanFlags(args: seq<string>, i: nat, start: nat, flags: map<char, FlagValue>,
                     pf: PossibleFlags, takesArgument: set<char>): (r: (nat, map<char, FlagValue>))
    decreases |args| - i
  {
    if i >= |args| then (start, flags)
    else if IsFlags(args[i], pf.modifiers) then
      var newFlags := ParseFlags(args, i, pf.modifiers, takesArgument);
      var merged := MergeFlags(flags, newFlags.opts);
      if newFlags.tookArgument then ScanFlags(args, i + 2, start + 2, merged, pf, takesArgument)
      else ScanFlags(args, i + 1, start + 1, merged, pf, takesArgument)
    else ScanFlags(args, i + 1, start, flags, pf, takesArgument)
  }

  /** The words from `start` on joined by spaces (`args.slice(start).join(" ")`). */
  function NameFrom(args: seq<string>, start: nat): string
  {
    if start < |args| then Join(args[start..], " ") else ""
  }

  /** `args[0]?.toUpperCase()`, with `undefined` as "". */
  function CommandWord(args: seq<string>): string
  {
    if |args| > 0 then Upper(args[0]) else ""
  }

  /** `tokenizeCommandLineInput` after its evaluation step. */
  function ParseCommandLine(args: seq<string>, lookForAction: bool, pf: PossibleFlags,
                            takesArgument: set<char>): Parsed
  {
    var hasAction := lookForAction && IsAction(if |args| > 1 then Some(Upper(args[1])) else None, pf);
    var action := if hasAction then Upper(args[1]) else "";
    var first: nat := if hasAction then 2 else 1;
    var (start, flags) := ScanFlags(args, first, first, map[], pf, takesArgument);
    Parsed(CommandWord(args), action, flags, NameFrom(args, start), start)
  }

  /** The loop of `tokenizeCommandLineInput`, as the source writes it,
      proved to compute `ParseCommandLine`. */
  method ParseCommandLineLoop(args: seq<string>, lookForAction: bool, pf: PossibleFlags,
                              takesArgument: set<char>) returns (r: Parsed)
    ensures r == ParseCommandLine(args, lookForAction, pf, takesArgument)
  {
    var action := "";
    var flags: map<char, FlagValue> := map[];
    var startIndex: nat := 1;
    if lookForAction && IsAction(if |args| > 1 then Some(Upper(args[1])) else None, pf) {
      action := Upper(args[1]);
      startIndex := startIndex + 1;
    }
    ghost var first := startIndex;
    var i: nat := startIndex;
    while i < |args|
      invariant ScanFlags(args, i, startIndex, flags, pf, takesArgument)
             == ScanFlags(args, first, first, map[], pf, takesArgument)
      decreases |args| - i
    {
      if IsFlags(args[i], pf.modifiers) {
        var newFlags := ParseFlagsLoop(args, i, pf.modifiers, takesArgument);
        flags := MergeFlags(flags, newFlags.opts);
        startIndex := startIndex + 1;
        if newFlags.tookArgument {
          startIndex := startIndex + 1;
          i := i + 1;
        }
      }
      i := i + 1;
    }
    r := Parsed(CommandWord(args), action, flags, NameFrom(args, startIndex), startIndex);
  }

  /** No flag cluster from word `i` on: the loop leaves `start` and the flags as they are. */
  lemma {:induction false} ScanNoFlags(args: seq<string>, i: nat, start: nat, flags: map<char, FlagValue>,
                                       pf: PossibleFlags, takesArgument: set<char>)
    requires forall j :: i <= j < |args| ==> !IsFlags(args[j], pf.modifiers)
    decreases |args| - i
    ensures ScanFlags(args, i, start, flags, pf, takesArgument) == (start, flags)
  {
    if i < |args| {
      ScanNoFlags(args, i + 1, start, flags, pf, takesArgument);
    }
  }

  /** `start` only grows, and the flags only gain letters that some scanned
      cluster mentions, and never lose one. */
  lemma {:induction false} ScanFlagsGrows(args: seq<string>, i: nat, start: nat, flags: map<char, FlagValue>,
                                          pf: PossibleFlags, takesArgument: set<char>)
    decreases |args| - i
    ensures var (s, f) := ScanFlags(args, i, start, flags, pf, takesArgument);
      s >= start
      && (forall c :: c in flags ==> c in f)
      && (forall c :: c in f && c !in flags ==>
            exists j :: i <= j < |args| && IsFlags(args[j], pf.modifiers) && Mentions(args[j], c, pf.modifiers))
  {
    if i < |args| {
      if IsFlags(args[i], pf.modifiers) {
        var newFlags := ParseFlags(args, i, pf.modifiers, takesArgument);
        var merged := MergeFlags(flags, newFlags.opts);
        ParseFlagsSpec(args, i, pf.modifiers, takesArgument);
        MergeFlagsSpec(flags, newFlags.opts);
        var next := if newFlags.tookArgument then i + 2 else i + 1;
        var nstart := if newFlags.tookArgument then start + 2 else start + 1;
        ScanFlagsGrows(args, next, nstart, merged, pf, takesArgument);
      } else {
        ScanFlagsGrows(args, i + 1, start, flags, pf, takesArgument);
      }
    }
  }

  /** The action is recognised at index 1 only, and only when asked for; a
      line with no flag cluster has its name start right after the action. */
  lemma ParseCommandLineAction(args: seq<string>, lookForAction: bool, pf: PossibleFlags, takesArgument: set<char>)
    ensures var r := ParseCommandLine(args, lookForAction, pf, takesArgument);
      var hasAction := lookForAction && |args| > 1 && IsAction(Some(Upper(args[1])), pf);
      r.action == (if hasAction then Upper(args[1]) else "")
      && r.start >= (if hasAction then 2 else 1)
      && r.name == NameFrom(args, r.start)
      && r.cmd == CommandWord(args)
      && (forall c :: c in r.flags ==>
            exists j :: 1 <= j < |args| && IsFlags(args[j], pf.modifiers) && Mentions(args[j], c, pf.modifiers))
      && ((forall j :: 1 <= j < |args| ==> !IsFlags(args[j], pf.modifiers)) ==>
            r.flags == map[] && r.start == (if hasAction then 2 else 1))
  {
    var hasAction := lookForAction && IsAction(if |args| > 1 then Some(Upper(args[1])) else None, pf);
    var first: nat := if hasAction then 2 else 1;
    ScanFlagsGrows(args, first, first, map[], pf, takesArgument);
    if forall j :: 1 <= j < |args| ==> !IsFlags(args[j], pf.modifiers) {
      ScanNoFlags(args, first, first, map[], pf, takesArgument);
    }
  }

  /** With no letter that takes an argument, every scanned cluster sets the
      letters it mentions to `true`, and a letter once `true` stays so. */
  lemma {:induction false} ScanFlagsSets(args: seq<string>, i: nat, start: nat, flags: map<char, FlagValue>,
                                         pf: PossibleFlags, c: char)
    requires (c in flags && flags[c] == On)
          || exists j :: i <= j < |args| && IsFlags(args[j], pf.modifiers) && Mentions(args[j], c, pf.modifiers)
    decreases |args| - i
    ensures var (s, f) := ScanFlags(args, i, start, flags, pf, {}); c in f && f[c] == On
  {
    if i < |args| {
      if IsFlags(args[i], pf.modifiers) {
        var newFlags := ParseFlags(args, i, pf.modifiers, {});
        var merged := MergeFlags(flags, newFlags.opts);
        ParseFlagsSpec(args, i, pf.modifiers, {});
        MergeFlagsSpec(flags, newFlags.opts);
        assert !newFlags.tookArgument;
        if !Mentions(args[i], c, pf.modifiers) && !(c in flags && flags[c] == On) {
          var j :| i <= j < |args| && IsFlags(args[j], pf.modifiers) && Mentions(args[j], c, pf.modifiers);
          assert j != i;
        }
        ScanFlagsSets(args, i + 1, start + 1, merged, pf, c);
      } else {
        if !(c in flags && flags[c] == On) {
          var j :| i <= j < |args| && IsFlags(args[j], pf.modifiers) && Mentions(args[j], c, pf.modifiers);
          assert j != i;
        }
        ScanFlagsSets(args, i + 1, start, flags, pf, c);
      }
    }
  }

  /** The converse of the flag clause of `ParseCommandLineAction`, for the
      parse the interpreter does (no letter takes an argument): a letter
      mentioned by any flag cluster after the action is `true`. */
  lemma ParseCommandLineFlags(args: seq<string>, lookForAction: bool, pf: PossibleFlags, c: char, j: nat)
    requires (if lookForAction && |args| > 1 && IsAction(Some(Upper(args[1])), pf) then 2 else 1) <= j < |args|
    requires IsFlags(args[j], pf.modifiers) && Mentions(args[j], c, pf.modifiers)
    ensures var r := ParseCommandLine(args, lookForAction, pf, {}); c in r.flags && r.flags[c] == On
  {
    var hasAction := lookForAction && IsAction(if |args| > 1 then Some(Upper(args[1])) else None, pf);
    var first: nat := if hasAction then 2 else 1;
    ScanFlagsSets(args, first, first, map[], pf, c);
  }
}
