/** The state the command language works on (the `terminal` record of
    js/terminal.js and the stores js/commands.js changes): the registry of
    commands, the stored programs, the aliases, the variables, the status
    code, the printed output and the flags `suppressOutput`,
    `stopPrinting` and `executing`. */
module Session {
  import opened Wrappers
  import opened JsString

  /** A stored program: a sparse JavaScript array of lines. `None` is a
      hole, or a slot holding `undefined`; both are falsy and skipped. */
  type Program = seq<Option<string>>

  /** The commands of the model's registry (the callbacks the source binds). */
  datatype Cmd =
    | Assign | Unassign | Print | Equals | Lt | Gt | Goto | Exit | If | For
    | List | Delete | Move | New | Save | Alias | Run

  /** One entry of `registeredCmd`. */
  datatype Registration = Registration(name: string, cmd: Cmd)

  /** One entry of `program.aliases`: the name and the program array it
      refers to, as an index into `programs`. */
  datatype AliasEntry = AliasEntry(name: string, program: nat)

  /** The terminal's state. Program arrays are shared by reference, so all
      of them live in `programs`; `input` and every alias point into it. */
  datatype Session = Session(
    registry: seq<Registration>,
    programs: seq<Program>,
    input: nat,
    aliases: seq<AliasEntry>,
    variables: map<string, string>,
    status: int,
    output: seq<string>,
    suppress: bool,
    stopPrinting: bool,
    executing: bool)

  /** Every reference to a program array points at one that exists. */
  predicate Valid(s: Session)
  {
    s.input < |s.programs|
    && forall k :: 0 <= k < |s.aliases| ==> s.aliases[k].program < |s.programs|
  }

  /** What no command changes: the registry stays as it is, and a valid
      session stays valid. */
  predicate Keeps(s: Session, t: Session)
  {
    t.registry == s.registry && (Valid(s) ==> Valid(t))
  }

  /** The program array a reference points at. */
  function ProgramAt(s: Session, p: nat): Program
  {
    if p < |s.programs| then s.programs[p] else []
  }

  /** `program.input`. */
  function Input(s: Session): Program
  {
    ProgramAt(s, s.input)
  }

  /** A fresh session with the given registry and an empty program. */
  function Initial(registry: seq<Registration>): (s: Session)
    ensures Valid(s)
  {
    Session(registry, [[]], 0, [], map[], 0, [], false, false, false)
  }

  // ---------------------------------------------------------------------
  // Sparse arrays

  /** Whether a number is an array index (below 2^32 - 1); other keys are
      plain properties, which the model does not keep. */
  predicate IsArrayIndex(n: int)
  {
    0 <= n < 0xFFFF_FFFF
  }

  /** `program[n]`: `None` for a hole, `undefined`, or an index past the end. */
  function LineAt(p: Program, n: int): Option<string>
  {
    if 0 <= n < |p| then p[n] else None
  }

  /** `program.hasOwnProperty(n) && program[n]`: a line that holds a non-empty text. */
  predicate HasLine(p: Program, n: int)
  {
    LineAt(p, n).Some? && LineAt(p, n).value != ""
  }

  /** `n` holes. */
  function Holes(n: nat): (r: Program)
    ensures |r| == n && forall k :: 0 <= k < n ==> r[k] == None
  {
    seq(n, k => None)
  }

  /** `program[n] = v`: the array grows with holes when `n` is past its end. */
  function SetLine(p: Program, n: nat, v: Option<string>): (r: Program)
    ensures |r| == if n < |p| then |p| else n + 1
    ensures r[n] == v
    ensures forall k :: 0 <= k < |r| && k != n ==> LineAt(r, k) == LineAt(p, k)
  {
    if n < |p| then p[n := v] else p + Holes(n - |p|) + [v]
  }

  /** `delete program[n]`: the slot becomes a hole; the length stays. */
  function DeleteLine(p: Program, n: nat): (r: Program)
    ensures |r| == |p|
    ensures LineAt(r, n) == None
    ensures forall k :: k != n ==> LineAt(r, k) == LineAt(p, k)
  {
    if n < |p| then p[n := None] else p
  }

  /** The session with program array `pid` replaced. */
  function WithProgram(s: Session, pid: nat, p: Program): (r: Session)
    ensures |r.programs| == |s.programs|
    ensures pid < |s.programs| ==> r.programs[pid] == p
    ensures forall q :: 0 <= q < |s.programs| && q != pid ==> r.programs[q] == s.programs[q]
  {
    if pid < |s.programs| then s.(programs := s.programs[pid := p]) else s
  }

  // ---------------------------------------------------------------------
  // Aliases: an object whose keys keep their insertion order

  /** `program.aliases[name]`. */
  function AliasLookup(aliases: seq<AliasEntry>, name: string): Option<nat>
  {
    if aliases == [] then None
    else if aliases[0].name == name then Some(aliases[0].program)
    else AliasLookup(aliases[1..], name)
  }

  /** `program.aliases[name] = program`: an existing key keeps its place. */
  function SetAlias(aliases: seq<AliasEntry>, name: string, program: nat): seq<AliasEntry>
  {
    if aliases == [] then [AliasEntry(name, program)]
    else if aliases[0].name == name then [AliasEntry(name, program)] + aliases[1..]
    else [aliases[0]] + SetAlias(aliases[1..], name, program)
  }

  /** `delete program.aliases[name]`. */
  function RemoveAlias(aliases: seq<AliasEntry>, name: string): seq<AliasEntry>
  {
    if aliases == [] then []
    else if aliases[0].name == name then aliases[1..]
    else [aliases[0]] + RemoveAlias(aliases[1..], name)
  }

  /** `Object.keys(program.aliases)`. */
  function AliasNames(aliases: seq<AliasEntry>): seq<string>
  {
    seq(|aliases|, k requires 0 <= k < |aliases| => aliases[k].name)
  }

  /** An alias object has each key once. */
  predicate DistinctNames(aliases: seq<AliasEntry>)
  {
    forall j, k :: 0 <= j < k < |aliases| ==> aliases[j].name != aliases[k].name
  }

  /** After setting an alias it names the given program and every other
      alias is as it was. */
  lemma {:induction false} SetAliasLookup(aliases: seq<AliasEntry>, name: string, program: nat, other: string)
    ensures AliasLookup(SetAlias(aliases, name, program), name) == Some(program)
    ensures other != name ==> AliasLookup(SetAlias(aliases, name, program), other) == AliasLookup(aliases, other)
  {
    if aliases != [] && aliases[0].name != name {
      SetAliasLookup(aliases[1..], name, program, other);
    }
  }

  /** After deleting an alias it is gone and every other alias is as it
      was (the keys being distinct). */
  lemma {:induction false} RemoveAliasLookup(aliases: seq<AliasEntry>, name: string, other: string)
    requires DistinctNames(aliases)
    ensures AliasLookup(RemoveAlias(aliases, name), name) == None
    ensures other != name ==> AliasLookup(RemoveAlias(aliases, name), other) == AliasLookup(aliases, other)
  {
    if aliases != [] {
      assert DistinctNames(aliases[1..]) by {
        forall j, k | 0 <= j < k < |aliases[1..]| ensures aliases[1..][j].name != aliases[1..][k].name {
          assert aliases[1..][j] == aliases[j + 1] && aliases[1..][k] == aliases[k + 1];
        }
      }
      if aliases[0].name == name {
        AbsentLookup(aliases[1..], name);
      } else {
        RemoveAliasLookup(aliases[1..], name, other);
      }
    }
  }

  /** An alias refers below `bound` when every entry does. */
  lemma {:induction false} AliasLookupBelow(aliases: seq<AliasEntry>, name: string, bound: nat)
    ensures (forall k :: 0 <= k < |aliases| ==> aliases[k].program < bound) && AliasLookup(aliases, name).Some? ==>
      AliasLookup(aliases, name).value < bound
  {
    if aliases != [] && aliases[0].name != name {
      AliasLookupBelow(aliases[1..], name, bound);
    }
  }

  /** Deleting an alias keeps every other entry below `bound`. */
  lemma {:induction false} RemoveAliasBelow(aliases: seq<AliasEntry>, name: string, bound: nat)
    ensures (forall k :: 0 <= k < |aliases| ==> aliases[k].program < bound) ==>
      forall k :: 0 <= k < |RemoveAlias(aliases, name)| ==> RemoveAlias(aliases, name)[k].program < bound
  {
    if aliases != [] && aliases[0].name != name {
      RemoveAliasBelow(aliases[1..], name, bound);
      assert RemoveAlias(aliases, name) == [aliases[0]] + RemoveAlias(aliases[1..], name);
    }
  }

  /** A name that no later entry carries is not found among them. */
  lemma {:induction false} AbsentLookup(aliases: seq<AliasEntry>, name: string)
    requires forall k :: 0 <= k < |aliases| ==> aliases[k].name != name
    ensures AliasLookup(aliases, name) == None
  {
    if aliases != [] {
      AbsentLookup(aliases[1..], name);
    }
  }

  // ---------------------------------------------------------------------
  // The registry of commands

  /** `registeredCmd[name]`. */
  function Lookup(registry: seq<Registration>, name: string): Option<Cmd>
  {
    if registry == [] then None
    else if registry[0].name == name then Some(registry[0].cmd)
    else Lookup(registry[1..], name)
  }

  /** The keys are in ascending order, each once. */
  predicate SortedRegistry(registry: seq<Registration>)
  {
    forall j, k :: 0 <= j < k < |registry| ==> LexLess(registry[j].name, registry[k].name)
  }

  /** `registeredCmd[name] = options` on an object: a new key is added at the end. */
  function Put(registry: seq<Registration>, name: string, cmd: Cmd): seq<Registration>
  {
    if registry == [] then [Registration(name, cmd)]
    else if registry[0].name == name then [Registration(name, cmd)] + registry[1..]
    else [registry[0]] + Put(registry[1..], name, cmd)
  }

  /** Insert one entry into a sorted registry, before the first larger key. */
  function Insert(r: Registration, sorted: seq<Registration>): seq<Registration>
  {
    if sorted == [] then [r]
    else if LexLess(r.name, sorted[0].name) then [r] + sorted
    else [sorted[0]] + Insert(r, sorted[1..])
  }

  /** `sortObject`: the entries by `Object.keys(...).sort()`, which compares
      code units, as `LexLess` does. */
  function SortObject(registry: seq<Registration>): seq<Registration>
  {
    if registry == [] then [] else Insert(registry[0], SortObject(registry[1..]))
  }

  /** `registerCmd(name, options)`. */
  function RegisterCmd(registry: seq<Registration>, name: string, cmd: Cmd): seq<Registration>
  {
    SortObject(Put(registry, name, cmd))
  }

  /** Each key once. */
  predicate DistinctKeys(registry: seq<Registration>)
  {
    forall j, k :: 0 <= j < k < |registry| ==> registry[j].name != registry[k].name
  }

  /** Setting a key keeps the keys distinct, finds the new command under
      the name and leaves every other name as it was. */
  lemma {:induction false} PutSpec(registry: seq<Registration>, name: string, cmd: Cmd)
    requires DistinctKeys(registry)
    ensures DistinctKeys(Put(registry, name, cmd))
    ensures Lookup(Put(registry, name, cmd), name) == Some(cmd)
    ensures forall other :: other != name ==> Lookup(Put(registry, name, cmd), other) == Lookup(registry, other)
  {
    if registry != [] {
      var rest := registry[1..];
      assert DistinctKeys(rest) by {
        forall j, k | 0 <= j < k < |rest| ensures rest[j].name != rest[k].name {
          assert rest[j] == registry[j + 1] && rest[k] == registry[k + 1];
        }
      }
      if registry[0].name == name {
        var r := Put(registry, name, cmd);
        assert r[1..] == rest;
        forall j, k | 0 <= j < k < |r| ensures r[j].name != r[k].name {
          assert r[k] == registry[k];
          if j > 0 { assert r[j] == registry[j]; }
        }
        forall other | other != name ensures Lookup(r, other) == Lookup(registry, other) {
        }
      } else {
        PutSpec(rest, name, cmd);
        var tail := Put(rest, name, cmd);
        var r := Put(registry, name, cmd);
        assert r == [registry[0]] + tail;
        forall k | 0 <= k < |tail| ensures tail[k].name != registry[0].name {
          PutNames(rest, name, cmd, k);
          if tail[k].name != name {
            var m :| 0 <= m < |rest| && rest[m].name == tail[k].name;
            assert rest[m] == registry[m + 1];
          }
        }
        forall j, k | 0 <= j < k < |r| ensures r[j].name != r[k].name {
          if j > 0 { assert r[j] == tail[j - 1]; }
          assert r[k] == tail[k - 1];
        }
      }
    }
  }

  /** Every key after `Put` is the new name or an old key. */
  lemma {:induction false} PutNames(registry: seq<Registration>, name: string, cmd: Cmd, k: nat)
    requires k < |Put(registry, name, cmd)|
    ensures var n := Put(registry, name, cmd)[k].name;
      n == name || exists m :: 0 <= m < |registry| && registry[m].name == n
  {
    if registry != [] && registry[0].name != name && k > 0 {
      PutNames(registry[1..], name, cmd, k - 1);
      var n := Put(registry, name, cmd)[k].name;
      if n != name {
        var m :| 0 <= m < |registry[1..]| && registry[1..][m].name == n;
        assert registry[m + 1].name == n;
      }
    }
  }

  /** Inserting keeps a sorted registry sorted and adds exactly one entry. */
  lemma {:induction false} InsertSpec(r: Registration, sorted: seq<Registration>)
    requires SortedRegistry(sorted)
    requires forall k :: 0 <= k < |sorted| ==> sorted[k].name != r.name
    ensures SortedRegistry(Insert(r, sorted))
    ensures |Insert(r, sorted)| == |sorted| + 1
    ensures forall n :: Lookup(Insert(r, sorted), n) == if n == r.name then Some(r.cmd) else Lookup(sorted, n)
  {
    if sorted != [] && !LexLess(r.name, sorted[0].name) {
      var rest := sorted[1..];
      assert SortedRegistry(rest) by {
        forall j, k | 0 <= j < k < |rest| ensures LexLess(rest[j].name, rest[k].name) {
          assert rest[j] == sorted[j + 1] && rest[k] == sorted[k + 1];
        }
      }
      InsertSpec(r, rest);
      LexLessTotal(r.name, sorted[0].name);
      var tail := Insert(r, rest);
      var result := [sorted[0]] + tail;
      forall k | 0 <= k < |tail| ensures LexLess(sorted[0].name, tail[k].name) {
        InsertMember(r, rest, k);
        if tail[k] != r {
          var m :| 0 <= m < |rest| && tail[k] == rest[m];
          assert rest[m] == sorted[m + 1];
        }
      }
      forall j, k | 0 <= j < k < |result| ensures LexLess(result[j].name, result[k].name) {
        assert result[k] == tail[k - 1];
        if j > 0 { assert result[j] == tail[j - 1]; }
      }
    } else if sorted != [] {
      var result := [r] + sorted;
      forall j, k | 0 <= j < k < |result| ensures LexLess(result[j].name, result[k].name) {
        assert result[k] == sorted[k - 1];
        if j > 0 {
          assert result[j] == sorted[j - 1];
        } else if k > 1 {
          LexLessTransitive(r.name, sorted[0].name, sorted[k - 1].name);
        }
      }
    }
  }

  /** Every entry after inserting is the new one or an old one. */
  lemma {:induction false} InsertMember(r: Registration, sorted: seq<Registration>, k: nat)
    requires k < |Insert(r, sorted)|
    ensures Insert(r, sorted)[k] == r || exists m :: 0 <= m < |sorted| && Insert(r, sorted)[k] == sorted[m]
  {
    if sorted != [] && !LexLess(r.name, sorted[0].name) && k > 0 {
      InsertMember(r, sorted[1..], k - 1);
      if Insert(r, sorted)[k] != r {
        var m :| 0 <= m < |sorted[1..]| && Insert(r, sorted[1..])[k - 1] == sorted[1..][m];
        assert sorted[m + 1] == sorted[1..][m];
      }
    } else if sorted != [] && LexLess(r.name, sorted[0].name) && k > 0 {
      assert Insert(r, sorted)[k] == sorted[k - 1];
    }
  }

  /** `sortObject` orders the keys and finds every command where the
      unsorted object did (its keys being distinct). */
  lemma {:induction false} SortObjectSpec(registry: seq<Registration>)
    requires DistinctKeys(registry)
    ensures SortedRegistry(SortObject(registry))
    ensures |SortObject(registry)| == |registry|
    ensures forall n :: Lookup(SortObject(registry), n) == Lookup(registry, n)
  {
    if registry != [] {
      var rest := registry[1..];
      assert DistinctKeys(rest) by {
        forall j, k | 0 <= j < k < |rest| ensures rest[j].name != rest[k].name {
          assert rest[j] == registry[j + 1] && rest[k] == registry[k + 1];
        }
      }
      SortObjectSpec(rest);
      var sorted := SortObject(rest);
      forall m | 0 <= m < |rest| ensures rest[m].name != registry[0].name {
        assert rest[m] == registry[m + 1];
      }
      RegistryAbsent(rest, registry[0].name);
      forall k | 0 <= k < |sorted| ensures sorted[k].name != registry[0].name {
        if sorted[k].name == registry[0].name {
          LookupFound(sorted, k);
        }
      }
      InsertSpec(registry[0], sorted);
    }
  }

  /** An entry whose key is present is found by `Lookup`. */
  lemma {:induction false} LookupFound(registry: seq<Registration>, k: nat)
    requires k < |registry|
    ensures Lookup(registry, registry[k].name).Some?
  {
    if k > 0 && registry[0].name != registry[k].name {
      LookupFound(registry[1..], k - 1);
    }
  }

  /** A name no entry carries is not found. */
  lemma {:induction false} RegistryAbsent(registry: seq<Registration>, name: string)
    requires forall k :: 0 <= k < |registry| ==> registry[k].name != name
    ensures Lookup(registry, name) == None
  {
    if registry != [] {
      RegistryAbsent(registry[1..], name);
    }
  }

  /** `registerCmd` leaves the registry sorted, with the new command under
      its name and every other name as it was. */
  lemma RegisterCmdSpec(registry: seq<Registration>, name: string, cmd: Cmd)
    requires DistinctKeys(registry)
    ensures SortedRegistry(RegisterCmd(registry, name, cmd))
    ensures Lookup(RegisterCmd(registry, name, cmd), name) == Some(cmd)
    ensures forall other :: other != name ==> Lookup(RegisterCmd(registry, name, cmd), other) == Lookup(registry, other)
  {
    PutSpec(registry, name, cmd);
    SortObjectSpec(Put(registry, name, cmd));
  }

  /** A sorted registry has each key once. */
  lemma SortedDistinct(registry: seq<Registration>)
    requires SortedRegistry(registry)
    ensures DistinctKeys(registry)
  {
    forall j, k | 0 <= j < k < |registry| ensures registry[j].name != registry[k].name {
      if registry[j].name == registry[k].name {
        LexLessIrreflexive(registry[j].name);
      }
    }
  }

  /** The names `registerDefaultCommands` registers that the model runs. */
  const DefaultCommands: seq<Registration> := [
    Registration("ALIAS", Alias), Registration("ASSIGN", Assign), Registration("DELETE", Delete),
    Registration("EQUALS", Equals), Registration("EXIT", Exit), Registration("FOR", For),
    Registration("GOTO", Goto), Registration("GT", Gt), Registration("IF", If),
    Registration("LIST", List), Registration("LT", Lt), Registration("MOVE", Move),
    Registration("NEW", New), Registration("PRINT", Cmd.Print), Registration("RUN", Run),
    Registration("SAVE", Save), Registration("UNASSIGN", Unassign)]

  /** `registerDefaultCommands`: one `registerCmd` after another. */
  function RegisterAll(registry: seq<Registration>, entries: seq<Registration>): seq<Registration>
    decreases |entries|
  {
    if entries == [] then registry
    else RegisterAll(RegisterCmd(registry, entries[0].name, entries[0].cmd), entries[1..])
  }

  /** Registering one command after another keeps the registry sorted and
      finds every registered command under its name. */
  lemma {:induction false} RegisterAllSpec(registry: seq<Registration>, entries: seq<Registration>)
    requires DistinctKeys(registry)
    ensures SortedRegistry(RegisterAll(registry, entries)) || entries == []
    ensures DistinctKeys(RegisterAll(registry, entries))
    ensures forall k :: 0 <= k < |entries| && (forall m :: k < m < |entries| ==> entries[m].name != entries[k].name)
              ==> Lookup(RegisterAll(registry, entries), entries[k].name) == Some(entries[k].cmd)
    decreases |entries|
  {
    if entries != [] {
      var next := RegisterCmd(registry, entries[0].name, entries[0].cmd);
      RegisterCmdSpec(registry, entries[0].name, entries[0].cmd);
      SortedDistinct(next);
      RegisterAllSpec(next, entries[1..]);
      forall k | 0 <= k < |entries| && (forall m :: k < m < |entries| ==> entries[m].name != entries[k].name)
        ensures Lookup(RegisterAll(registry, entries), entries[k].name) == Some(entries[k].cmd)
      {
        if k == 0 {
          RegisterAllKeeps(next, entries[1..], entries[0].name);
        } else {
          assert entries[1..][k - 1] == entries[k];
          forall m | k - 1 < m < |entries[1..]| ensures entries[1..][m].name != entries[1..][k - 1].name {
            assert entries[1..][m] == entries[m + 1];
          }
        }
      }
    }
  }

  /** A name no later registration uses keeps its command. */
  lemma {:induction false} RegisterAllKeeps(registry: seq<Registration>, entries: seq<Registration>, name: string)
    requires DistinctKeys(registry)
    requires forall m :: 0 <= m < |entries| ==> entries[m].name != name
    ensures Lookup(RegisterAll(registry, entries), name) == Lookup(registry, name)
    decreases |entries|
  {
    if entries != [] {
      var next := RegisterCmd(registry, entries[0].name, entries[0].cmd);
      RegisterCmdSpec(registry, entries[0].name, entries[0].cmd);
      SortedDistinct(next);
      RegisterAllKeeps(next, entries[1..], name);
    }
  }

  // ---------------------------------------------------------------------
  // Output and errors

  /** `print(data)`: nothing while output is suppressed. */
  function Printed(s: Session, data: string): (r: Session)
    ensures r.output == if s.suppress then s.output else s.output + [data]
    ensures r == s.(output := r.output)
  {
    if s.suppress then s else s.(output := s.output + [data])
  }

  /** `println(data)`: `data` and a line break, printed unless suppressed. */
  function Println(s: Session, data: string): (r: Session)
    ensures r.output == if s.suppress then s.output else s.output + [data + "\n"]
    ensures r == s.(output := r.output)
  {
    Printed(s, data + "\n")
  }

  /** `cmdErr(terminal, msg, code)`: a zero code becomes 1; the message is
      printed and the command answers "ERROR". */
  function CmdErr(s: Session, msg: string, code: int): (r: (Session, string))
    ensures r.0.status != 0 && r.1 == "ERROR"
    ensures r.0.status == (if code == 0 then 1 else code)
    ensures r.0.output == if s.suppress then s.output else s.output + [msg + "\n"]
    ensures r.0 == s.(status := r.0.status, output := r.0.output)
  {
    var c := if code == 0 then 1 else code;
    (Println(s.(status := c), msg), "ERROR")
  }

  /** `setLocalStorage`: persistence is not modelled, but it always turns
      `suppressOutput` off; nothing else in the session changes. */
  function SetLocalStorage(s: Session): (r: Session)
    ensures !r.suppress
    ensures r.(suppress := s.suppress) == s
  {
    s.(suppress := false)
  }
}
