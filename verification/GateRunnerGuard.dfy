/**
 What a command line would touch (`gate-runner-guard.ts`, and the invocation
 readers of `shell-line.ts`).
 */
module GateRunnerGuard {
  import opened Text
  import ShellLine

  type Args = seq<string>

  // -------------------------------------------------------------- invocation

  const Prefixes: set<string> := {"!", "{", "if", "then", "else", "elif", "while", "until", "do",
                                  "time", "command", "builtin", "exec", "nohup", "env"}

  predicate IsNameChar(c: char) {
    'a' <= c <= 'z' || 'A' <= c <= 'Z' || c == '_' || IsDigit(c)
  }

  /** An assignment: a name, then `=`. */
  predicate IsAssignment(word: string) {
    exists k :: 0 < k < |word| && word[k] == '=' && !IsDigit(word[0])
      && forall j :: 0 <= j < k ==> IsNameChar(word[j])
  }

  function SplitLast(s: string): string {
    if s == "" || s[|s| - 1] == '/' then "" else SplitLast(s[..|s| - 1]) + [s[|s| - 1]]
  }

  function TrimSlashes(s: string): string {
    if s != "" && s[|s| - 1] == '/' then TrimSlashes(s[..|s| - 1]) else s
  }

  /** `basename`: the last segment of a path. */
  function Basename(path: string): string {
    SplitLast(TrimSlashes(path))
  }

  lemma {:induction false} SlashesGo(path: string, slashes: string)
    requires forall c | c in slashes :: c == '/'
    requires path == "" || path[|path| - 1] != '/'
    ensures TrimSlashes(path + slashes) == path
  {
    if slashes == "" {
      assert path + slashes == path;
    } else {
      var n := |slashes| - 1;
      assert slashes[n] in slashes && forall c | c in slashes[..n] :: c in slashes;
      assert (path + slashes)[..|path + slashes| - 1] == path + slashes[..n];
      SlashesGo(path, slashes[..n]);
    }
  }

  lemma {:induction false} LastSegment(dir: string, name: string)
    requires '/' !in name
    requires dir == "" || dir[|dir| - 1] == '/'
    ensures SplitLast(dir + name) == name
  {
    if name == "" {
      assert dir + name == dir;
    } else {
      var n := |name| - 1;
      var path := dir + name;
      assert name[n] in name && path[|path| - 1] == name[n];
      SegmentGrows(path);
      hide SplitLast;
      assert path[..|path| - 1] == dir + name[..n];
      assert forall c | c in name[..n] :: c in name;
      LastSegment(dir, name[..n]);
      assert name == name[..n] + [name[n]];
    }
  }

  lemma SegmentGrows(path: string)
    requires path != "" && path[|path| - 1] != '/'
    ensures SplitLast(path) == SplitLast(path[..|path| - 1]) + [path[|path| - 1]]
  {
  }

  /** Whatever directories lead to a name and whatever slashes follow it, the command is the name. */
  lemma BasenameIs(dir: string, name: string, slashes: string)
    requires name != "" && '/' !in name && forall c | c in slashes :: c == '/'
    requires dir == "" || dir[|dir| - 1] == '/'
    ensures Basename(dir + name + slashes) == name
  {
    assert name[|name| - 1] in name;
    SlashesGo(dir + name, slashes);
    LastSegment(dir, name);
  }

  /** Only slashes name nothing. */
  lemma NoName(slashes: string)
    requires forall c | c in slashes :: c == '/'
    ensures Basename(slashes) == ""
  {
    assert "" + slashes == slashes;
    SlashesGo("", slashes);
  }

  /** A word the command it precedes is looked for past. */
  predicate Skipped(word: string, prefixed: bool) {
    word in Prefixes || IsAssignment(word) || (prefixed && "-" <= word)
  }

  datatype Call = Call(name: string, args: Args)

  /** Where the command of a simple command is. */
  function CommandAt(words: Args, prefixed: bool): (at: nat)
    ensures at <= |words|
  {
    if words == [] || !Skipped(words[0], prefixed) then 0
    else 1 + CommandAt(words[1..], prefixed || words[0] in Prefixes)
  }

  function Invoked(words: Args): Option<Call> {
    var at := CommandAt(words, false);
    if at < |words| then Some(Call(Basename(words[at]), words[at + 1..])) else None
  }

  method Invocation(words: Args) returns (call: Option<Call>)
    ensures call == Invoked(words)
  {
    var at := 0;
    var prefixed := false;
    while at < |words|
      invariant 0 <= at <= |words|
      invariant CommandAt(words, false) == at + CommandAt(words[at..], prefixed)
    {
      var word := words[at];
      assert words[at..][1..] == words[at + 1..];
      if word in Prefixes {
        prefixed := true;
      } else if !IsAssignment(word) && !(prefixed && "-" <= word) {
        break;
      }
      at := at + 1;
    }
    assert words[|words|..] == [];
    if at == |words| {
      return None;
    }
    call := Some(Call(Basename(words[at]), words[at + 1..]));
  }

  /** Some earlier word is a prefix. */
  predicate PrefixedAt(words: Args, at: nat)
    requires at <= |words|
  {
    exists j :: 0 <= j < at && words[j] in Prefixes
  }

  lemma {:induction false} CommandAtFirst(words: Args, prefixed: bool)
    ensures var at := CommandAt(words, prefixed);
            && (forall k :: 0 <= k < at ==> Skipped(words[k], prefixed || PrefixedAt(words, k)))
            && (at < |words| ==> !Skipped(words[at], prefixed || PrefixedAt(words, at)))
  {
    hide Skipped;
    if words != [] && Skipped(words[0], prefixed) {
      var rest := words[1..];
      var prefixed' := prefixed || words[0] in Prefixes;
      CommandAtFirst(rest, prefixed');
      forall k: nat | k <= |rest|
        ensures (prefixed' || PrefixedAt(rest, k)) == (prefixed || PrefixedAt(words, k + 1))
      {
        if PrefixedAt(rest, k) {
          var j :| 0 <= j < k && rest[j] in Prefixes;
          assert words[j + 1] in Prefixes;
        }
        if PrefixedAt(words, k + 1) && words[0] !in Prefixes {
          var j :| 0 <= j < k + 1 && words[j] in Prefixes;
          assert rest[j - 1] in Prefixes;
        }
      }
      assert !PrefixedAt(words, 0);
      forall k | 0 <= k < CommandAt(words, prefixed)
        ensures Skipped(words[k], prefixed || PrefixedAt(words, k))
      {
        assert k > 0 ==> words[k] == rest[k - 1];
      }
    }
  }

  /** The command is the first word that is no assignment, no prefix and no option of a prefix. */
  lemma InvocationIsFirst(words: Args, at: nat)
    requires at < |words|
    requires forall k :: 0 <= k < at ==> Skipped(words[k], PrefixedAt(words, k))
    requires !Skipped(words[at], PrefixedAt(words, at))
    ensures Invoked(words) == Some(Call(Basename(words[at]), words[at + 1..]))
  {
    hide Skipped;
    CommandAtFirst(words, false);
  }

  // ---------------------------------------------------------------- operands

  function Index(args: Args, word: string): (k: nat)
    ensures k <= |args|
    ensures k < |args| ==> args[k] == word
    ensures forall j :: 0 <= j < k ==> args[j] != word
  {
    if args == [] || args[0] == word then 0 else 1 + Index(args[1..], word)
  }

  function NoOptions(args: Args): Args {
    if args == [] then [] else (if "-" <= args[0] then [] else [args[0]]) + NoOptions(args[1..])
  }

  function Operands(args: Args): Args {
    var end := Index(args, "--");
    if end == |args| then NoOptions(args) else NoOptions(args[..end]) + args[end + 1..]
  }

  /** An argument is an operand when it starts with no dash, or when a `--` comes before it. */
  predicate IsOperand(args: Args, k: nat)
    requires k < |args|
  {
    !("-" <= args[k]) || exists j :: 0 <= j < k && args[j] == "--"
  }

  lemma {:induction false} NoOptionsHolds(args: Args, word: string)
    ensures word in NoOptions(args) <==> word in args && !("-" <= word)
  {
    if args != [] {
      NoOptionsHolds(args[1..], word);
      assert word in args <==> word == args[0] || word in args[1..];
    }
  }

  /** `operands` keeps exactly the operands. */
  lemma OperandsHold(args: Args, word: string)
    ensures word in Operands(args) <==> exists k :: 0 <= k < |args| && args[k] == word && IsOperand(args, k)
  {
    hide NoOptions;
    var end := Index(args, "--");
    NoOptionsHolds(args[..end], word);
    NoOptionsHolds(args, word);
    if word in Operands(args) {
      if word in args[..end] && !("-" <= word) {
        var k :| 0 <= k < end && args[..end][k] == word;
        assert args[k] == word && IsOperand(args, k);
      } else if end < |args| {
        var k :| 0 <= k < |args[end + 1..]| && args[end + 1..][k] == word;
        assert args[end + 1 + k] == word && IsOperand(args, end + 1 + k);
      }
    }
    if k :| 0 <= k < |args| && args[k] == word && IsOperand(args, k) {
      if k < end {
        assert word == args[..end][k];
      } else if k > end {
        assert word == args[end + 1..][k - end - 1];
      }
    }
  }

  const TargetDirectory := "--target-directory="

  function NamedDirectories(args: Args): Args {
    if args == [] then []
    else (if TargetDirectory <= args[0] then [args[0][|TargetDirectory|..]] else []) + NamedDirectories(args[1..])
  }

  function CopyOperands(args: Args): Args {
    Operands(args) + NamedDirectories(args)
  }

  lemma {:induction false} NamedDirectoriesHold(args: Args, dir: string)
    ensures dir in NamedDirectories(args) <==> TargetDirectory + dir in args
  {
    if args != [] {
      NamedDirectoriesHold(args[1..], dir);
      assert TargetDirectory + dir in args <==> TargetDirectory + dir == args[0] || TargetDirectory + dir in args[1..];
      if TargetDirectory <= args[0] {
        assert args[0] == TargetDirectory + args[0][|TargetDirectory|..];
        assert (TargetDirectory + dir)[|TargetDirectory|..] == dir;
      }
    }
  }

  // ----------------------------------------------------------- perl in place

  predicate IsValueless(c: char) {
    IsDigit(c) || c in "achlnpsStTuUvwWX"
  }

  /** What a cluster of switches says: edit in place, inline code, and whether its value is the next argument. */
  datatype Cluster = Cluster(inPlace: bool, inlineCode: bool, takesNext: bool)

  function ReadCluster(switches: string): Cluster {
    if switches == "" then Cluster(false, false, false)
    else if IsValueless(switches[0]) then ReadCluster(switches[1..])
    else
      var c := switches[0];
      Cluster(c == 'i', c == 'e' || c == 'E', (c == 'e' || c == 'E' || c == 'I') && |switches| == 1)
  }

  /** Where the switches end, and what they said. */
  datatype Switches = Switches(inPlace: bool, inlineCode: bool, rest: Args)

  predicate EndsSwitches(arg: string) {
    !("-" <= arg) || arg == "-"
  }

  function ReadSwitches(args: Args, inPlace: bool, inlineCode: bool): Switches
    decreases |args|
  {
    if args == [] then Switches(inPlace, inlineCode, [])
    else if args[0] == "--" then Switches(inPlace, inlineCode, args[1..])
    else if EndsSwitches(args[0]) then Switches(inPlace, inlineCode, args)
    else
      var cluster := ReadCluster(args[0][1..]);
      var skip := if cluster.takesNext && |args| > 1 then 2 else 1;
      ReadSwitches(args[skip..], inPlace || cluster.inPlace, inlineCode || cluster.inlineCode)
  }

  function PerlFiles(args: Args): Args {
    var s := ReadSwitches(args, false, false);
    if !s.inPlace then []
    else if s.inlineCode then s.rest
    else if s.rest == [] then [] else s.rest[1..]
  }

  method PerlInPlaceFiles(args: Args) returns (files: Args)
    ensures files == PerlFiles(args)
  {
    hide ReadCluster;
    var inPlace, inlineCode := false, false;
    var i := 0;
    while i < |args|
      invariant 0 <= i
      invariant ReadSwitches(From(args, i), inPlace, inlineCode) == ReadSwitches(args, false, false)
      decreases |args| - i
    {
      var arg := args[i];
      SliceSteps(args, i);
      if arg == "--" {
        i := i + 1;
        break;
      }
      if !("-" <= arg) || arg == "-" {
        break;
      }
      var cluster := ReadArgument(arg);
      inPlace := inPlace || cluster.inPlace;
      inlineCode := inlineCode || cluster.inlineCode;
      if cluster.takesNext {
        i := i + 1;
      }
      i := i + 1;
    }
    if !inPlace {
      return [];
    }
    files := From(args, if inlineCode then i else i + 1);
  }

  /** `args.slice(i)`. */
  function From(args: Args, i: nat): Args {
    if i > |args| then [] else args[i..]
  }

  lemma SliceSteps(args: Args, i: nat)
    requires i < |args|
    ensures From(args, i) == args[i..] && args[i..][1..] == From(args, i + 1)
    ensures |args[i..]| > 1 ==> args[i..][2..] == From(args, i + 2)
    ensures |args[i..]| <= 1 ==> args[i..][1..] == From(args, i + 2)
  {
  }

  /** The switches of one argument, read past its dash until one that takes a value. */
  method ReadArgument(arg: string) returns (cluster: Cluster)
    requires "-" <= arg
    ensures cluster == ReadCluster(arg[1..])
  {
    cluster := Cluster(false, false, false);
    var k := 1;
    while k < |arg|
      invariant 1 <= k <= |arg|
      invariant cluster == Cluster(false, false, false)
      invariant ReadCluster(arg[k..]) == ReadCluster(arg[1..])
    {
      var c := arg[k];
      assert arg[k..][1..] == arg[k + 1..];
      if !IsValueless(c) {
        return Cluster(c == 'i', c == 'e' || c == 'E', (c == 'e' || c == 'E' || c == 'I') && k == |arg| - 1);
      }
      k := k + 1;
    }
  }

  /** One argument of a perl call, as a caller writes it. */
  datatype PerlSwitch =
    | Flags(flags: string)
    | InPlace(flags: string, suffix: string)
    | Valued(flags: string, switch: char, value: string)
    | Code(flags: string, switch: char, value: string, glued: bool)
  {
    predicate Legal() {
      && (forall c | c in flags :: IsValueless(c))
      && match this
         case Flags(flags) => flags != ""
         case InPlace(_, _) => true
         case Valued(_, switch, value) =>
           (!IsValueless(switch) && switch !in "ieEI-") || (switch == 'I' && value != "")
         case Code(_, switch, value, glued) => switch in "eEI" && (glued ==> value != "")
    }

    function Print(): Args {
      match this
      case Flags(flags) => ["-" + flags]
      case InPlace(flags, suffix) => ["-" + (flags + ("i" + suffix))]
      case Valued(flags, switch, value) => ["-" + (flags + ([switch] + value))]
      case Code(flags, switch, value, glued) =>
        if glued then ["-" + (flags + ([switch] + value))] else ["-" + (flags + [switch]), value]
    }

    predicate IsCode() {
      Code? && switch != 'I'
    }
  }

  function PrintSwitches(switches: seq<PerlSwitch>): Args {
    if switches == [] then [] else switches[0].Print() + PrintSwitches(switches[1..])
  }

  lemma {:induction false} ClusterAfterFlags(flags: string, rest: string)
    requires forall c | c in flags :: IsValueless(c)
    ensures ReadCluster(flags + rest) == ReadCluster(rest)
  {
    if flags == "" {
      assert flags + rest == rest;
    } else {
      assert flags[0] in flags && (flags + rest)[1..] == flags[1..] + rest;
      ClusterAfterFlags(flags[1..], rest);
    }
  }

  lemma NotValueless(c: char)
    requires c in "ieEI"
    ensures !IsValueless(c)
  {
    assert c == 'i' || c == 'e' || c == 'E' || c == 'I';
  }

  lemma OneSwitch(s: PerlSwitch, rest: Args, inPlace: bool, inlineCode: bool)
    requires s.Legal()
    ensures ReadSwitches(s.Print() + rest, inPlace, inlineCode)
         == ReadSwitches(rest, inPlace || s.InPlace?, inlineCode || s.IsCode())
  {
    hide ReadCluster, IsValueless;
    var tail := match s
      case Flags(_) => ""
      case InPlace(_, suffix) => "i" + suffix
      case Valued(_, switch, value) => [switch] + value
      case Code(_, switch, value, glued) => if glued then [switch] + value else [switch];
    var arg := s.Print()[0];
    assert arg == "-" + (s.flags + tail) by {
      if s.Flags? { assert s.flags + tail == s.flags; }
    }
    assert arg[1..] == s.flags + tail;
    ClusterAfterFlags(s.flags, tail);
    SwitchTail(s, tail);
    assert arg != "-" && arg != "--" by { SwitchIsNoDash(s, tail); }
    var args := s.Print() + rest;
    if s.Code? && !s.glued {
      assert args[2..] == rest;
    } else {
      assert args[1..] == rest;
    }
  }

  lemma SwitchTail(s: PerlSwitch, tail: string)
    requires s.Legal()
    requires tail == match s
      case Flags(_) => ""
      case InPlace(_, suffix) => "i" + suffix
      case Valued(_, switch, value) => [switch] + value
      case Code(_, switch, value, glued) => if glued then [switch] + value else [switch]
    ensures ReadCluster(tail) == Cluster(s.InPlace?, s.IsCode(), s.Code? && !s.glued)
  {
    hide IsValueless;
    match s
    case Flags(_) =>
    case InPlace(_, _) => NotValueless('i');
    case Valued(_, switch, _) => if switch == 'I' { NotValueless('I'); }
    case Code(_, switch, _, _) => NotValueless(switch);
  }

  lemma SwitchIsNoDash(s: PerlSwitch, tail: string)
    requires s.Legal() && (s.Flags? || (tail != "" && tail[0] != '-'))
    requires s.Flags? ==> tail == ""
    ensures "-" + (s.flags + tail) != "-" && "-" + (s.flags + tail) != "--"
  {
    var arg := "-" + (s.flags + tail);
    if s.flags != "" {
      assert arg[1] == s.flags[0] && s.flags[0] in s.flags;
    } else {
      assert arg[1] == tail[0];
    }
  }

  predicate SomeInPlace(switches: seq<PerlSwitch>) {
    exists s | s in switches :: s.InPlace?
  }

  predicate SomeCode(switches: seq<PerlSwitch>) {
    exists s | s in switches :: s.IsCode()
  }

  lemma {:induction false} SwitchesRead(switches: seq<PerlSwitch>, rest: Args, inPlace: bool, inlineCode: bool)
    requires forall s | s in switches :: s.Legal()
    ensures ReadSwitches(PrintSwitches(switches) + rest, inPlace, inlineCode)
         == ReadSwitches(rest, inPlace || SomeInPlace(switches), inlineCode || SomeCode(switches))
  {
    hide ReadSwitches;
    if switches == [] {
      assert PrintSwitches(switches) + rest == rest;
    } else {
      var next := PrintSwitches(switches[1..]) + rest;
      assert PrintSwitches(switches) + rest == switches[0].Print() + next;
      assert switches[0] in switches;
      assert forall s :: s in switches <==> s == switches[0] || s in switches[1..];
      OneSwitch(switches[0], next, inPlace, inlineCode);
      SwitchesRead(switches[1..], rest, inPlace || switches[0].InPlace?, inlineCode || switches[0].IsCode());
    }
  }

  /** What follows the switches: the script, unless code was given inline, and the files. */
  function PerlOperands(switches: seq<PerlSwitch>, script: string, files: Args): Args {
    (if SomeCode(switches) then [] else [script]) + files
  }

  /**
   The files perl would edit: whatever switches a call carries, in whatever
   clusters, exactly its files are found, and only under `-i`; the script, when no
   code is given inline, is not one of them.
   */
  lemma PerlRoundTrip(switches: seq<PerlSwitch>, dashes: bool, script: string, files: Args)
    requires forall s | s in switches :: s.Legal()
    requires dashes || PerlOperands(switches, script, files) == []
             || EndsSwitches(PerlOperands(switches, script, files)[0])
    ensures PerlFiles(PrintSwitches(switches) + ((if dashes then ["--"] else []) + PerlOperands(switches, script, files)))
         == if SomeInPlace(switches) then files else []
  {
    hide SomeInPlace, SomeCode;
    var operands := PerlOperands(switches, script, files);
    var rest := (if dashes then ["--"] else []) + operands;
    SwitchesRead(switches, rest, false, false);
    if dashes {
      assert rest[1..] == operands;
    } else {
      assert rest == operands;
    }
    if SomeCode(switches) {
      assert operands == files;
    } else {
      assert operands[1..] == files;
    }
  }

  // ------------------------------------------------------------ touched paths

  datatype Touched = Touched(how: string, path: string)

  function Files(call: Call): Args {
    if call.name == "tee" || call.name == "rm" then Operands(call.args)
    else if call.name == "mv" || call.name == "cp" then CopyOperands(call.args)
    else if call.name == "perl" then PerlFiles(call.args)
    else []
  }

  function Label(how: string, paths: Args): seq<Touched> {
    if paths == [] then [] else [Touched(how, paths[0])] + Label(how, paths[1..])
  }

  /** What one simple command names. */
  function NamedBy(words: Args): seq<Touched> {
    match Invoked(words)
    case None => []
    case Some(call) => Label(if call.name == "perl" then "perl -i" else call.name, Files(call))
  }

  function NamedByAll(commands: seq<Args>): seq<Touched> {
    if commands == [] then [] else NamedBy(commands[0]) + NamedByAll(commands[1..])
  }

  /** Every output target, then every path a command names. */
  function TouchedPaths(command: string): seq<Touched> {
    var line := ShellLine.Parsed(command);
    Label(">", line.outputs) + NamedByAll(line.commands)
  }

  lemma {:induction false} Labelled(how: string, paths: Args, touched: Touched)
    ensures touched in Label(how, paths) <==> touched.how == how && touched.path in paths
  {
    if paths != [] {
      Labelled(how, paths[1..], touched);
    }
  }

  lemma {:induction false} NamedByAllExactly(commands: seq<Args>, touched: Touched)
    ensures touched in NamedByAll(commands) <==> exists words :: words in commands && touched in NamedBy(words)
  {
    hide NamedBy;
    if commands != [] {
      NamedByAllExactly(commands[1..], touched);
      assert commands == [commands[0]] + commands[1..];
    }
  }

  /** The simple commands of a script. */
  predicate CommandOf(script: seq<ShellLine.Ended>, last: ShellLine.Command, command: ShellLine.Command) {
    command == last || exists i :: 0 <= i < |script| && script[i].command == command
  }

  lemma WithCommandAdds(before: ShellLine.Line, command: ShellLine.Command)
    ensures var after := ShellLine.WithCommand(before, command);
            && (forall words | words in before.commands :: words in after.commands)
            && (forall o | o in before.outputs :: o in after.outputs)
            && (ShellLine.CommandWords(command) != [] ==> ShellLine.CommandWords(command) in after.commands)
            && (forall o | o in ShellLine.CommandOutputs(command) :: o in after.outputs)
  {
    hide ShellLine.CommandWords, ShellLine.CommandOutputs;
    var words := ShellLine.CommandWords(command);
    assert words in before.commands + [words];
  }

  /** What survives of a command of the script, and each of its outputs, is in what the reader hears. */
  lemma {:induction false} HeardHolds(
    script: seq<ShellLine.Ended>, last: ShellLine.Command, before: ShellLine.Line, command: ShellLine.Command)
    requires CommandOf(script, last, command)
    ensures var heard := ShellLine.Heard(script, last, before);
            var kept := ShellLine.Survivors(command);
            && (ShellLine.CommandWords(kept) != [] ==> ShellLine.CommandWords(kept) in heard.commands)
            && (forall o | o in ShellLine.CommandOutputs(kept) :: o in heard.outputs)
    decreases |script|
  {
    hide ShellLine.CommandWords, ShellLine.CommandOutputs, ShellLine.WithCommand, ShellLine.Survivors;
    WithCommandAdds(before, ShellLine.Survivors(command));
    if script != [] {
      var after := ShellLine.WithCommand(before, ShellLine.Survivors(script[0].command));
      if script[0].command == command {
        HeardGrows(script[1..], last, after);
      } else {
        if command != last {
          var i :| 0 <= i < |script| && script[i].command == command;
          assert script[1..][i - 1].command == command;
        }
        HeardHolds(script[1..], last, after, command);
      }
    }
  }

  lemma {:induction false} HeardGrows(script: seq<ShellLine.Ended>, last: ShellLine.Command, before: ShellLine.Line)
    ensures var heard := ShellLine.Heard(script, last, before);
            && (forall words | words in before.commands :: words in heard.commands)
            && (forall o | o in before.outputs :: o in heard.outputs)
    decreases |script|
  {
    hide ShellLine.CommandWords, ShellLine.CommandOutputs, ShellLine.WithCommand, ShellLine.Survivors;
    var command := ShellLine.Survivors(if script == [] then last else script[0].command);
    WithCommandAdds(before, command);
    if script != [] {
      HeardGrows(script[1..], last, ShellLine.WithCommand(before, command));
    }
  }

  lemma {:induction false} HeardOnly(script: seq<ShellLine.Ended>, last: ShellLine.Command, before: ShellLine.Line)
    ensures var heard := ShellLine.Heard(script, last, before);
      && (forall words | words in heard.commands :: words in before.commands || FromCommand(script, last, words))
      && (forall o | o in heard.outputs :: o in before.outputs || OutputOf(script, last, o))
    decreases |script|
  {
    hide ShellLine.CommandWords, ShellLine.CommandOutputs, ShellLine.Survivors;
    if script == [] {
      assert CommandOf(script, last, last);
    } else {
      var command := script[0].command;
      assert CommandOf(script, last, command);
      HeardOnly(script[1..], last, ShellLine.WithCommand(before, ShellLine.Survivors(command)));
      RestFrom(script, last);
      assert FromCommand(script, last, ShellLine.CommandWords(ShellLine.Survivors(command)));
      forall o | o in ShellLine.CommandOutputs(ShellLine.Survivors(command)) ensures OutputOf(script, last, o) {
      }
    }
  }

  /** What is of the rest of a script is of the script. */
  lemma RestFrom(script: seq<ShellLine.Ended>, last: ShellLine.Command)
    requires script != []
    ensures forall words | FromCommand(script[1..], last, words) :: FromCommand(script, last, words)
    ensures forall path | OutputOf(script[1..], last, path) :: OutputOf(script, last, path)
  {
    hide ShellLine.CommandWords, ShellLine.CommandOutputs, ShellLine.Survivors;
    forall c | CommandOf(script[1..], last, c) ensures CommandOf(script, last, c) {
      if c != last {
        var i :| 0 <= i < |script| - 1 && script[1..][i].command == c;
        assert script[i + 1].command == c;
      }
    }
  }

  /** The words are what the reader keeps of a command of the script. */
  ghost predicate FromCommand(script: seq<ShellLine.Ended>, last: ShellLine.Command, words: Args) {
    exists command :: CommandOf(script, last, command) && words == ShellLine.CommandWords(ShellLine.Survivors(command))
  }

  ghost predicate OutputOf(script: seq<ShellLine.Ended>, last: ShellLine.Command, path: string) {
    exists command :: CommandOf(script, last, command) && path in ShellLine.CommandOutputs(ShellLine.Survivors(command))
  }

  /** What a call touches: operands, a target directory, the files perl edits in place. */
  ghost predicate Touches(call: Call, touched: Touched) {
    || (call.name in {"rm", "mv", "cp", "tee"} && touched.how == call.name
        && exists k :: 0 <= k < |call.args| && call.args[k] == touched.path && IsOperand(call.args, k))
    || (call.name in {"mv", "cp"} && touched.how == call.name && TargetDirectory + touched.path in call.args)
    || (call.name == "perl" && touched.how == "perl -i" && touched.path in PerlFiles(call.args))
  }

  lemma NamedByExactly(words: Args, touched: Touched)
    ensures touched in NamedBy(words) <==> Invoked(words).Some? && Touches(Invoked(words).value, touched)
  {
    hide Invoked, Operands, NamedDirectories, PerlFiles, IsOperand;
    if Invoked(words).Some? {
      var call := Invoked(words).value;
      Labelled(if call.name == "perl" then "perl -i" else call.name, Files(call), touched);
      OperandsHold(call.args, touched.path);
      NamedDirectoriesHold(call.args, touched.path);
    }
  }

  /**
   What is reported of a printed script, and nothing else: the files its commands
   send output to, and what each command's call touches, of the words the reader
   keeps.
   */
  lemma TouchedExactly(script: seq<ShellLine.Ended>, last: ShellLine.Command, touched: Touched)
    requires ShellLine.LegalScript(script) && ShellLine.LegalCommand(last)
    ensures touched in TouchedPaths(ShellLine.PrintScript(script, last))
      <==> || (touched.how == ">" && OutputOf(script, last, touched.path))
           || (exists words :: FromCommand(script, last, words)
                 && Invoked(words).Some? && Touches(Invoked(words).value, touched))
  {
    hide ShellLine.Parsed, ShellLine.PrintScript, ShellLine.Heard, ShellLine.Survivors;
    hide ShellLine.CommandWords, ShellLine.CommandOutputs, Invoked, NamedBy, Touches, NamedByAll, Label;
    var line := ShellLine.Parsed(ShellLine.PrintScript(script, last));
    ShellLine.ShellRoundTrip(script, last);
    HeardOnly(script, last, ShellLine.Line([], []));
    Labelled(">", line.outputs, touched);
    NamedByAllExactly(line.commands, touched);
    forall words ensures touched in NamedBy(words) <==> Invoked(words).Some? && Touches(Invoked(words).value, touched) {
      NamedByExactly(words, touched);
    }
    forall command | CommandOf(script, last, command)
      ensures forall o | o in ShellLine.CommandOutputs(ShellLine.Survivors(command)) :: o in line.outputs
      ensures Invoked(ShellLine.CommandWords(ShellLine.Survivors(command))).Some? ==>
        ShellLine.CommandWords(ShellLine.Survivors(command)) in line.commands
    {
      HeardHolds(script, last, ShellLine.Line([], []), command);
      NothingInvoked();
    }
  }

  /** Every file a command sends output to, and all its call touches, is among the touched. */
  ghost predicate Reported(touched: seq<Touched>, command: ShellLine.Command) {
    var call := Invoked(ShellLine.CommandWords(command));
    && (forall o | o in ShellLine.CommandOutputs(command) :: Touched(">", o) in touched)
    && forall t | call.Some? && Touches(call.value, t) :: t in touched
  }

  /**
   Nothing a printed script touches is missed: every file it sends output to, and,
   for each of its commands that is an `rm`, `mv`, `cp`, `tee` or `perl -i` by
   whatever path and behind whatever prefixes, every operand, target directory or
   edited file. A word of digits with a redirection glued to it is the one
   exception.
   */
  lemma NothingTouchedIsMissed(script: seq<ShellLine.Ended>, last: ShellLine.Command, command: ShellLine.Command)
    requires ShellLine.LegalScript(script) && ShellLine.LegalCommand(last) && CommandOf(script, last, command)
    ensures Reported(TouchedPaths(ShellLine.PrintScript(script, last)), ShellLine.Survivors(command))
    ensures ShellLine.LosesNothing(command) ==> Reported(TouchedPaths(ShellLine.PrintScript(script, last)), command)
  {
    hide TouchedPaths, ShellLine.PrintScript, ShellLine.Survivors, ShellLine.LosesNothing;
    hide ShellLine.CommandWords, ShellLine.CommandOutputs, Invoked, Touches;
    var text := ShellLine.PrintScript(script, last);
    var words := ShellLine.CommandWords(ShellLine.Survivors(command));
    ShellLine.SurvivorsSize(command);
    assert FromCommand(script, last, words);
    forall o | o in ShellLine.CommandOutputs(ShellLine.Survivors(command)) ensures Touched(">", o) in TouchedPaths(text) {
      TouchedExactly(script, last, Touched(">", o));
    }
    forall t | Invoked(words).Some? && Touches(Invoked(words).value, t) ensures t in TouchedPaths(text) {
      TouchedExactly(script, last, t);
    }
  }

  /** A perl call of a printed script: exactly its files are reported of it, and only under `-i`. */
  lemma PerlFilesTouched(
    script: seq<ShellLine.Ended>, last: ShellLine.Command, command: ShellLine.Command, switches: seq<PerlSwitch>,
    dashes: bool, code: string, files: Args, file: string)
    requires ShellLine.LegalScript(script) && ShellLine.LegalCommand(last) && CommandOf(script, last, command)
    requires ShellLine.LosesNothing(command) && forall s | s in switches :: s.Legal()
    requires dashes || PerlOperands(switches, code, files) == [] || EndsSwitches(PerlOperands(switches, code, files)[0])
    requires Invoked(ShellLine.CommandWords(command)) == Some(Call("perl",
      PrintSwitches(switches) + ((if dashes then ["--"] else []) + PerlOperands(switches, code, files))))
    ensures var call := Invoked(ShellLine.CommandWords(command)).value;
      forall how :: Touches(call, Touched(how, file)) <==> how == "perl -i" && SomeInPlace(switches) && file in files
    ensures SomeInPlace(switches) && file in files ==>
      Touched("perl -i", file) in TouchedPaths(ShellLine.PrintScript(script, last))
  {
    hide TouchedPaths, ShellLine.PrintScript, ShellLine.Survivors, ShellLine.LosesNothing, PerlFiles, PrintSwitches, PerlOperands;
    hide ShellLine.CommandWords, ShellLine.CommandOutputs, Invoked, SomeInPlace;
    PerlRoundTrip(switches, dashes, code, files);
    NothingTouchedIsMissed(script, last, command);
    var call := Invoked(ShellLine.CommandWords(command)).value;
    assert SomeInPlace(switches) && file in files ==> Touches(call, Touched("perl -i", file));
  }

  const Rm := ShellLine.Arg([ShellLine.Bare("rm")])

  const Two := ShellLine.Arg([ShellLine.Double("2")])

  const ToLog := ShellLine.Redirection(true, "", ShellLine.Write, true, [ShellLine.Bare("log")])

  /** The file `2` of `rm "2">log` is not reported: the reader takes it for a descriptor. */
  lemma DigitsTakenForDescriptor()
    ensures ShellLine.LegalCommand([Rm, Two, ToLog]) && ShellLine.PrintScript([], [Rm, Two, ToLog]) == " rm \"2\">log"
    ensures ShellLine.CommandWords([Rm, Two, ToLog]) == ["rm", "2"]
    ensures TouchedPaths(" rm \"2\">log") == [Touched(">", "log")]
  {
    hide TouchedPaths, ShellLine.Survivors, ShellLine.PrintCommand, ShellLine.CommandWords, ShellLine.CommandOutputs;
    RemoveTwo();
    ShellLine.ShellRoundTrip([], [Rm, Two, ToLog]);
    OnlyLog();
  }

  lemma RemoveTwo()
    ensures ShellLine.LegalCommand([Rm, Two, ToLog]) && ShellLine.PrintCommand([Rm, Two, ToLog]) == " rm \"2\">log"
    ensures ShellLine.CommandWords([Rm, Two, ToLog]) == ["rm", "2"]
    ensures ShellLine.CommandWords(ShellLine.Survivors([Rm, Two, ToLog])) == ["rm"]
    ensures ShellLine.CommandOutputs(ShellLine.Survivors([Rm, Two, ToLog])) == ["log"]
  {
    hide ShellLine.PrintCommand, ShellLine.CommandWords, ShellLine.CommandOutputs, ShellLine.Survivors;
    hide ShellLine.WordText, ShellLine.PrintWord, ShellLine.IsNumber, ShellLine.Item.Print;
    ItemsOfRemoveTwo();
    NothingYet();
    ThreeItems();
    TwoClaimed();
    ShellLine.CommandNext([Rm], ToLog);
    assert [Rm] + [ToLog] == [Rm, ToLog];
    assert "" + (" " + "rm") + (" " + "\"2\"") + ("" + ">log") == " rm \"2\">log";
  }

  lemma ThreeItems()
    ensures ShellLine.CommandWords([Rm]) == ShellLine.CommandWords([]) + Rm.Words()
    ensures ShellLine.CommandWords([Rm, Two, ToLog]) == ShellLine.CommandWords([Rm]) + Two.Words() + ToLog.Words()
    ensures ShellLine.CommandOutputs([Rm]) == ShellLine.CommandOutputs([]) + Rm.Outputs()
    ensures ShellLine.PrintCommand([Rm, Two, ToLog])
      == ShellLine.PrintCommand([]) + (ShellLine.Gap([Rm]) + Rm.Print()) + (ShellLine.Gap([Rm, Two]) + Two.Print())
        + (ShellLine.Gap([Rm, Two, ToLog]) + ToLog.Print())
  {
    hide ShellLine.PrintCommand, ShellLine.CommandWords, ShellLine.CommandOutputs, ShellLine.Survivors, ShellLine.Gap;
    hide ShellLine.WordText, ShellLine.PrintWord, ShellLine.Item.Print, ShellLine.Item.Words, ShellLine.Item.Outputs;
    ShellLine.CommandNext([], Rm);
    ShellLine.CommandNext([Rm], Two);
    ShellLine.CommandNext([Rm, Two], ToLog);
    assert [] + [Rm] == [Rm] && [Rm] + [Two] == [Rm, Two] && [Rm, Two] + [ToLog] == [Rm, Two, ToLog];
  }

  lemma TwoClaimed()
    ensures ShellLine.Survivors([Rm, Two, ToLog]) == [Rm, ToLog]
  {
    hide ShellLine.PrintCommand, ShellLine.CommandWords, ShellLine.CommandOutputs, ShellLine.Survivors, ShellLine.Gap;
    hide ShellLine.WordText, ShellLine.PrintWord, ShellLine.Item.Print, ShellLine.Item.Words, ShellLine.Item.Outputs;
    hide ShellLine.IsNumber;
    ItemsOfRemoveTwo();
    NothingYet();
    ShellLine.CommandNext([], Rm);
    ShellLine.CommandNext([Rm], Two);
    ShellLine.CommandNext([Rm, Two], ToLog);
    assert [] + [Rm] == [Rm] && [Rm] + [Two] == [Rm, Two] && [Rm, Two] + [ToLog] == [Rm, Two, ToLog];
    assert ShellLine.Survivors([Rm]) == [Rm];
    assert ShellLine.Survivors([Rm, Two]) == [Rm, Two];
    assert [Rm, Two][..1] == [Rm];
  }

  lemma NothingYet()
    ensures ShellLine.PrintCommand([]) == "" && ShellLine.CommandWords([]) == [] && ShellLine.CommandOutputs([]) == []
    ensures ShellLine.Survivors([]) == []
  {
  }

  lemma ItemsOfRemoveTwo()
    ensures Rm.Legal() && Two.Legal() && ToLog.Legal()
    ensures Rm.Print() == "rm" && Two.Print() == "\"2\"" && ToLog.Print() == ">log"
    ensures Rm.Text() == "rm" && Two.Text() == "2" && ToLog.Text() == "log"
    ensures ShellLine.IsNumber("2") && !ShellLine.IsNumber("rm")
  {
    ShellLine.OnePiece(ShellLine.Bare("rm"));
    ShellLine.OnePiece(ShellLine.Double("2"));
    ShellLine.OnePiece(ShellLine.Bare("log"));
    assert "2"[1..] == "" && ShellLine.EscapeDouble("2") == "2";
    assert 'r' in "rm" by { assert "rm"[0] == 'r'; }
  }

  lemma OnlyLog()
    ensures forall command: string |
      ShellLine.Parsed(command) == ShellLine.Line([["rm"]], ["log"]) :: TouchedPaths(command) == [Touched(">", "log")]
  {
  }

  lemma NothingInvoked()
    ensures Invoked([]) == None
  {
  }
}
