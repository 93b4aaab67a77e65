/**
 How a list of checker names travels to a remote machine: argument list of a pod, text of a systemd
 unit on the host, or one SSH command line, and back to the list the remote process collects.
 */
module CommandTransport {
  import opened Collections
  import opened GoStrings

  const NAME := "kdebug"
  const KDEBUG := "/" + NAME
  const POD_FLAGS := ["-f", "json", "--no-set-exit-code", "-v", "none"]
  const RUN_AS_HOST := "/run-as-host"
  const OUTPUT_FILE := "/tmp/kdebug.stdout.log"
  const SSH_COMMAND := "/tmp/kdebug -f json --no-set-exit-code"

  /** The names the checker registry uses. */
  predicate RegistryName(name: string) {
    name != "" && forall k :: 0 <= k < |name| ==> 'a' <= name[k] <= 'z'
  }

  ghost predicate RegistryNames(names: seq<string>) {
    forall k :: 0 <= k < |names| ==> RegistryName(names[k])
  }

  /** A character to which neither systemd nor the shell gives a meaning, and the space between words. */
  predicate Ordinary(c: char) {
    'a' <= c <= 'z' || 'A' <= c <= 'Z' || '0' <= c <= '9' || c in "-_./:,@+ "
  }

  ghost predicate OrdinaryNames(names: seq<string>) {
    forall k, j :: 0 <= k < |names| && 0 <= j < |names[k]| ==> Ordinary(names[k][j])
  }

  // ----- the sending side

  function CheckArgs(checkers: seq<string>): seq<string> {
    if checkers == [] then [] else CheckArgs(checkers[..|checkers|-1]) + ["-c", checkers[|checkers|-1]]
  }

  function PodCommand(checkers: seq<string>): seq<string> {
    [KDEBUG] + POD_FLAGS + CheckArgs(checkers)
  }

  method BuildPodCommand(checkers: seq<string>) returns (cmd: seq<string>)
    ensures cmd == PodCommand(checkers)
  {
    cmd := [KDEBUG] + POD_FLAGS;
    for i := 0 to |checkers|
      invariant cmd == PodCommand(checkers[..i])
    {
      cmd := cmd + ["-c"];
      cmd := cmd + [checkers[i]];
      assert checkers[..i+1][..i] == checkers[..i];
    }
    assert checkers[..|checkers|] == checkers;
  }

  function SshCommand(checkers: seq<string>): string {
    if checkers == [] then SSH_COMMAND
    else SshCommand(checkers[..|checkers|-1]) + (" -c " + checkers[|checkers|-1])
  }

  method BuildSshCommand(checkers: seq<string>) returns (cmd: string)
    ensures cmd == SshCommand(checkers)
  {
    cmd := SSH_COMMAND;
    for i := 0 to |checkers|
      invariant cmd == SshCommand(checkers[..i])
    {
      cmd := cmd + (" -c " + checkers[i]);
      assert checkers[..i+1][..i] == checkers[..i];
    }
    assert checkers[..|checkers|] == checkers;
  }

  // ----- run-as-host

  function StripSlashes(p: string): string {
    if p != "" && p[|p|-1] == '/' then StripSlashes(p[..|p|-1]) else p
  }

  /** path.Base */
  function PathBase(p: string): string {
    var t := StripSlashes(p);
    if p == "" then "."
    else if t == "" then "/"
    else var parts := Split(t, '/'); parts[|parts|-1]
  }

  /** path.Join("/tmp", base) */
  function UnderTmp(base: string): string {
    if base == "/" || base == "." then "/tmp"
    else if base == ".." then "/"
    else "/tmp/" + base
  }

  /** The command line written into the unit, or None when the program exits for want of arguments. */
  function HostLine(args: seq<string>): Option<string> {
    if |args| < 2 then None
    else Some(UnderTmp(PathBase(args[1])) + " " + Join(args[2..] + ["--output", OUTPUT_FILE], " "))
  }

  /** Every argument is one word. */
  ghost predicate AllWords(args: seq<string>) {
    forall k :: 0 <= k < |args| ==> IsWord(args[k])
  }

  /** The words the command line stands for: the copied binary, the arguments, the output file. */
  function HostWords(args: seq<string>): seq<string>
    requires |args| >= 2
  {
    [UnderTmp(PathBase(args[1]))] + (args[2..] + ["--output", OUTPUT_FILE])
  }

  lemma {:induction false} StripSlashesIsPrefix(p: string)
    ensures StripSlashes(p) <= p
    ensures StripSlashes(p) == "" || StripSlashes(p)[|StripSlashes(p)|-1] != '/'
  {
    if p != "" && p[|p|-1] == '/' {
      StripSlashesIsPrefix(p[..|p|-1]);
    }
  }

  lemma BaseIsWord(p: string)
    requires IsWord(p)
    ensures IsWord(PathBase(p))
  {
    var t := StripSlashes(p);
    StripSlashesIsPrefix(p);
    if t != "" {
      LastPart(t, '/');
      var base := PathBase(p);
      forall k | 0 <= k < |base|
        ensures !IsSpace(base[k])
      {
        assert base[k] in t;
      }
    }
  }

  lemma UnderTmpIsWord(base: string)
    requires IsWord(base)
    ensures IsWord(UnderTmp(base))
  {
    var tmp := "/tmp/";
    assert forall k :: 0 <= k < |tmp| ==> !IsSpace(tmp[k]);
    assert IsWord(tmp + base);
  }

  lemma HostWordsAreWords(args: seq<string>)
    requires |args| >= 2 && AllWords(args[1..])
    ensures AllWords(HostWords(args))
  {
    assert args[1..][0] == args[1];
    BaseIsWord(args[1]);
    UnderTmpIsWord(PathBase(args[1]));
    PathsAreWords();
    forall k | 0 <= k < |HostWords(args)|
      ensures IsWord(HostWords(args)[k])
    {
      if 1 <= k < |args| - 1 {
        assert HostWords(args)[k] == args[1..][k];
      }
    }
  }

  lemma HostLineIsJoin(args: seq<string>)
    requires |args| >= 2
    ensures HostLine(args) == Some(Join(HostWords(args), " "))
  {
    JoinCons(UnderTmp(PathBase(args[1])), args[2..] + ["--output", OUTPUT_FILE]);
  }

  /** Splitting the command line gives the copied binary, the arguments in order and the output file. */
  lemma HostLineSplits(args: seq<string>)
    requires |args| >= 2 && AllWords(args[1..])
    ensures HostLine(args).Some? && '\n' !in HostLine(args).value
    ensures Fields(HostLine(args).value) == HostWords(args)
  {
    HostLineIsJoin(args);
    HostWordsAreWords(args);
    FieldsOfJoin(HostWords(args));
    OneLine(HostWords(args));
  }

  method HostCommandLine(args: seq<string>) returns (line: Option<string>)
    ensures line == HostLine(args)
    ensures line.None? <==> |args| < 2
    ensures |args| >= 2 && AllWords(args[1..]) ==> '\n' !in line.value && Fields(line.value) == HostWords(args)
  {
    if |args| < 2 {
      return None;
    }
    var cmd := args[1];
    var cmdArgs := args[2..] + ["--output", OUTPUT_FILE];
    var dstPath := UnderTmp(PathBase(cmd));
    line := Some(dstPath + " " + Join(cmdArgs, " "));
    if AllWords(args[1..]) {
      HostLineSplits(args);
    }
  }

  const PLACEHOLDER := "TODO_EXEC_START"
  const UNIT_HEAD := ["[Unit]", "Description=kdebug", "", "[Service]", "Type=oneshot"]
  const UNIT_TAIL := ["TimeoutSec=60", "", "[Install]", "WantedBy=multi-user.target", ""]
  const EXEC_START := "ExecStart="

  function UnitTemplate(): string {
    Join(UNIT_HEAD + [EXEC_START + PLACEHOLDER] + UNIT_TAIL, "\n")
  }

  function UnitText(cmd: string): string {
    ReplaceFirst(UnitTemplate(), PLACEHOLDER, cmd)
  }

  // ----- the receiving side

  /** The ExecStart= entry of a unit file. */
  function ExecStartOf(lines: seq<string>): Option<string> {
    if lines == [] then None
    else if HasPrefix(lines[0], EXEC_START) then Some(lines[0][|EXEC_START|..])
    else ExecStartOf(lines[1..])
  }

  datatype Options = Options(checks: seq<string>, format: string, verbose: string, output: string, noSetExitCode: bool)

  const NO_OPTIONS := Options([], "", "", "", false)

  predicate IsOption(arg: string) {
    |arg| > 1 && arg[0] == '-'
  }

  /** No argument that is taken for an option. */
  ghost predicate NoOptions(args: seq<string>) {
    forall k :: 0 <= k < |args| ==> !IsOption(args[k])
  }

  predicate TakesValue(arg: string) {
    arg == "-c" || arg == "-f" || arg == "-v" || arg == "--output"
  }

  function Store(o: Options, flag: string, value: string): Options {
    if flag == "-c" then o.(checks := o.checks + [value])
    else if flag == "-f" then o.(format := value)
    else if flag == "-v" then o.(verbose := value)
    else o.(output := value)
  }

  /** The command-line flags used in transport, in order; None where a flag lacks its value. */
  function ParseFlags(args: seq<string>, o: Options): Option<Options>
    decreases |args|
  {
    if args == [] then Some(o)
    else if args[0] == "--no-set-exit-code" then ParseFlags(args[1..], o.(noSetExitCode := true))
    else if TakesValue(args[0]) then
      if |args| < 2 || IsOption(args[1]) then None
      else ParseFlags(args[2..], Store(o, args[0], args[1]))
    else ParseFlags(args[1..], o)
  }

  // ----- round trips

  /** These command words start kdebug with exactly these options. */
  predicate RunsKdebug(words: seq<string>, path: string, o: Options) {
    words != [] && words[0] == path && ParseFlags(words[1..], NO_OPTIONS) == Some(o)
  }

  lemma FlagPair(flag: string, value: string, rest: seq<string>, o: Options)
    requires TakesValue(flag) && !IsOption(value)
    ensures ParseFlags([flag, value] + rest, o) == ParseFlags(rest, Store(o, flag, value))
  {
    var args := [flag, value] + rest;
    assert args[0] == flag && args[1] == value && args[2..] == rest;
    assert flag != "--no-set-exit-code";
  }

  /** `-c` values are collected in order, after whatever was collected before. */
  lemma {:induction false} ChecksCollected(checkers: seq<string>, rest: seq<string>, o: Options)
    requires NoOptions(checkers)
    ensures ParseFlags(CheckArgs(checkers) + rest, o) == ParseFlags(rest, o.(checks := o.checks + checkers))
  {
    if checkers == [] {
      assert CheckArgs(checkers) + rest == rest;
      assert o.checks + checkers == o.checks;
    } else {
      var n := |checkers| - 1;
      var last := checkers[n];
      assert CheckArgs(checkers) + rest == CheckArgs(checkers[..n]) + (["-c", last] + rest);
      ChecksCollected(checkers[..n], ["-c", last] + rest, o);
      FlagPair("-c", last, rest, o.(checks := o.checks + checkers[..n]));
      assert o.checks + checkers == o.checks + checkers[..n] + [last];
    }
  }

  lemma PodFlagsParsed(rest: seq<string>)
    ensures ParseFlags(POD_FLAGS + rest, NO_OPTIONS) == ParseFlags(rest, Options([], "json", "none", "", true))
  {
    var after := ["-v", "none"] + rest;
    assert POD_FLAGS + rest == ["-f", "json"] + (["--no-set-exit-code"] + after);
    FlagPair("-f", "json", ["--no-set-exit-code"] + after, NO_OPTIONS);
    assert (["--no-set-exit-code"] + after)[1..] == after;
    FlagPair("-v", "none", rest, Options([], "json", "", "", true));
  }

  /** What is collected was an argument, and none taken for an option. */
  lemma {:induction false} CollectedAreArguments(args: seq<string>, o: Options)
    ensures ParseFlags(args, o).Some? ==>
      forall c :: c in ParseFlags(args, o).value.checks ==> c in o.checks || (c in args && !IsOption(c))
    decreases |args|
  {
    if args == [] {
    } else if args[0] == "--no-set-exit-code" {
      CollectedAreArguments(args[1..], o.(noSetExitCode := true));
    } else if TakesValue(args[0]) {
      if |args| >= 2 && !IsOption(args[1]) {
        CollectedAreArguments(args[2..], Store(o, args[0], args[1]));
      }
    } else {
      CollectedAreArguments(args[1..], o);
    }
  }

  lemma RunMeansNoOptions(words: seq<string>, path: string, o: Options)
    requires RunsKdebug(words, path, o)
    ensures NoOptions(o.checks) && forall k :: 0 <= k < |o.checks| ==> o.checks[k] in words
  {
    CollectedAreArguments(words[1..], NO_OPTIONS);
    forall k | 0 <= k < |o.checks|
      ensures o.checks[k] in words && !IsOption(o.checks[k])
    {
      assert o.checks[k] in o.checks;
    }
  }

  /** Container mode: the process in the pod sees exactly the checkers of the task, in order, if and only
      if no name is taken for an option. */
  lemma ContainerTransport(checkers: seq<string>)
    ensures RunsKdebug(PodCommand(checkers), KDEBUG, Options(checkers, "json", "none", "", true))
            <==> NoOptions(checkers)
  {
    assert PodCommand(checkers)[1..] == POD_FLAGS + CheckArgs(checkers);
    PodFlagsParsed(CheckArgs(checkers));
    assert CheckArgs(checkers) + [] == CheckArgs(checkers);
    var o := Options(checkers, "json", "none", "", true);
    if NoOptions(checkers) {
      ChecksCollected(checkers, [], Options([], "json", "none", "", true));
      assert [] + checkers == checkers;
    } else if RunsKdebug(PodCommand(checkers), KDEBUG, o) {
      RunMeansNoOptions(PodCommand(checkers), KDEBUG, o);
    }
  }

  lemma {:induction false} CheckArgsAreWords(checkers: seq<string>)
    requires AllWords(checkers)
    ensures forall w :: w in CheckArgs(checkers) ==> IsWord(w)
  {
    if checkers != [] {
      CheckArgsAreWords(checkers[..|checkers|-1]);
    }
  }

  lemma FixedArgsAreWords()
    ensures forall w :: w in POD_FLAGS ==> IsWord(w)
    ensures forall w :: w in SSH_FLAGS ==> IsWord(w)
    ensures IsWord("/tmp/kdebug") && IsWord("--output") && IsWord(OUTPUT_FILE)
  {
    FlagsAreWords();
    PathsAreWords();
  }

  lemma FlagsAreWords()
    ensures IsWord("-f") && IsWord("json") && IsWord("--no-set-exit-code") && IsWord("-v") && IsWord("none")
  {
  }

  lemma PathsAreWords()
    ensures IsWord("/tmp/kdebug") && IsWord("--output") && IsWord(OUTPUT_FILE)
  {
  }

  /** What run-as-host passes to the copied binary for this pod command. */
  function HostArgs(checkers: seq<string>): seq<string> {
    POD_FLAGS + CheckArgs(checkers) + ["--output", OUTPUT_FILE]
  }

  lemma HostArgsAreWords(checkers: seq<string>)
    requires AllWords(checkers)
    ensures AllWords(PodCommand(checkers))
  {
    CheckArgsAreWords(checkers);
    FixedArgsAreWords();
    KdebugIsWord();
    var args := PodCommand(checkers);
    assert forall k :: 0 <= k < |args| ==> args[k] in args;
  }

  lemma KdebugIsWord()
    ensures IsWord(KDEBUG)
  {
  }

  /** The command line in the unit for the pod command, and what splitting it gives. */
  lemma HostLineFields(checkers: seq<string>)
    requires AllWords(checkers)
    ensures HostLine([RUN_AS_HOST] + PodCommand(checkers)).Some?
    ensures var line := HostLine([RUN_AS_HOST] + PodCommand(checkers)).value;
      '\n' !in line && Fields(line) == ["/tmp/kdebug"] + HostArgs(checkers)
  {
    var args := [RUN_AS_HOST] + PodCommand(checkers);
    assert args[1..] == PodCommand(checkers);
    HostArgsAreWords(checkers);
    HostLineSplits(args);
    KdebugBase();
    assert args[1] == KDEBUG;
    assert args[2..] + ["--output", OUTPUT_FILE] == HostArgs(checkers);
  }

  lemma OneLine(words: seq<string>)
    requires AllWords(words)
    ensures '\n' !in Join(words, " ")
  {
    forall w | w in words
      ensures '\n' !in w
    {
      assert IsWord(w);
    }
    JoinHasNo(words, " ", '\n');
  }

  lemma KdebugBase()
    ensures UnderTmp(PathBase(KDEBUG)) == "/tmp/" + NAME == "/tmp/kdebug"
  {
    BaseOfRootFile(NAME);
  }

  lemma BaseOfRootFile(name: string)
    requires name != "" && '/' !in name && name[0] != '.'
    ensures UnderTmp(PathBase("/" + name)) == "/tmp/" + name
  {
    assert "/" + name == "" + "/" + name;
    CopiedUnderTmp("", name);
  }

  /** Wherever a file is, its copy has the same name under /tmp. */
  lemma CopiedUnderTmp(directory: string, name: string)
    requires name != "" && '/' !in name && name != "." && name != ".."
    ensures UnderTmp(PathBase(directory + "/" + name)) == "/tmp/" + name
  {
    var path := directory + "/" + name;
    assert path[|path|-1] == name[|name|-1];
    assert StripSlashes(path) == path;
    LastAfter(directory, '/', name);
  }

  /** `from` starts nowhere in p, judging by its first two characters. */
  ghost predicate NeverStarts(p: string, from: string) {
    && |from| >= 2
    && forall k :: 0 <= k < |p| && p[k] == from[0] ==> k + 1 < |p| && p[k+1] != from[1]
  }

  lemma {:induction false} ReplaceSkips(p: string, s: string, from: string, to: string)
    requires NeverStarts(p, from)
    ensures ReplaceFirst(p + s, from, to) == p + ReplaceFirst(s, from, to)
  {
    if p == "" {
      assert p + s == s;
    } else {
      assert !HasPrefix(p + s, from) by {
        if p[0] == from[0] {
          assert (p + s)[1] == p[1];
        }
      }
      assert (p + s)[1..] == p[1..] + s;
      assert NeverStarts(p[1..], from);
      ReplaceSkips(p[1..], s, from, to);
    }
  }

  /** Filling in the template changes the ExecStart line and no other. */
  lemma {:induction false} ReplaceInLine(head: seq<string>, tail: seq<string>, cmd: string)
    requires forall k :: 0 <= k < |head| ==> NeverStarts(head[k] + "\n", PLACEHOLDER)
    ensures ReplaceFirst(Join(head + [EXEC_START + PLACEHOLDER] + tail, "\n"), PLACEHOLDER, cmd)
         == Join(head + [EXEC_START + cmd] + tail, "\n")
  {
    var before, after := head + [EXEC_START + PLACEHOLDER] + tail, head + [EXEC_START + cmd] + tail;
    if head == [] {
      assert before[1..] == after[1..] == tail;
      var rest := if tail == [] then "" else "\n" + Join(tail, "\n");
      assert Join(before, "\n") == EXEC_START + (PLACEHOLDER + rest);
      assert Join(after, "\n") == EXEC_START + (cmd + rest);
      ReplaceSkips(EXEC_START, PLACEHOLDER + rest, PLACEHOLDER, cmd);
      assert HasPrefix(PLACEHOLDER + rest, PLACEHOLDER);
    } else {
      ReplaceInLine(head[1..], tail, cmd);
      assert before[1..] == head[1..] + [EXEC_START + PLACEHOLDER] + tail;
      assert after[1..] == head[1..] + [EXEC_START + cmd] + tail;
      ReplaceSkips(head[0] + "\n", Join(before[1..], "\n"), PLACEHOLDER, cmd);
    }
  }

  lemma {:induction false} ExecStartFound(head: seq<string>, cmd: string, tail: seq<string>)
    requires forall k :: 0 <= k < |head| ==> !HasPrefix(head[k], EXEC_START)
    ensures ExecStartOf(head + [EXEC_START + cmd] + tail) == Some(cmd)
  {
    var lines := head + [EXEC_START + cmd] + tail;
    if head != [] {
      ExecStartFound(head[1..], cmd, tail);
      assert lines[1..] == head[1..] + [EXEC_START + cmd] + tail;
    }
  }

  /** A line the template keeps as it is, before the ExecStart line. */
  ghost predicate PlainLine(line: string) {
    NeverStarts(line + "\n", PLACEHOLDER) && !HasPrefix(line, EXEC_START) && '\n' !in line
  }

  lemma UnitLines()
    ensures forall k :: 0 <= k < |UNIT_HEAD| ==> PlainLine(UNIT_HEAD[k])
  {
    LineWithoutT("[Unit]");
    LineWithoutT("Description=kdebug");
    LineWithoutT("");
    LineWithoutT("[Service]");
    LineOfType();
  }

  lemma TailLines()
    ensures forall k :: 0 <= k < |UNIT_TAIL| ==> '\n' !in UNIT_TAIL[k]
  {
  }

  lemma LineWithoutT(line: string)
    requires 'T' !in line && '\n' !in line && (line == "" || line[0] != 'E')
    ensures PlainLine(line)
  {
    assert line != "" ==> line[..1][0] != EXEC_START[..1][0];
    assert forall k :: 0 <= k <= |line| ==> (line + "\n")[k] != 'T';
  }

  lemma LineOfType()
    ensures PlainLine("Type=oneshot")
  {
    var line := "Type=oneshot" + "\n";
    assert forall k :: 1 <= k < |line| ==> line[k] != 'T';
    assert line[0] != EXEC_START[0];
  }

  /** The unit file holds the command line, whatever it is, as long as it is one line, and every other
      line of the template. */
  lemma UnitHoldsCommand(cmd: string)
    requires '\n' !in cmd
    ensures ExecStartOf(Split(UnitText(cmd), '\n')) == Some(cmd)
    ensures Split(UnitText(cmd), '\n') == UNIT_HEAD + ["ExecStart=" + cmd] + UNIT_TAIL
  {
    UnitLines();
    TailLines();
    var lines := UNIT_HEAD + [EXEC_START + cmd] + UNIT_TAIL;
    ReplaceInLine(UNIT_HEAD, UNIT_TAIL, cmd);
    forall k | 0 <= k < |lines|
      ensures '\n' !in lines[k]
    {
      assert lines[k] == if k < 5 then UNIT_HEAD[k] else if k == 5 then EXEC_START + cmd else UNIT_TAIL[k-6];
    }
    SplitJoin(lines, '\n');
    ExecStartFound(UNIT_HEAD, cmd, UNIT_TAIL);
  }

  lemma HostFlagsParsed(checkers: seq<string>)
    requires NoOptions(checkers)
    ensures ParseFlags(HostArgs(checkers), NO_OPTIONS)
         == Some(Options(checkers, "json", "none", OUTPUT_FILE, true))
  {
    var output := ["--output", OUTPUT_FILE];
    var o := Options([], "json", "none", "", true);
    assert HostArgs(checkers) == POD_FLAGS + (CheckArgs(checkers) + output);
    PodFlagsParsed(CheckArgs(checkers) + output);
    ChecksCollected(checkers, output, o);
    assert o.(checks := o.checks + checkers) == Options(checkers, "json", "none", "", true);
    assert output + [] == output;
    FlagPair("--output", OUTPUT_FILE, [], Options(checkers, "json", "none", "", true));
  }

  lemma ThroughUnit(line: string, path: string, args: seq<string>, o: Options)
    requires '\n' !in line && Fields(line) == [path] + args && ParseFlags(args, NO_OPTIONS) == Some(o)
    ensures ExecStartOf(Split(UnitText(line), '\n')).Some?
    ensures RunsKdebug(Fields(ExecStartOf(Split(UnitText(line), '\n')).value), path, o)
  {
    UnitHoldsCommand(line);
    assert Fields(line)[1..] == args;
  }

  /** The words systemd runs when run-as-host is called with these arguments: command line, unit file, split. */
  function RunByHost(args: seq<string>): seq<string> {
    match HostLine(args)
    case None => []
    case Some(line) =>
      match ExecStartOf(Split(UnitText(line), '\n'))
      case None => []
      case Some(command) => Fields(command)
  }

  function HostCommand(checkers: seq<string>): seq<string> {
    RunByHost([RUN_AS_HOST] + PodCommand(checkers))
  }

  lemma FieldsMeanWords(words: seq<string>, line: string, path: string, o: Options)
    requires words == Fields(line) && RunsKdebug(words, path, o)
    ensures AllWords(o.checks) && NoOptions(o.checks)
  {
    RunMeansNoOptions(words, path, o);
    FieldsAreWords(line);
  }

  /** Host mode: pod command, unit file, systemd's split and the flag parser give the task's checkers back,
      in order, with the output redirected to the file run-as-host reads, if and only if every name is one
      word and none is taken for an option. */
  lemma HostTransport(checkers: seq<string>)
    requires OrdinaryNames(checkers)
    ensures RunsKdebug(HostCommand(checkers), "/tmp/kdebug", Options(checkers, "json", "none", OUTPUT_FILE, true))
            <==> AllWords(checkers) && NoOptions(checkers)
  {
    var o := Options(checkers, "json", "none", OUTPUT_FILE, true);
    var line := HostLine([RUN_AS_HOST] + PodCommand(checkers)).value;
    if AllWords(checkers) && NoOptions(checkers) {
      HostLineFields(checkers);
      HostFlagsParsed(checkers);
      ThroughUnit(line, "/tmp/kdebug", HostArgs(checkers), o);
    } else if RunsKdebug(HostCommand(checkers), "/tmp/kdebug", o) {
      FieldsMeanWords(HostCommand(checkers), ExecStartOf(Split(UnitText(line), '\n')).value, "/tmp/kdebug", o);
    }
  }

  const SSH_FLAGS := ["-f", "json", "--no-set-exit-code"]

  lemma JoinCons(first: string, rest: seq<string>)
    requires rest != []
    ensures Join([first] + rest, " ") == first + " " + Join(rest, " ")
  {
    assert ([first] + rest)[1..] == rest;
  }

  lemma SshWordsJoined()
    ensures Join(["/tmp/kdebug"] + SSH_FLAGS, " ") == SSH_COMMAND
  {
    JoinCons("json", ["--no-set-exit-code"]);
    JoinCons("-f", ["json"] + ["--no-set-exit-code"]);
    JoinCons("/tmp/kdebug", ["-f"] + (["json"] + ["--no-set-exit-code"]));
    assert SSH_FLAGS == ["-f"] + (["json"] + ["--no-set-exit-code"]);
    SshLiteral();
  }

  lemma SshLiteral()
    ensures "/tmp/kdebug" + " " + ("-f" + " " + ("json" + " " + "--no-set-exit-code")) == SSH_COMMAND
  {
  }

  lemma {:induction false} SshCommandIsJoin(checkers: seq<string>)
    ensures SshCommand(checkers) == Join(["/tmp/kdebug"] + SSH_FLAGS + CheckArgs(checkers), " ")
  {
    var words := ["/tmp/kdebug"] + SSH_FLAGS;
    if checkers == [] {
      SshWordsJoined();
      assert words + CheckArgs(checkers) == words;
    } else {
      var n := |checkers| - 1;
      SshCommandIsJoin(checkers[..n]);
      JoinCheck(words + CheckArgs(checkers[..n]), checkers[n]);
      assert words + CheckArgs(checkers) == words + CheckArgs(checkers[..n]) + ["-c", checkers[n]];
    }
  }

  lemma JoinCheck(before: seq<string>, checker: string)
    requires before != []
    ensures Join(before + ["-c", checker], " ") == Join(before, " ") + (" -c " + checker)
  {
    assert before + ["-c", checker] == before + ["-c"] + [checker];
    JoinAppend(before, "-c");
    JoinAppend(before + ["-c"], checker);
    assert " -c " == " " + "-c" + " ";
  }

  lemma {:induction false} JoinAppend(words: seq<string>, last: string)
    requires words != []
    ensures Join(words + [last], " ") == Join(words, " ") + " " + last
  {
    if |words| > 1 {
      JoinAppend(words[1..], last);
      assert (words + [last])[1..] == words[1..] + [last];
    } else {
      assert (words + [last])[1..] == [last];
    }
  }

  lemma SshFlagsParsed(checkers: seq<string>)
    requires NoOptions(checkers)
    ensures ParseFlags(SSH_FLAGS + CheckArgs(checkers), NO_OPTIONS) == Some(Options(checkers, "json", "", "", true))
  {
    var rest := ["--no-set-exit-code"] + CheckArgs(checkers);
    var o := Options([], "json", "", "", true);
    assert SSH_FLAGS + CheckArgs(checkers) == ["-f", "json"] + rest;
    FlagPair("-f", "json", rest, NO_OPTIONS);
    assert rest[1..] == CheckArgs(checkers) + [];
    ChecksCollected(checkers, [], o);
    assert o.checks + checkers == checkers;
  }

  lemma SshFields(checkers: seq<string>)
    requires AllWords(checkers)
    ensures Fields(SshCommand(checkers)) == ["/tmp/kdebug"] + (SSH_FLAGS + CheckArgs(checkers))
  {
    var words := ["/tmp/kdebug"] + SSH_FLAGS + CheckArgs(checkers);
    SshCommandIsJoin(checkers);
    assert forall w :: w in words ==> IsWord(w) by {
      FixedArgsAreWords();
      CheckArgsAreWords(checkers);
    }
    FieldsOfJoin(words);
    Regroup(["/tmp/kdebug"], SSH_FLAGS, CheckArgs(checkers));
  }

  /** SSH: splitting the command line gives the task's checkers back, in order, if and only if every name
      is one word and none is taken for an option. */
  lemma SshTransport(checkers: seq<string>)
    requires OrdinaryNames(checkers)
    ensures RunsKdebug(Fields(SshCommand(checkers)), "/tmp/kdebug", Options(checkers, "json", "", "", true))
            <==> AllWords(checkers) && NoOptions(checkers)
  {
    var o := Options(checkers, "json", "", "", true);
    if AllWords(checkers) && NoOptions(checkers) {
      SshFields(checkers);
      SshFlagsParsed(checkers);
    } else if RunsKdebug(Fields(SshCommand(checkers)), "/tmp/kdebug", o) {
      FieldsMeanWords(Fields(SshCommand(checkers)), SshCommand(checkers), "/tmp/kdebug", o);
    }
  }

  /** The names in the registry arrive by every way. */
  lemma RegistryNamesArrive(checkers: seq<string>)
    requires RegistryNames(checkers)
    ensures RunsKdebug(PodCommand(checkers), KDEBUG, Options(checkers, "json", "none", "", true))
    ensures RunsKdebug(HostCommand(checkers), "/tmp/kdebug", Options(checkers, "json", "none", OUTPUT_FILE, true))
    ensures RunsKdebug(Fields(SshCommand(checkers)), "/tmp/kdebug", Options(checkers, "json", "", "", true))
  {
    assert OrdinaryNames(checkers) && AllWords(checkers) && NoOptions(checkers) by {
      assert forall k :: 0 <= k < |checkers| ==> RegistryName(checkers[k]);
    }
    ContainerTransport(checkers);
    HostTransport(checkers);
    SshTransport(checkers);
  }
}
