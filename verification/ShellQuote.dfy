/** Quoting the arguments of a command for a shell, once or through several shells
    (shell.go, nixShellRunner.go, sshRunner.go). */
module ShellQuote {
  import opened Collections
  import opened Strings

  // ----- how a shell splits a line into words: sections 2.2 and 2.3 of the POSIX.1-2017 Shell
  //       Command Language. A line that is more than a list of words (an operator, an expansion, a
  //       quote left open) has no splitting here. -----

  datatype State = Between | Bare(word: string) | Single(word: string) | Double(word: string)

  predicate Blank(c: char) {
    c == ' ' || c == '\t'
  }

  /** Characters with a meaning of their own outside quotes. */
  predicate Special(c: char) {
    || c == '|' || c == '&' || c == ';' || c == '<' || c == '>' || c == '(' || c == ')' || c == '$' || c == '`'
    || c == '*' || c == '?' || c == '[' || c == '#' || c == '~' || c == '=' || c == '%' || c == '!' || c == '{'
    || c == '}' || c == '\n'
  }

  predicate Ordinary(c: char) {
    !Blank(c) && !Special(c) && c != '\'' && c != '"' && c != '\\'
  }

  /** A backslash before a newline: both go. */
  predicate Continued(line: string) {
    |line| > 1 && line[0] == '\\' && line[1] == '\n'
  }

  function Then(word: string, rest: Option<seq<string>>): Option<seq<string>> {
    if rest.Some? then Some([word] + rest.value) else None
  }

  function Words(line: string, state: State): Option<seq<string>>
    decreases |line|, if state.Between? then 1 else 0
  {
    match state
    case Between =>
      if line == "" then Some([])
      else if Blank(line[0]) then Words(line[1..], Between)
      else if Continued(line) then Words(line[2..], Between)
      else Words(line, Bare(""))
    case Bare(word) =>
      if line == "" then Some([word])
      else if Blank(line[0]) then Then(word, Words(line[1..], Between))
      else if line[0] == '\'' then Words(line[1..], Single(word))
      else if line[0] == '"' then Words(line[1..], Double(word))
      else if line[0] == '\\' then Escaped(line, word)
      else if Special(line[0]) then None
      else Words(line[1..], Bare(word + [line[0]]))
    case Single(word) =>
      if line == "" then None
      else if line[0] == '\'' then Words(line[1..], Bare(word))
      else Words(line[1..], Single(word + [line[0]]))
    case Double(word) =>
      if line == "" then None
      else if line[0] == '"' then Words(line[1..], Bare(word))
      else if line[0] == '$' || line[0] == '`' then None
      else if line[0] == '\\' then EscapedInDouble(line, word)
      else Words(line[1..], Double(word + [line[0]]))
  }

  /** A backslash keeps the next character; before a newline both go. */
  function Escaped(line: string, word: string): Option<seq<string>>
    requires line != ""
    decreases |line|, 0, 0
  {
    if |line| == 1 then None
    else if line[1] == '\n' then Words(line[2..], Bare(word))
    else Words(line[2..], Bare(word + [line[1]]))
  }

  /** Between double quotes it does so before $, `, ", \ and newline only, else stays. */
  function EscapedInDouble(line: string, word: string): Option<seq<string>>
    requires line != ""
    decreases |line|, 0, 0
  {
    if |line| == 1 then None
    else if line[1] == '\n' then Words(line[2..], Double(word))
    else if line[1] == '$' || line[1] == '`' || line[1] == '"' || line[1] == '\\' then
      Words(line[2..], Double(word + [line[1]]))
    else Words(line[1..], Double(word + ['\\']))
  }

  // ----- the program -----

  function Quote(arg: string): string {
    "'" + ReplaceAll(arg, "'", "'\\''") + "'"
  }

  function QuoteAll(args: seq<string>): (r: seq<string>)
    ensures |r| == |args| && forall i :: 0 <= i < |args| ==> r[i] == Quote(args[i])
  {
    seq(|args|, i requires 0 <= i < |args| => Quote(args[i]))
  }

  method ShellQuoteArgs(args: seq<string>) returns (quoted: seq<string>)
    ensures quoted == QuoteAll(args)
  {
    var slots := new string[|args|];
    for i := 0 to |args|
      invariant forall j :: 0 <= j < i ==> slots[j] == Quote(args[j])
    {
      slots[i] := "'" + ReplaceAll(args[i], "'", "'\\''") + "'";
    }
    quoted := slots[..];
  }

  function CommandLine(head: string, args: seq<string>): string {
    head + " " + Join(QuoteAll(args), " ")
  }

  /** What the ssh runner hands to the session. */
  method SshCommand(head: string, args: seq<string>) returns (cmd: string)
    ensures cmd == CommandLine(head, args)
    ensures Words(head, Between).Some? ==> Words(cmd, Between) == Some(Words(head, Between).value + args)
  {
    var quoted := ShellQuoteArgs(args);
    cmd := head + " " + Join(quoted, " ");
    if Words(head, Between).Some? { CommandLineSplits(head, args); }
  }

  /** -p before each package. */
  function PackageArgs(packages: seq<string>): seq<string>
    decreases |packages|
  {
    if packages == [] then [] else PackageArgs(packages[..|packages| - 1]) + ["-p", packages[|packages| - 1]]
  }

  const NIX_SHELL := "nix-shell"

  function NixShellArgs(packages: seq<string>, head: string, args: seq<string>): seq<string> {
    ["--extra-experimental-features", "nix-command flakes"] + PackageArgs(packages) + ["--run", CommandLine(head, args)]
  }

  /** What the nix-shell runner hands to its parent. */
  method NixShellCommand(packages: seq<string>, head: string, args: seq<string>) returns (newArgs: seq<string>)
    ensures newArgs == NixShellArgs(packages, head, args)
    ensures |newArgs| == 2 * |packages| + 4
    ensures newArgs[..2] == ["--extra-experimental-features", "nix-command flakes"]
    ensures forall i :: 0 <= i < |packages| ==> newArgs[2 * i + 2] == "-p" && newArgs[2 * i + 3] == packages[i]
    ensures newArgs[|newArgs| - 2..] == ["--run", head + " " + Join(QuoteAll(args), " ")]
  {
    newArgs := ["--extra-experimental-features", "nix-command flakes"];
    for i := 0 to |packages|
      invariant newArgs == ["--extra-experimental-features", "nix-command flakes"] + PackageArgs(packages[..i])
    {
      assert packages[..i + 1][..i] == packages[..i];
      newArgs := newArgs + ["-p", packages[i]];
    }
    assert packages[..|packages|] == packages;
    var quoted := ShellQuoteArgs(args);
    newArgs := newArgs + ["--run", head + " " + Join(quoted, " ")];
    ArgsAreInOrder(packages, CommandLine(head, args));
  }

  lemma ArgsAreInOrder(packages: seq<string>, line: string)
    ensures var newArgs := ["--extra-experimental-features", "nix-command flakes"] + PackageArgs(packages) + ["--run", line];
      && |newArgs| == 2 * |packages| + 4 && newArgs[|newArgs| - 2..] == ["--run", line]
      && newArgs[..2] == ["--extra-experimental-features", "nix-command flakes"]
      && forall i :: 0 <= i < |packages| ==> newArgs[2 * i + 2] == "-p" && newArgs[2 * i + 3] == packages[i]
  {
    var newArgs := ["--extra-experimental-features", "nix-command flakes"] + PackageArgs(packages) + ["--run", line];
    EachPackage(packages);
    forall i | 0 <= i < |packages| ensures newArgs[2 * i + 2] == "-p" && newArgs[2 * i + 3] == packages[i] {
      assert newArgs[2 * i + 2] == PackageArgs(packages)[2 * i] && newArgs[2 * i + 3] == PackageArgs(packages)[2 * i + 1];
    }
  }

  lemma {:induction false} EachPackage(packages: seq<string>)
    ensures |PackageArgs(packages)| == 2 * |packages|
    ensures forall i :: 0 <= i < |packages| ==>
      PackageArgs(packages)[2 * i] == "-p" && PackageArgs(packages)[2 * i + 1] == packages[i]
    decreases |packages|
  {
    if packages != [] {
      var before := packages[..|packages| - 1];
      EachPackage(before);
      forall i | 0 <= i < |packages|
        ensures PackageArgs(packages)[2 * i] == "-p" && PackageArgs(packages)[2 * i + 1] == packages[i]
      {
        if i < |before| { assert packages[i] == before[i]; }
      }
    }
  }

  // ----- quoted arguments come back -----

  /** Inside single quotes, the escaped text adds exactly the text, and the quote is still open. */
  lemma {:induction false} EscapedTextSplits(arg: string, rest: string, word: string)
    ensures Words(ReplaceAll(arg, "'", "'\\''") + rest, Single(word)) == Words(rest, Single(word + arg))
    decreases |arg|
  {
    var escaped := ReplaceAll(arg, "'", "'\\''");
    if arg == "" {
      assert escaped + rest == rest;
      assert word + arg == word;
    } else {
      var after := ReplaceAll(arg[1..], "'", "'\\''") + rest;
      EscapedTextSplits(arg[1..], rest, word + [arg[0]]);
      assert word + [arg[0]] + arg[1..] == word + arg;
      if arg[0] == '\'' {
        assert Prefix("'", arg);
        QuoteSplits(after, word);
        assert escaped + rest == "'\\''" + after;
      } else {
        assert !Prefix("'", arg);
        assert escaped + rest == [arg[0]] + after;
      }
    }
  }

  lemma QuoteSplits(after: string, word: string)
    ensures Words("'\\''" + after, Single(word)) == Words(after, Single(word + ['\'']))
  {
    var line := "'\\''" + after;
    QuoteCloses(line, word);
    QuoteEscaped(line[1..], word);
    QuoteOpens(line[3..], word + ['\'']);
    assert line[1..][2..] == line[3..] && line[3..][1..] == after;
  }

  lemma QuoteCloses(line: string, word: string)
    requires line != "" && line[0] == '\''
    ensures Words(line, Single(word)) == Words(line[1..], Bare(word))
  {
  }

  lemma QuoteEscaped(line: string, word: string)
    requires |line| > 1 && line[0] == '\\' && line[1] == '\''
    ensures Words(line, Bare(word)) == Words(line[2..], Bare(word + ['\'']))
  {
    assert Words(line, Bare(word)) == Escaped(line, word);
  }

  lemma QuoteOpens(line: string, word: string)
    requires line != "" && line[0] == '\''
    ensures Words(line, Bare(word)) == Words(line[1..], Single(word))
  {
  }

  lemma QuotedSplits(arg: string, rest: string)
    ensures Words(Quote(arg) + rest, Between) == Words(rest, Bare(arg))
  {
    var escaped := ReplaceAll(arg, "'", "'\\''");
    var line := Quote(arg) + rest;
    assert line[1..] == escaped + ("'" + rest);
    EscapedTextSplits(arg, "'" + rest, "");
    assert ("'" + rest)[1..] == rest;
    assert "" + arg == arg;
    assert !Continued(line);
  }

  lemma {:induction false} QuotedArgsSplit(args: seq<string>)
    ensures Words(Join(QuoteAll(args), " "), Between) == Some(args)
    decreases |args|
  {
    if |args| == 1 {
      assert args == [args[0]];
      QuotedSplits(args[0], "");
      assert Quote(args[0]) + "" == Quote(args[0]);
    } else if args != [] {
      var rest := Join(QuoteAll(args[1..]), " ");
      assert QuoteAll(args)[1..] == QuoteAll(args[1..]);
      QuotedSplits(args[0], " " + rest);
      assert Quote(args[0]) + (" " + rest) == Join(QuoteAll(args), " ");
      assert (" " + rest)[1..] == rest;
      QuotedArgsSplit(args[1..]);
      assert [args[0]] + args[1..] == args;
    }
  }

  /** A line of whole words keeps its words when a blank and more is put behind it. */
  lemma {:induction false} WordsThenMore(line: string, rest: string, state: State)
    requires Words(line, state).Some? && Words(rest, Between).Some?
    ensures Words(line + " " + rest, state) == Some(Words(line, state).value + Words(rest, Between).value)
    decreases |line|, if state.Between? then 1 else 0
  {
    var all := line + " " + rest;
    if line == "" {
      assert all == " " + rest && all[1..] == rest;
      assert [] + Words(rest, Between).value == Words(rest, Between).value;
    } else {
      assert all[1..] == line[1..] + " " + rest;
      assert |line| > 1 ==> all[2..] == line[2..] + " " + rest;
      match state
      case Between => WordsThenMoreBetween(line, rest);
      case Bare(word) => WordsThenMoreBare(line, rest, word);
      case Single(word) =>
        WordsThenMore(line[1..], rest, if line[0] == '\'' then Bare(word) else Single(word + [line[0]]));
      case Double(word) => WordsThenMoreDouble(line, rest, word);
    }
  }

  lemma {:induction false} WordsThenMoreBetween(line: string, rest: string)
    requires line != "" && Words(line, Between).Some? && Words(rest, Between).Some?
    ensures Words(line + " " + rest, Between) == Some(Words(line, Between).value + Words(rest, Between).value)
    decreases |line|, 0, 1
  {
    var all := line + " " + rest;
    assert all[1..] == line[1..] + " " + rest;
    if Blank(line[0]) {
      WordsThenMore(line[1..], rest, Between);
    } else if Continued(line) {
      assert all[2..] == line[2..] + " " + rest;
      WordsThenMore(line[2..], rest, Between);
    } else {
      assert Words(line, Bare("")).Some?;
      WordsThenMoreBare(line, rest, "");
    }
  }

  lemma {:induction false} WordsThenMoreBare(line: string, rest: string, word: string)
    requires line != "" && Words(line, Bare(word)).Some? && Words(rest, Between).Some?
    ensures Words(line + " " + rest, Bare(word)) == Some(Words(line, Bare(word)).value + Words(rest, Between).value)
    decreases |line|, 0, 0
  {
    var all := line + " " + rest;
    assert all[1..] == line[1..] + " " + rest;
    if Blank(line[0]) {
      WordsThenMore(line[1..], rest, Between);
      var tail, more := Words(line[1..], Between).value, Words(rest, Between).value;
      assert [word] + (tail + more) == [word] + tail + more;
    } else if line[0] == '\'' {
      WordsThenMore(line[1..], rest, Single(word));
    } else if line[0] == '"' {
      WordsThenMore(line[1..], rest, Double(word));
    } else if line[0] == '\\' {
      assert all[2..] == line[2..] + " " + rest && all[1] == line[1];
      WordsThenMore(line[2..], rest, Bare(if line[1] == '\n' then word else word + [line[1]]));
    } else {
      WordsThenMore(line[1..], rest, Bare(word + [line[0]]));
    }
  }

  lemma {:induction false} WordsThenMoreDouble(line: string, rest: string, word: string)
    requires line != "" && Words(line, Double(word)).Some? && Words(rest, Between).Some?
    ensures Words(line + " " + rest, Double(word)) == Some(Words(line, Double(word)).value + Words(rest, Between).value)
    decreases |line|, 0, 0
  {
    var all := line + " " + rest;
    assert all[1..] == line[1..] + " " + rest;
    if line[0] == '"' {
      WordsThenMore(line[1..], rest, Bare(word));
    } else if line[0] == '\\' {
      assert all[2..] == line[2..] + " " + rest && all[1] == line[1];
      if line[1] == '\n' {
        WordsThenMore(line[2..], rest, Double(word));
      } else if line[1] == '$' || line[1] == '`' || line[1] == '"' || line[1] == '\\' {
        WordsThenMore(line[2..], rest, Double(word + [line[1]]));
      } else {
        WordsThenMore(line[1..], rest, Double(word + ['\\']));
      }
    } else {
      WordsThenMore(line[1..], rest, Double(word + [line[0]]));
    }
  }

  /** A shell takes the command line apart into the words of the head and exactly the arguments. */
  lemma CommandLineSplits(head: string, args: seq<string>)
    requires Words(head, Between).Some?
    ensures Words(CommandLine(head, args), Between) == Some(Words(head, Between).value + args)
  {
    QuotedArgsSplit(args);
    WordsThenMore(head, Join(QuoteAll(args), " "), Between);
  }

  // ----- through any number of shells -----

  /** A runner: the local one starts a program, ssh gives a line to a remote shell, and nix-shell
      asks its parent to run nix-shell, which gives the line after --run to a shell. */
  datatype Runner = Local | Ssh | NixShell(parent: Runner, packages: seq<string>)

  datatype Sent = Program(words: seq<string>) | Line(line: string)

  function Exec(runner: Runner, head: string, args: seq<string>): Sent
    decreases runner
  {
    match runner
    case Local => Program([head] + args)
    case Ssh => Line(CommandLine(head, args))
    case NixShell(parent, packages) => Exec(parent, NIX_SHELL, NixShellArgs(packages, head, args))
  }

  function Depth(runner: Runner): nat {
    match runner
    case NixShell(parent, _) => 1 + Depth(parent)
    case _ => 0
  }

  /** A shell, as far as lines that are lists of words go. */
  type Shell = string -> Option<seq<string>>

  /** The words that are run after the given number of nix-shells had their last word taken apart. */
  function Run(shell: Shell, sent: Sent, shells: nat): Option<seq<string>>
    decreases shells
  {
    if shells == 0 then
      if sent.Program? then Some(sent.words) else shell(sent.line)
    else
      var words := Run(shell, sent, shells - 1);
      if words.Some? && words.value != [] && words.value[0] == NIX_SHELL then shell(words.value[|words.value| - 1])
      else None
  }

  /** The shell finds the head and the arguments of every command line again. */
  ghost predicate TakesApart(shell: Shell, head: string) {
    forall args :: shell(CommandLine(head, args)) == Some([head] + args)
  }

  lemma LastIsTakenApart(shell: Shell, sent: Sent, shells: nat, newArgs: seq<string>)
    requires newArgs != [] && Run(shell, sent, shells) == Some([NIX_SHELL] + newArgs)
    ensures Run(shell, sent, shells + 1) == shell(newArgs[|newArgs| - 1])
  {
    var words := [NIX_SHELL] + newArgs;
    assert words[|words| - 1] == newArgs[|newArgs| - 1];
  }

  lemma OneMoreShell(shell: Shell, parent: Runner, packages: seq<string>, head: string, args: seq<string>)
    requires TakesApart(shell, head)
    requires var newArgs := NixShellArgs(packages, head, args);
      Run(shell, Exec(parent, NIX_SHELL, newArgs), Depth(parent)) == Some([NIX_SHELL] + newArgs)
    ensures var runner := NixShell(parent, packages);
      Run(shell, Exec(runner, head, args), Depth(runner)) == Some([head] + args)
  {
    var newArgs := NixShellArgs(packages, head, args);
    LastIsTakenApart(shell, Exec(parent, NIX_SHELL, newArgs), Depth(parent), newArgs);
  }

  /** However deep nix-shells nest, here or over ssh, the program gets the head and exactly the arguments. */
  lemma {:induction false} ArgumentsSurvive(shell: Shell, runner: Runner, head: string, args: seq<string>)
    requires TakesApart(shell, NIX_SHELL) && TakesApart(shell, head)
    ensures Run(shell, Exec(runner, head, args), Depth(runner)) == Some([head] + args)
    decreases runner
  {
    match runner
    case Local =>
    case Ssh =>
    case NixShell(parent, packages) =>
      ArgumentsSurvive(shell, parent, NIX_SHELL, NixShellArgs(packages, head, args));
      OneMoreShell(shell, parent, packages, head, args);
  }

  function Posix(): Shell {
    line => Words(line, Between)
  }

  lemma {:induction false} OrdinaryIsBare(s: string, word: string)
    requires forall i :: 0 <= i < |s| ==> Ordinary(s[i])
    ensures Words(s, Bare(word)) == Some([word + s])
    decreases |s|
  {
    if s == "" {
      assert word + s == word;
    } else {
      OrdinaryIsBare(s[1..], word + [s[0]]);
      assert word + [s[0]] + s[1..] == word + s;
    }
  }

  lemma WordIsTakenApart(head: string)
    requires Words(head, Between) == Some([head])
    ensures TakesApart(Posix(), head)
  {
    forall args ensures Posix()(CommandLine(head, args)) == Some([head] + args) {
      CommandLineSplits(head, args);
    }
  }

  /** A POSIX shell takes apart what has an ordinary head, as nix-shell is. */
  lemma OrdinaryIsTakenApart(head: string)
    requires head != "" && forall i :: 0 <= i < |head| ==> Ordinary(head[i])
    ensures TakesApart(Posix(), head)
  {
    OrdinaryIsBare(head, "");
    assert "" + head == head && !Continued(head);
    WordIsTakenApart(head);
  }

  lemma PosixArgumentsSurvive(runner: Runner, head: string, args: seq<string>)
    requires head != "" && forall i :: 0 <= i < |head| ==> Ordinary(head[i])
    ensures Run(Posix(), Exec(runner, head, args), Depth(runner)) == Some([head] + args)
  {
    OrdinaryIsTakenApart(NIX_SHELL);
    OrdinaryIsTakenApart(head);
    ArgumentsSurvive(Posix(), runner, head, args);
  }
}
