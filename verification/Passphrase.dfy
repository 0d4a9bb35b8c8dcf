/** From a pasted key to the bytes that are hashed into the passphrase (backupMount.go,
    multilineSecret.go). A text is a sequence of decoded characters. */
module Passphrase {
  import opened Strings

  predicate Blank(c: char) {
    c == ' ' || c == '\t'
  }

  /** unicode.IsSpace. */
  predicate Space(c: char) {
    || c == '\t' || c == '\n' || c == '\U{0B}' || c == '\U{0C}' || c == '\r' || c == ' ' || c == '\U{85}' || c == '\U{A0}'
    || c == '\U{1680}' || '\U{2000}' <= c <= '\U{200A}' || c == '\U{2028}' || c == '\U{2029}' || c == '\U{202F}'
    || c == '\U{205F}' || c == '\U{3000}'
  }

  predicate AllBlank(s: string) {
    forall i :: 0 <= i < |s| ==> s[i] == ' ' || s[i] == '\t'
  }

  predicate AllSpace(s: string) {
    forall i :: 0 <= i < |s| ==> Space(s[i])
  }

  // ----- trimming -----

  /** bytes.TrimLeft of blanks. */
  function TrimLeft(s: string): string {
    if s != "" && Blank(s[0]) then TrimLeft(s[1..]) else s
  }

  function TrimSpaceLeft(s: string): string {
    if s != "" && Space(s[0]) then TrimSpaceLeft(s[1..]) else s
  }

  function TrimSpaceRight(s: string): string {
    if s != "" && Space(s[|s| - 1]) then TrimSpaceRight(s[..|s| - 1]) else s
  }

  /** bytes.TrimSpace. */
  function TrimSpace(s: string): string {
    TrimSpaceRight(TrimSpaceLeft(s))
  }

  /** Neither end is a space. */
  predicate Tight(s: string) {
    s != "" ==> !Space(s[0]) && !Space(s[|s| - 1])
  }

  lemma {:induction false} TrimSpaceLeftIs(before: string, rest: string)
    requires AllSpace(before) && (rest != "" ==> !Space(rest[0]))
    ensures TrimSpaceLeft(before + rest) == rest
    decreases |before|
  {
    if before == "" {
      assert before + rest == rest;
    } else {
      assert (before + rest)[1..] == before[1..] + rest;
      TrimSpaceLeftIs(before[1..], rest);
    }
  }

  lemma {:induction false} TrimSpaceRightIs(rest: string, after: string)
    requires AllSpace(after) && (rest != "" ==> !Space(rest[|rest| - 1]))
    ensures TrimSpaceRight(rest + after) == rest
    decreases |after|
  {
    if after == "" {
      assert rest + after == rest;
    } else {
      assert (rest + after)[..|rest + after| - 1] == rest + after[..|after| - 1];
      TrimSpaceRightIs(rest, after[..|after| - 1]);
    }
  }

  /** Trimming takes the spaces at both ends, and what is left determines it. */
  lemma TrimSpaceIs(before: string, core: string, after: string)
    requires AllSpace(before) && AllSpace(after) && Tight(core)
    ensures TrimSpace(before + core + after) == core
  {
    if core == "" {
      assert before + core + after == (before + after) + "";
      TrimSpaceLeftIs(before + after, "");
    } else {
      assert before + core + after == before + (core + after);
      TrimSpaceLeftIs(before, core + after);
      TrimSpaceRightIs(core, after);
    }
  }

  lemma {:induction false} LeftSpaces(s: string) returns (before: string)
    ensures AllSpace(before) && s == before + TrimSpaceLeft(s)
    ensures TrimSpaceLeft(s) != "" ==> !Space(TrimSpaceLeft(s)[0])
    decreases |s|
  {
    if s != "" && Space(s[0]) {
      before := LeftSpaces(s[1..]);
      before := [s[0]] + before;
    } else {
      before := "";
    }
  }

  lemma {:induction false} RightSpaces(s: string) returns (after: string)
    ensures AllSpace(after) && s == TrimSpaceRight(s) + after
    ensures TrimSpaceRight(s) != "" ==> !Space(TrimSpaceRight(s)[|TrimSpaceRight(s)| - 1])
    decreases |s|
  {
    if s != "" && Space(s[|s| - 1]) {
      after := RightSpaces(s[..|s| - 1]);
      after := after + [s[|s| - 1]];
    } else {
      after := "";
    }
  }

  lemma Trimmed(s: string) returns (before: string, after: string)
    ensures AllSpace(before) && AllSpace(after) && Tight(TrimSpace(s))
    ensures s == before + TrimSpace(s) + after
  {
    before := LeftSpaces(s);
    after := RightSpaces(TrimSpaceLeft(s));
    var core := TrimSpace(s);
    assert s == before + core + after;
    if core != "" { assert core[0] == TrimSpaceLeft(s)[0]; }
  }

  // ----- dedenting -----

  /** Blanks at the start of a line go, the rest stays. */
  function Dedented(s: string, lineStart: bool): string
    decreases |s|
  {
    if s == "" then ""
    else if lineStart && Blank(s[0]) then Dedented(s[1..], true)
    else [s[0]] + Dedented(s[1..], s[0] == '\n')
  }

  /** Whether a line starts after the text. */
  function StartsLine(s: string, lineStart: bool): bool
    decreases |s|
  {
    if s == "" then lineStart else StartsLine(s[1..], s[0] == '\n' || (lineStart && Blank(s[0])))
  }

  function Dedent(s: string): string {
    Dedented(s, true)
  }

  /** bytes.Split at newlines. */
  function Lines(s: string): (r: seq<string>)
    ensures |r| > 0
    decreases |s|
  {
    if s == "" then [""]
    else if s[0] == '\n' then [""] + Lines(s[1..])
    else var rest := Lines(s[1..]); [[s[0]] + rest[0]] + rest[1..]
  }

  function TrimAll(lines: seq<string>): (r: seq<string>)
    ensures |r| == |lines| && forall i :: 0 <= i < |lines| ==> r[i] == TrimLeft(lines[i])
  {
    seq(|lines|, i requires 0 <= i < |lines| => TrimLeft(lines[i]))
  }

  /** Overwrites line after line. */
  method TrimLeadingLineWhitespace(b: string) returns (r: string)
    ensures r == Dedent(b)
  {
    var split := Lines(b);
    var lines := new string[|split|](i requires 0 <= i < |split| => split[i]);
    for i := 0 to lines.Length
      invariant forall j :: 0 <= j < i ==> lines[j] == TrimLeft(split[j])
      invariant forall j :: i <= j < lines.Length ==> lines[j] == split[j]
    {
      lines[i] := TrimLeft(lines[i]);
    }
    assert lines[..] == TrimAll(split);
    r := Join(lines[..], "\n");
    LineByLineIsDedent(b);
  }

  /** Trimming each line is dedenting the text: within the first line, blanks met go only at its start. */
  lemma {:induction false} LineByLineIsDedent(s: string)
    ensures Join(TrimAll(Lines(s)), "\n") == Dedented(s, true)
    ensures Join([Lines(s)[0]] + TrimAll(Lines(s)[1..]), "\n") == Dedented(s, false)
    decreases |s|
  {
    var lines := Lines(s);
    if s == "" {
      assert TrimAll(lines) == [""] && [lines[0]] + TrimAll(lines[1..]) == [""];
    } else {
      LineByLineIsDedent(s[1..]);
      var rest := Lines(s[1..]);
      if s[0] == '\n' {
        assert lines[1..] == rest;
        assert TrimAll(lines) == [""] + TrimAll(rest) && [lines[0]] + TrimAll(lines[1..]) == [""] + TrimAll(rest);
        assert ([""] + TrimAll(rest))[1..] == TrimAll(rest);
        assert "" + "\n" + Dedented(s[1..], true) == ['\n'] + Dedented(s[1..], true);
      } else {
        assert lines[1..] == rest[1..];
        FirstLineGrows(s[0], rest[0], TrimAll(rest[1..]));
        assert [lines[0]] + TrimAll(lines[1..]) == [[s[0]] + rest[0]] + TrimAll(rest[1..]);
        assert TrimAll(rest) == [TrimLeft(rest[0])] + TrimAll(rest[1..]);
        assert lines[0][1..] == rest[0];
        assert TrimAll(lines) == [if Blank(s[0]) then TrimLeft(rest[0]) else lines[0]] + TrimAll(rest[1..]);
      }
    }
  }

  lemma FirstLineGrows(c: char, line: string, rest: seq<string>)
    ensures Join([[c] + line] + rest, "\n") == [c] + Join([line] + rest, "\n")
  {
    assert ([[c] + line] + rest)[1..] == rest && ([line] + rest)[1..] == rest;
  }

  lemma {:induction false} DedentedConcat(a: string, b: string, lineStart: bool)
    ensures Dedented(a + b, lineStart) == Dedented(a, lineStart) + Dedented(b, StartsLine(a, lineStart))
    decreases |a|
  {
    if a == "" {
      assert a + b == b;
    } else {
      assert (a + b)[1..] == a[1..] + b;
      DedentedConcat(a[1..], b, a[0] == '\n' || (lineStart && Blank(a[0])));
    }
  }

  lemma {:induction false} DedentedSpace(s: string, lineStart: bool)
    requires AllSpace(s)
    ensures AllSpace(Dedented(s, lineStart))
    decreases |s|
  {
    if s != "" {
      DedentedSpace(s[1..], s[0] == '\n' || (lineStart && Blank(s[0])));
    }
  }

  /** A text that begins with no blank loses none there, wherever it stands. */
  lemma DedentedTight(s: string, lineStart: bool)
    requires Tight(s)
    ensures Dedented(s, lineStart) == Dedented(s, true) && Tight(Dedented(s, true))
  {
    if s != "" {
      var init := s[..|s| - 1];
      assert s == init + [s[|s| - 1]];
      DedentedConcat(init, [s[|s| - 1]], true);
      assert Dedented([s[|s| - 1]], StartsLine(init, true)) == [s[|s| - 1]];
    }
  }

  // ----- the bytes that are hashed -----

  function PassphraseBytes(identity: string): string {
    TrimSpace(Dedent(identity))
  }

  /** They are those of the key without the spaces around it. */
  lemma PassphraseOfCore(before: string, core: string, after: string)
    requires AllSpace(before) && AllSpace(after) && Tight(core)
    ensures PassphraseBytes(before + core + after) == Dedent(core)
  {
    DedentedConcat(before + core, after, true);
    DedentedConcat(before, core, true);
    DedentedSpace(before, true);
    DedentedSpace(after, StartsLine(before + core, true));
    DedentedTight(core, StartsLine(before, true));
    TrimSpaceIs(Dedented(before, true), Dedent(core), Dedented(after, StartsLine(before + core, true)));
  }

  /** Trimming first, as the prompt does, changes nothing for any text. */
  lemma TrimmingFirst(identity: string)
    ensures PassphraseBytes(TrimSpace(identity) + "\n") == PassphraseBytes(identity)
  {
    var before, after := Trimmed(identity);
    PassphraseOfCore(before, TrimSpace(identity), after);
    PassphraseOfCore("", TrimSpace(identity), "\n");
    assert "" + TrimSpace(identity) + "\n" == TrimSpace(identity) + "\n";
  }

  // ----- indentation -----

  /** Each line behind blanks of its own. */
  function Indented(indents: seq<string>, lines: seq<string>): (r: seq<string>)
    requires |indents| == |lines|
    ensures |r| == |lines| && forall i :: 0 <= i < |lines| ==> r[i] == indents[i] + lines[i]
  {
    seq(|lines|, i requires 0 <= i < |lines| => indents[i] + lines[i])
  }

  predicate IsLine(s: string) {
    forall i :: 0 <= i < |s| ==> s[i] != '\n'
  }

  lemma {:induction false} LinesOfJoin(lines: seq<string>)
    requires lines != [] && forall i :: 0 <= i < |lines| ==> IsLine(lines[i])
    ensures Lines(Join(lines, "\n")) == lines
    decreases |lines|, |lines[0]|
  {
    var s := Join(lines, "\n");
    if lines[0] != "" {
      var shorter := [lines[0][1..]] + lines[1..];
      LinesOfJoin(shorter);
      FirstLineGrows(lines[0][0], lines[0][1..], lines[1..]);
      assert [lines[0][0]] + lines[0][1..] == lines[0];
      assert [lines[0]] + lines[1..] == lines;
      assert s[1..] == Join(shorter, "\n");
    } else if |lines| > 1 {
      LinesOfJoin(lines[1..]);
      assert s == ['\n'] + Join(lines[1..], "\n");
      assert s[1..] == Join(lines[1..], "\n");
    }
  }

  lemma {:induction false} TrimLeftOfIndented(indent: string, line: string)
    requires AllBlank(indent)
    ensures TrimLeft(indent + line) == TrimLeft(line)
    decreases |indent|
  {
    if indent == "" {
      assert indent + line == line;
    } else {
      assert (indent + line)[1..] == indent[1..] + line;
      TrimLeftOfIndented(indent[1..], line);
    }
  }

  predicate Indentation(indents: seq<string>, lines: seq<string>) {
    && lines != [] && |indents| == |lines|
    && forall i :: 0 <= i < |lines| ==> IsLine(lines[i]) && AllBlank(indents[i])
  }

  lemma IndentationGoes(indents: seq<string>, lines: seq<string>)
    requires Indentation(indents, lines)
    ensures Dedent(Join(Indented(indents, lines), "\n")) == Join(TrimAll(lines), "\n") == Dedent(Join(lines, "\n"))
  {
    var indented := Indented(indents, lines);
    forall i | 0 <= i < |lines| ensures IsLine(indented[i]) && TrimLeft(indented[i]) == TrimLeft(lines[i]) {
      TrimLeftOfIndented(indents[i], lines[i]);
    }
    LinesOfJoin(indented);
    LinesOfJoin(lines);
    assert TrimAll(indented) == TrimAll(lines);
    LineByLineIsDedent(Join(indented, "\n"));
    LineByLineIsDedent(Join(lines, "\n"));
  }

  /** Indenting the lines of any text by any blanks leaves the bytes hashed as they were. */
  lemma IndentingKeepsPassphrase(indents: seq<string>, lines: seq<string>)
    requires Indentation(indents, lines)
    ensures PassphraseBytes(Join(Indented(indents, lines), "\n")) == PassphraseBytes(Join(lines, "\n"))
  {
    IndentationGoes(indents, lines);
  }

  /** Dedenting gives the very text back just when none of its lines began with a blank. */
  lemma DedentUndoesIndenting(indents: seq<string>, lines: seq<string>)
    requires Indentation(indents, lines)
    ensures (Dedent(Join(Indented(indents, lines), "\n")) == Join(lines, "\n"))
       <==> (forall i :: 0 <= i < |lines| && lines[i] != "" ==> !Blank(lines[i][0]))
  {
    IndentationGoes(indents, lines);
    if forall i :: 0 <= i < |lines| && lines[i] != "" ==> !Blank(lines[i][0]) {
      assert TrimAll(lines) == lines;
    }
    if Join(TrimAll(lines), "\n") == Join(lines, "\n") {
      forall i | 0 <= i < |lines| ensures IsLine(TrimAll(lines)[i]) { TrimLeftIsLine(lines[i]); }
      LinesOfJoin(TrimAll(lines));
      LinesOfJoin(lines);
      forall i | 0 <= i < |lines| && lines[i] != "" ensures !Blank(lines[i][0]) {
        assert TrimLeft(lines[i]) == lines[i];
        TrimLeftBegins(lines[i]);
      }
    }
  }

  lemma {:induction false} TrimLeftIsLine(s: string)
    requires IsLine(s)
    ensures IsLine(TrimLeft(s))
    decreases |s|
  {
    if s != "" && Blank(s[0]) { TrimLeftIsLine(s[1..]); }
  }

  lemma {:induction false} TrimLeftBegins(s: string)
    ensures TrimLeft(s) != "" ==> !Blank(TrimLeft(s)[0])
    decreases |s|
  {
    if s != "" && Blank(s[0]) { TrimLeftBegins(s[1..]); }
  }

  // ----- the prompt -----

  /** A carriage return counts as a newline. */
  function Newline(c: char): char {
    if c == '\r' then '\n' else c
  }

  /** What is typed up to the first empty line, or all of it; the very first line may be empty. */
  function Typed(input: string, last: char): string
    decreases |input|
  {
    if input == "" || (last == '\n' && Newline(input[0]) == '\n') then ""
    else [Newline(input[0])] + Typed(input[1..], Newline(input[0]))
  }

  method ReadMultilineSecret(input: string) returns (r: string)
    ensures r == TrimSpace(Typed(input, 'x')) + "\n"
    ensures PassphraseBytes(r) == PassphraseBytes(Typed(input, 'x'))
  {
    var secret, lastWasNewline := "", false;
    var i := 0;
    while i < |input|
      invariant 0 <= i <= |input|
      invariant Typed(input, 'x') == secret + Typed(input[i..], if lastWasNewline then '\n' else 'x')
    {
      var b := input[i];
      if b == '\r' {
        b := '\n';
      }
      if b == '\n' {
        if lastWasNewline {
          assert Typed(input[i..], '\n') == "";
          break;
        }
        lastWasNewline := true;
      } else {
        lastWasNewline := false;
      }
      TypedGoesOn(input[i..], b);
      assert input[i..][1..] == input[i + 1..];
      secret := secret + [b];
      i := i + 1;
    }
    assert secret + "" == secret;
    r := TrimSpace(secret) + "\n";
    TrimmingFirst(secret);
  }

  lemma TypedGoesOn(input: string, b: char)
    requires input != "" && Newline(input[0]) == b
    ensures Typed(input[1..], b) == Typed(input[1..], if b == '\n' then '\n' else 'x')
  {
  }

  /** Two newlines in a row, counting carriage returns. */
  predicate HasEmptyLine(input: string) {
    exists i :: 0 < i < |input| && Newline(input[i - 1]) == '\n' && Newline(input[i]) == '\n'
  }

  /** The text with each carriage return turned into a newline. */
  function Newlines(input: string): (r: string)
    ensures |r| == |input|
  {
    seq(|input|, i requires 0 <= i < |input| => Newline(input[i]))
  }

  /** What comes after the first empty line. */
  function Unread(input: string): string {
    TypedIsPrefix(input, 'x');
    input[|Typed(input, 'x')|..]
  }

  lemma {:induction false} TypedIsPrefix(input: string, last: char)
    ensures |Typed(input, last)| <= |input| && Typed(input, last) == Newlines(input)[..|Typed(input, last)|]
    decreases |input|
  {
    if input != "" && !(last == '\n' && Newline(input[0]) == '\n') {
      TypedIsPrefix(input[1..], Newline(input[0]));
      assert Newlines(input) == [Newline(input[0])] + Newlines(input[1..]);
    }
  }

  /** All is read exactly when no line but the first is empty, whichever character ends the lines. */
  lemma TypedIsAll(input: string)
    ensures Typed(input, 'x') == Newlines(input) <==> !HasEmptyLine(input)
  {
    ReadToTheEnd(input, 'x');
    TypedIsPrefix(input, 'x');
  }

  lemma {:induction false} ReadToTheEnd(input: string, last: char)
    ensures |Typed(input, last)| == |input| <==> !HasEmptyLine(input) && !(input != "" && last == '\n' && Newline(input[0]) == '\n')
    decreases |input|
  {
    if input != "" {
      var rest := input[1..];
      ReadToTheEnd(rest, Newline(input[0]));
      if HasEmptyLine(rest) {
        var i :| 0 < i < |rest| && Newline(rest[i - 1]) == '\n' && Newline(rest[i]) == '\n';
        assert Newline(input[i]) == '\n' && Newline(input[i + 1]) == '\n';
      }
      if HasEmptyLine(input) {
        var i :| 0 < i < |input| && Newline(input[i - 1]) == '\n' && Newline(input[i]) == '\n';
        if i > 1 { assert rest[i - 2] == input[i - 1] && rest[i - 1] == input[i]; }
      }
    }
  }

  // ----- what the prompt loses -----

  /** How many characters are no spaces. */
  function Marks(s: string): nat
    decreases |s|
  {
    if s == "" then 0 else (if Space(s[0]) then 0 else 1) + Marks(s[1..])
  }

  lemma {:induction false} MarksConcat(a: string, b: string)
    ensures Marks(a + b) == Marks(a) + Marks(b)
    decreases |a|
  {
    if a == "" {
      assert a + b == b;
    } else {
      assert (a + b)[1..] == a[1..] + b;
      MarksConcat(a[1..], b);
    }
  }

  lemma {:induction false} NoMarks(s: string)
    ensures Marks(s) == 0 <==> AllSpace(s)
    decreases |s|
  {
    if s != "" {
      NoMarks(s[1..]);
      assert s == [s[0]] + s[1..];
    }
  }

  lemma {:induction false} DedentedMarks(s: string, lineStart: bool)
    ensures Marks(Dedented(s, lineStart)) == Marks(s)
    decreases |s|
  {
    if s != "" {
      if lineStart && Blank(s[0]) {
        DedentedMarks(s[1..], true);
      } else {
        DedentedMarks(s[1..], s[0] == '\n');
        assert Dedented(s, lineStart)[1..] == Dedented(s[1..], s[0] == '\n');
      }
    }
  }

  lemma HashedMarks(identity: string)
    ensures Marks(PassphraseBytes(identity)) == Marks(identity)
  {
    var s := Dedent(identity);
    DedentedMarks(identity, true);
    var before, after := Trimmed(s);
    MarksConcat(before + TrimSpace(s), after);
    MarksConcat(before, TrimSpace(s));
    NoMarks(before);
    NoMarks(after);
  }

  lemma SpaceBehind(s: string, rest: string)
    requires AllSpace(rest)
    ensures PassphraseBytes(s + rest) == PassphraseBytes(s)
  {
    var before, after := Trimmed(s);
    var core := TrimSpace(s);
    PassphraseOfCore(before, core, after);
    PassphraseOfCore(before, core, after + rest);
    assert before + core + (after + rest) == s + rest;
  }

  /** The prompt keeps the bytes hashed exactly when only spaces follow the first empty line. */
  lemma PromptKeepsPassphrase(input: string)
    ensures PassphraseBytes(Typed(input, 'x')) == PassphraseBytes(Newlines(input)) <==> AllSpace(Unread(input))
  {
    var read, rest := Typed(input, 'x'), Newlines(Unread(input));
    TypedIsPrefix(input, 'x');
    assert Newlines(input) == read + rest;
    assert AllSpace(rest) <==> AllSpace(Unread(input)) by { SpacesStay(Unread(input)); }
    if AllSpace(rest) { SpaceBehind(read, rest); }
    HashedMarks(read);
    HashedMarks(read + rest);
    MarksConcat(read, rest);
    NoMarks(rest);
  }

  lemma SpacesStay(s: string)
    ensures AllSpace(Newlines(s)) <==> AllSpace(s)
  {
    forall i | 0 <= i < |s| ensures Space(Newlines(s)[i]) <==> Space(s[i]) {}
    if AllSpace(Newlines(s)) { forall i | 0 <= i < |s| ensures Space(s[i]) { assert Space(Newlines(s)[i]); } }
  }

  /** A line that ends in a carriage return and a newline is followed by an empty line: it is the last. */
  lemma {:induction false} CarriageReturnEndsTheSecret(line: string, rest: string, last: char)
    requires forall i :: 0 <= i < |line| ==> Newline(line[i]) != '\n'
    requires line == "" ==> last != '\n'
    ensures Typed(line + "\r\n" + rest, last) == line + "\n"
    decreases |line|
  {
    var input := line + "\r\n" + rest;
    if line == "" {
      assert input == "\r\n" + rest && input[1..] == "\n" + rest;
      assert Typed(input[1..], '\n') == "";
    } else {
      assert input[1..] == line[1..] + "\r\n" + rest;
      CarriageReturnEndsTheSecret(line[1..], rest, line[0]);
      assert line + "\n" == [line[0]] + (line[1..] + "\n");
    }
  }

  /** A key pasted with any indentation, its lines ended by carriage returns or newlines, hashes
      like the key file itself exactly when only spaces follow the first empty line. */
  lemma PastedKey(input: string, indents: seq<string>, lines: seq<string>)
    requires Indentation(indents, lines) && Newlines(input) == Join(Indented(indents, lines), "\n")
    ensures PassphraseBytes(TrimSpace(Typed(input, 'x')) + "\n") == PassphraseBytes(Join(lines, "\n")) <==> AllSpace(Unread(input))
  {
    TrimmingFirst(Typed(input, 'x'));
    PromptKeepsPassphrase(input);
    IndentingKeepsPassphrase(indents, lines);
  }
}
