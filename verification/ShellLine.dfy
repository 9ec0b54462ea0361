/**
 How the gate-runner guard reads a Bash command line (`shell-line.ts`): the
 one-pass lexer, a printer with the quoting of sections 2.2.1 to 2.2.3 and the
 redirections of section 2.7 of the POSIX.1-2017 Shell Command Language, and the
 round trip between the two.
 */
module ShellLine {
  import opened Text

  // --------------------------------------------------------------- the lexer

  datatype Role = Argument | Output | Duplicate | Input

  datatype Line = Line(commands: seq<seq<string>>, outputs: seq<string>)

  /** The operand of `>&` that names a descriptor: `2`, `2-` or `-`. */
  predicate IsDescriptor(word: string) {
    word == "-" || (word != "" && AllDigits(if word[|word| - 1] == '-' then word[..|word| - 1] else word)
                    && IsDigit(word[0]))
  }

  /** What the reader holds between two characters. */
  datatype Lexer = Lexer(
    line: Line, words: seq<string>, word: string, inWord: bool, quote: Option<char>, role: Role)
  {
    function EndWord(): Lexer {
      if !inWord then this
      else
        var words' := if role == Argument then words + [word] else words;
        var outputs' := if role == Output || (role == Duplicate && !IsDescriptor(word))
                        then line.outputs + [word] else line.outputs;
        this.(line := line.(outputs := outputs'), words := words', role := Argument, word := "", inWord := false)
    }

    function EndCommand(): Lexer {
      var end := EndWord();
      end.(line := if end.words == [] then end.line else end.line.(commands := end.line.commands + [end.words]),
           words := [], role := Argument)
    }

    function Add(c: char): Lexer {
      this.(word := word + [c], inWord := true)
    }

    /** Before an operator: a glued descriptor number belongs to it, any other word ends. */
    function AtOperator(): Lexer {
      if inWord && word != "" && AllDigits(word) then this.(word := "", inWord := false) else EndWord()
    }
  }

  const Start := Lexer(Line([], []), [], "", false, None, Argument)

  predicate IsSeparator(c: char) {
    c == ';' || c == '&' || c == '|' || c == '(' || c == ')' || c == '`' || c == '\n'
  }

  /** Characters a backslash escapes between double quotes. */
  predicate IsDoubleEscape(c: char) {
    c == '$' || c == '`' || c == '"' || c == '\\'
  }

  predicate IsOperatorChar(c: char) {
    c == '<' || c == '>' || c == '|'
  }

  predicate OpensOperator(s: string)
    requires s != ""
  {
    s[0] == '>' || s[0] == '<' || (s[0] == '&' && |s| > 1 && s[1] == '>')
  }

  /** What is left of a line after a comment: its newline on. */
  function AfterComment(s: string): (rest: string)
    ensures |rest| <= |s|
  {
    if s == "" || s[0] == '\n' then s else AfterComment(s[1..])
  }

  function OperatorRun(s: string): (n: nat)
    ensures n <= |s|
  {
    if s != "" && IsOperatorChar(s[0]) then 1 + OperatorRun(s[1..]) else 0
  }

  /** The length of the redirection operator a text starts with, a trailing `&` not counted. */
  function OperatorLength(s: string): (n: nat)
    requires s != "" && OpensOperator(s)
    ensures 1 <= n <= |s|
  {
    var skip := if s[0] == '&' then 2 else 1;
    skip + OperatorRun(s[skip..])
  }

  /** The reader after a redirection operator, and the text after it. */
  function Redirect(s: string, st: Lexer): (r: (Lexer, string))
    requires s != "" && OpensOperator(s)
    ensures |r.1| < |s|
  {
    var n := OperatorLength(s);
    var writes := '>' in s[..n];
    var at := st.AtOperator();
    if n < |s| && s[n] == '&' then (at.(role := if writes then Duplicate else Input), s[n + 1..])
    else if n < |s| && s[n] == '(' then (at, s[n..])
    else (at.(role := if writes then Output else Input), s[n..])
  }

  /** The reader after the whole of `s`. */
  function Lex(s: string, st: Lexer): Lexer
    decreases |s|
  {
    if s == "" then st
    else
      var ch, rest := s[0], s[1..];
      if st.quote.Some? then
        if ch == st.quote.value then Lex(rest, st.(quote := None))
        else if ch == '\\' && st.quote.value == '"' && rest != "" && IsDoubleEscape(rest[0]) then
          Lex(rest[1..], st.(word := st.word + [rest[0]]))
        else Lex(rest, st.(word := st.word + [ch]))
      else if ch == '\'' || ch == '"' then Lex(rest, st.(quote := Some(ch), inWord := true))
      else if ch == '$' && rest != "" && (rest[0] == '\'' || rest[0] == '"') then Lex(rest, st)
      else if ch == '\\' then
        if rest == "" then st
        else Lex(rest[1..], if rest[0] == '\n' then st else st.Add(rest[0]))
      else if ch == '#' && !st.inWord then Lex(AfterComment(rest), st)
      else if OpensOperator(s) then
        var r := Redirect(s, st);
        Lex(r.1, r.0)
      else if ch == ' ' || ch == '\t' then Lex(rest, st.EndWord())
      else if IsSeparator(ch) then Lex(rest, st.EndCommand())
      else Lex(rest, st.Add(ch))
  }

  function Parsed(command: string): Line {
    Lex(command, Start).EndCommand().line
  }

  method ParseShellLine(command: string) returns (line: Line)
    ensures line == Parsed(command)
  {
    var st := Start;
    var i := 0;
    while i < |command|
      invariant 0 <= i <= |command|
      invariant Lex(command[i..], st) == Lex(command, Start)
      decreases |command| - i
    {
      i, st := Step(command, i, st);
    }
    assert command[i..] == "";
    line := st.EndCommand().line;
  }

  /** One turn of the loop: the character at `i`, and the ones it takes with it. */
  method Step(command: string, i: nat, st: Lexer) returns (next: nat, after: Lexer)
    requires i < |command|
    ensures i < next <= |command|
    ensures Lex(command[next..], after) == Lex(command[i..], st)
  {
    var ch := command[i];
    ghost var s := command[i..];
    assert s[1..] == command[i + 1..];
    var more := i + 1 < |command|;
    if st.quote.Some? {
      if ch == st.quote.value {
        return i + 1, st.(quote := None);
      } else if ch == '\\' && st.quote.value == '"' && more && IsDoubleEscape(command[i + 1]) {
        assert s[1..][1..] == command[i + 2..];
        return i + 2, st.(word := st.word + [command[i + 1]]);
      }
      return i + 1, st.(word := st.word + [ch]);
    }
    if ch == '\'' || ch == '"' {
      return i + 1, st.(quote := Some(ch), inWord := true);
    }
    if ch == '$' && more && (command[i + 1] == '\'' || command[i + 1] == '"') {
      return i + 1, st;
    }
    if ch == '\\' {
      if !more {
        assert s[1..] == "";
        return i + 1, st;
      }
      assert s[1..][1..] == command[i + 2..];
      return i + 2, if command[i + 1] == '\n' then st else st.Add(command[i + 1]);
    }
    if ch == '#' && !st.inWord {
      next := SkipComment(command, i + 1);
      return next, st;
    }
    if ch == '>' || ch == '<' || (ch == '&' && more && command[i + 1] == '>') {
      next, after := StepOperator(command, i, st);
      return;
    }
    if ch == ' ' || ch == '\t' {
      return i + 1, st.EndWord();
    } else if IsSeparator(ch) {
      return i + 1, st.EndCommand();
    }
    return i + 1, st.Add(ch);
  }

  method SkipComment(command: string, from: nat) returns (i: nat)
    requires from <= |command|
    ensures from <= i <= |command| && command[i..] == AfterComment(command[from..])
  {
    i := from;
    while i < |command| && command[i] != '\n'
      invariant from <= i <= |command|
      invariant AfterComment(command[i..]) == AfterComment(command[from..])
    {
      assert command[i..][1..] == command[i + 1..];
      i := i + 1;
    }
  }

  method SkipOperator(command: string, from: nat) returns (j: nat)
    requires from <= |command|
    ensures j == from + OperatorRun(command[from..]) <= |command|
  {
    j := from;
    while j < |command| && IsOperatorChar(command[j])
      invariant from <= j <= |command|
      invariant from + OperatorRun(command[from..]) == j + OperatorRun(command[j..])
    {
      assert command[j..][1..] == command[j + 1..];
      j := j + 1;
    }
  }

  lemma OperatorLengthAt(command: string, i: nat, skip: nat)
    requires i < |command| && OpensOperator(command[i..])
    requires skip == if command[i] == '&' then 2 else 1
    ensures i + skip <= |command|
    ensures OperatorLength(command[i..]) == skip + OperatorRun(command[i + skip..])
  {
    assert command[i..][skip..] == command[i + skip..];
  }

  method StepOperator(command: string, i: nat, st: Lexer) returns (next: nat, after: Lexer)
    requires i < |command| && OpensOperator(command[i..])
    ensures i < next <= |command|
    ensures Redirect(command[i..], st) == (after, command[next..])
  {
    hide OperatorLength, OperatorRun;
    ghost var s := command[i..];
    after := st.AtOperator();
    var skip := if command[i] == '&' then 2 else 1;
    OperatorLengthAt(command, i, skip);
    var j := SkipOperator(command, i + skip);
    assert OperatorLength(s) == j - i;
    assert s[..j - i] == command[i..j] && s[j - i..] == command[j..];
    var writes := '>' in command[i..j];
    if j < |command| && command[j] == '&' {
      assert s[j - i + 1..] == command[j + 1..];
      next, after := j + 1, after.(role := if writes then Duplicate else Input);
    } else if j < |command| && command[j] == '(' {
      next := j;
    } else {
      next, after := j, after.(role := if writes then Output else Input);
    }
  }

  // ------------------------------------------------------------- the printer

  /** A character with no meaning to the shell. */
  predicate IsPlain(c: char) {
    && !IsSeparator(c) && !IsOperatorChar(c) && !IsDoubleEscape(c)
    && c != ' ' && c != '\t' && c != '\'' && c != '#'
  }

  /** A character a bare stretch may hold; `$` and `#` where the word leaves them their own meaning. */
  predicate IsBare(c: char) {
    IsPlain(c) || c == '$' || c == '#'
  }

  predicate IsQuote(c: char) {
    c == '\'' || c == '"'
  }

  /**
   A stretch of a word in one of the ways the shell quotes: bare, in either quotes,
   in either quotes after a `$`, backslashed, or a line continued on the next.
   */
  datatype Piece =
    | Bare(text: string)
    | Single(text: string)
    | Double(text: string)
    | Escaped(text: string)
    | Ansi(text: string)
    | Locale(text: string)
    | Continued(text: string)
  {
    predicate Legal() {
      match this
      case Bare(text) => text != "" && forall c | c in text :: IsBare(c)
      case Single(text) => '\'' !in text
      case Double(_) => true
      case Escaped(text) => text != "" && '\n' !in text
      case Ansi(text) => '\'' !in text
      case Locale(_) => true
      case Continued(text) => text == ""
    }

    function Print(): string {
      match this
      case Bare(text) => text
      case Single(text) => "'" + text + "'"
      case Double(text) => "\"" + EscapeDouble(text) + "\""
      case Escaped(text) => Backslashed(text)
      case Ansi(text) => "$'" + text + "'"
      case Locale(text) => "$\"" + EscapeDouble(text) + "\""
      case Continued(_) => "\\\n"
    }

    predicate EndsInDollar() {
      Bare? && text != "" && text[|text| - 1] == '$'
    }
  }

  function EscapeOne(c: char): string {
    if IsDoubleEscape(c) then ['\\', c] else [c]
  }

  function EscapeDouble(text: string): string {
    if text == "" then ""
    else EscapeOne(text[0]) + EscapeDouble(text[1..])
  }

  function Backslashed(text: string): string {
    if text == "" then "" else ['\\', text[0]] + Backslashed(text[1..])
  }

  type Word = seq<Piece>

  /** A bare `#` does not start a word, and a bare `$` does not come right before a quote. */
  predicate Joined(word: Word, inWord: bool) {
    word == []
    || (&& word[0].Legal()
        && (!inWord && word[0].Bare? ==> word[0].text[0] != '#')
        && (word[0].EndsInDollar() && |word| > 1 ==> !word[1].Single? && !word[1].Double?)
        && Joined(word[1..], inWord || !word[0].Continued?))
  }

  /** More than continued lines. */
  predicate HasPiece(word: Word) {
    word != [] && (!word[0].Continued? || HasPiece(word[1..]))
  }

  predicate LegalWord(word: Word) {
    HasPiece(word) && Joined(word, false)
  }

  function WordText(word: Word): string {
    if word == [] then "" else word[0].text + WordText(word[1..])
  }

  function PrintWord(word: Word): string {
    if word == [] then "" else word[0].Print() + PrintWord(word[1..])
  }

  /** The redirection operators of section 2.7, and Bash's `&>` and `&>>`. */
  datatype Operator = Write | Append | Clobber | ReadWrite | Both | BothAppend | CopyOut | Read | CopyIn {
    function Print(): (s: string)
      ensures s != "" && OpensOperator(s)
    {
      match this
      case Write => ">"
      case Append => ">>"
      case Clobber => ">|"
      case ReadWrite => "<>"
      case Both => "&>"
      case BothAppend => "&>>"
      case CopyOut => ">&"
      case Read => "<"
      case CopyIn => "<&"
    }

    function Role(): Role {
      match this
      case CopyOut => Duplicate
      case Read => Input
      case CopyIn => Input
      case _ => Output
    }
  }

  /** A redirection may be glued to the word before it, and its target to the operator. */
  datatype Item =
    | Arg(word: Word)
    | Redirection(glued: bool, fd: string, op: Operator, tight: bool, target: Word)
  {
    predicate Legal() {
      match this
      case Arg(word) => LegalWord(word)
      case Redirection(glued, fd, op, _, target) =>
        LegalWord(target) && AllDigits(fd) && (op.Both? || op.BothAppend? || glued ==> fd == "")
    }

    function Print(): string {
      match this
      case Arg(word) => PrintWord(word)
      case Redirection(_, fd, op, tight, target) => fd + (op.Print() + ((if tight then "" else " ") + PrintWord(target)))
    }

    predicate Glued() {
      Redirection? && glued
    }

    /** The text of its word. */
    function Text(): string {
      WordText(if Arg? then word else target)
    }

    /** What the item adds to its command's words. */
    function Words(): seq<string> {
      match this
      case Arg(word) => [WordText(word)]
      case Redirection(_, _, _, _, _) => []
    }

    /** The file the item sends output to. */
    function Outputs(): seq<string> {
      match this
      case Arg(_) => []
      case Redirection(_, _, op, _, target) =>
        var file := WordText(target);
        if op.Role() == Output || (op.Role() == Duplicate && !IsDescriptor(file)) then [file] else []
    }
  }

  type Command = seq<Item>

  function CommandWords(command: Command): seq<string> {
    if command == [] then [] else CommandWords(command[..|command| - 1]) + command[|command| - 1].Words()
  }

  function CommandOutputs(command: Command): seq<string> {
    if command == [] then [] else CommandOutputs(command[..|command| - 1]) + command[|command| - 1].Outputs()
  }

  /** A glued redirection follows its word at once; any other item follows a space. */
  function Gap(command: Command): string
    requires command != []
  {
    if |command| > 1 && command[|command| - 1].Glued() then "" else " "
  }

  function PrintCommand(command: Command): string {
    if command == [] then ""
    else PrintCommand(command[..|command| - 1]) + (Gap(command) + command[|command| - 1].Print())
  }

  predicate IsNumber(word: string) {
    word != "" && AllDigits(word)
  }

  /** The last item is glued to a word of digits, however it is quoted: the reader takes the word for its descriptor. */
  predicate Claims(command: Command)
    requires command != []
  {
    |command| > 1 && command[|command| - 1].Glued() && IsNumber(command[|command| - 2].Text())
  }

  /** The items the reader keeps: all but those whose word the next item claims. */
  function Survivors(command: Command): (survivors: Command)
    ensures command != [] ==> survivors != [] && survivors[|survivors| - 1] == command[|command| - 1]
  {
    if command == [] then []
    else
      var before := Survivors(command[..|command| - 1]);
      (if Claims(command) then before[..|before| - 1] else before) + [command[|command| - 1]]
  }

  /** No claimed word counts: it is an input, or the descriptor of a duplication. */
  predicate LosesNothing(command: Command) {
    command == []
    || (LosesNothing(command[..|command| - 1])
        && (Claims(command) ==> command[|command| - 2].Words() == [] && command[|command| - 2].Outputs() == []))
  }

  /** What ends a command before the next one: separators, or a comment and its newline. */
  datatype Ending = Separators(text: string) | Comment(text: string) {
    predicate Legal() {
      match this
      case Separators(text) => text != "" && forall c | c in text :: IsSeparator(c)
      case Comment(text) => '\n' !in text
    }

    function Print(): string {
      match this
      case Separators(text) => text
      case Comment(text) => "#" + text + "\n"
    }
  }

  datatype Ended = Ended(command: Command, ending: Ending) {
    predicate Legal() {
      LegalCommand(command) && ending.Legal()
    }
  }

  predicate LegalCommand(command: Command) {
    forall item | item in command :: item.Legal()
  }

  predicate LegalScript(script: seq<Ended>) {
    forall e | e in script :: e.Legal()
  }

  /** The commands of a script, each with its ending, then the last one. */
  function PrintScript(script: seq<Ended>, last: Command): string {
    if script == [] then PrintCommand(last)
    else PrintCommand(script[0].command) + (" " + (script[0].ending.Print() + PrintScript(script[1..], last)))
  }

  function WithCommand(line: Line, command: Command): Line {
    var words := CommandWords(command);
    Line(if words == [] then line.commands else line.commands + [words], line.outputs + CommandOutputs(command))
  }

  /** What the script says: the words of every command that has any, and every output file, in order. */
  function Meant(script: seq<Ended>, last: Command, before: Line): Line {
    if script == [] then WithCommand(before, last)
    else Meant(script[1..], last, WithCommand(before, script[0].command))
  }

  /** What the reader hears of a script: the same, without the words it takes for descriptors. */
  function Heard(script: seq<Ended>, last: Command, before: Line): Line {
    if script == [] then WithCommand(before, Survivors(last))
    else Heard(script[1..], last, WithCommand(before, Survivors(script[0].command)))
  }

  predicate ScriptLosesNothing(script: seq<Ended>, last: Command) {
    LosesNothing(last) && forall e | e in script :: LosesNothing(e.command)
  }

  // -------------------------------------------------------------- round trip

  /** What follows a bare `$` that is one: anything but a quote. */
  predicate NoQuote(rest: string) {
    rest == "" || !IsQuote(rest[0])
  }

  lemma {:induction false} LexBare(text: string, rest: string, st: Lexer)
    requires st.quote == None && forall c | c in text :: IsBare(c)
    requires text != "" && !st.inWord ==> text[0] != '#'
    requires text != "" && text[|text| - 1] == '$' ==> NoQuote(rest)
    ensures Lex(text + rest, st) == Lex(rest, st.(word := st.word + text, inWord := st.inWord || text != ""))
  {
    if text == "" {
      assert text + rest == rest && st.word + text == st.word;
    } else {
      var more := text[1..] + rest;
      assert text[0] in text && (text + rest)[1..] == more;
      assert st.word + text == st.word + [text[0]] + text[1..];
      assert |text| > 1 ==> text[1] in text && more[0] == text[1];
      assert text[0] == '$' ==> NoQuote(more);
      LexBare(text[1..], rest, st.Add(text[0]));
    }
  }

  lemma {:induction false} LexSingle(text: string, rest: string, st: Lexer)
    requires st.quote == Some('\'') && '\'' !in text
    ensures Lex(text + ("'" + rest), st) == Lex(rest, st.(word := st.word + text, quote := None))
  {
    if text == "" {
      assert text + ("'" + rest) == "'" + rest && ("'" + rest)[1..] == rest && st.word + text == st.word;
    } else {
      assert text[0] in text && (text + ("'" + rest))[1..] == text[1..] + ("'" + rest);
      assert st.word + text == st.word + [text[0]] + text[1..];
      LexSingle(text[1..], rest, st.(word := st.word + [text[0]]));
    }
  }

  lemma LexDoubleOne(c: char, next: string, st: Lexer)
    requires st.quote == Some('"')
    ensures Lex(EscapeOne(c) + next, st) == Lex(next, st.(word := st.word + [c]))
  {
    if IsDoubleEscape(c) {
      assert (['\\', c] + next)[1..] == [c] + next && ([c] + next)[1..] == next;
    } else {
      assert ([c] + next)[1..] == next;
    }
  }

  lemma {:induction false} LexDouble(text: string, rest: string, st: Lexer)
    requires st.quote == Some('"')
    ensures Lex(EscapeDouble(text) + ("\"" + rest), st) == Lex(rest, st.(word := st.word + text, quote := None))
  {
    var tail := "\"" + rest;
    if text == "" {
      assert EscapeDouble(text) + tail == tail && tail[1..] == rest && st.word + text == st.word;
    } else {
      hide Lex;
      assert EscapeDouble(text) + tail == EscapeOne(text[0]) + (EscapeDouble(text[1..]) + tail);
      assert st.word + text == st.word + [text[0]] + text[1..];
      LexDoubleOne(text[0], EscapeDouble(text[1..]) + tail, st);
      LexDouble(text[1..], rest, st.(word := st.word + [text[0]]));
    }
  }

  lemma {:induction false} LexEscaped(text: string, rest: string, st: Lexer)
    requires st.quote == None && '\n' !in text
    ensures Lex(Backslashed(text) + rest, st) == Lex(rest, st.(word := st.word + text, inWord := st.inWord || text != ""))
  {
    if text == "" {
      assert Backslashed(text) + rest == rest && st.word + text == st.word;
    } else {
      var next := Backslashed(text[1..]) + rest;
      assert text[0] in text && Backslashed(text) + rest == ['\\', text[0]] + next;
      assert (['\\', text[0]] + next)[1..][1..] == next;
      assert st.word + text == st.word + [text[0]] + text[1..];
      LexEscaped(text[1..], rest, st.Add(text[0]));
    }
  }

  /** A stretch is read as its text, whatever follows: but no quote right after a bare `$`, and no bare `#` where no word is open. */
  lemma LexPiece(piece: Piece, rest: string, st: Lexer)
    requires piece.Legal() && st.quote == None
    requires piece.Bare? && !st.inWord ==> piece.text[0] != '#'
    requires piece.EndsInDollar() ==> NoQuote(rest)
    ensures Lex(piece.Print() + rest, st)
      == Lex(rest, st.(word := st.word + piece.text, inWord := st.inWord || !piece.Continued?))
  {
    match piece
    case Bare(text) => LexBare(text, rest, st);
    case Single(text) => LexSingled(text, rest, st);
    case Double(text) => LexDoubled(text, rest, st);
    case Escaped(text) => LexEscaped(text, rest, st);
    case Ansi(text) =>
      assert "$'" + text + "'" + rest == "$" + ("'" + text + "'" + rest);
      LexDollar("'" + text + "'" + rest, st);
      LexSingled(text, rest, st);
    case Locale(text) =>
      assert "$\"" + EscapeDouble(text) + "\"" + rest == "$" + ("\"" + EscapeDouble(text) + "\"" + rest);
      LexDollar("\"" + EscapeDouble(text) + "\"" + rest, st);
      LexDoubled(text, rest, st);
    case Continued(text) =>
      assert ("\\\n" + rest)[1..][1..] == rest && st.word + text == st.word;
  }

  /** A `$` right before a quote says only that the quote is one. */
  lemma LexDollar(quoted: string, st: Lexer)
    requires st.quote == None && quoted != "" && IsQuote(quoted[0])
    ensures Lex("$" + quoted, st) == Lex(quoted, st)
  {
    assert ("$" + quoted)[1..] == quoted;
  }

  lemma LexSingled(text: string, rest: string, st: Lexer)
    requires st.quote == None && '\'' !in text
    ensures Lex("'" + text + "'" + rest, st) == Lex(rest, st.(word := st.word + text, inWord := true))
  {
    assert "'" + text + "'" + rest == "'" + (text + ("'" + rest));
    assert ("'" + (text + ("'" + rest)))[1..] == text + ("'" + rest);
    LexSingle(text, rest, st.(quote := Some('\''), inWord := true));
  }

  lemma LexDoubled(text: string, rest: string, st: Lexer)
    requires st.quote == None
    ensures Lex("\"" + EscapeDouble(text) + "\"" + rest, st) == Lex(rest, st.(word := st.word + text, inWord := true))
  {
    assert "\"" + EscapeDouble(text) + "\"" + rest == "\"" + (EscapeDouble(text) + ("\"" + rest));
    assert ("\"" + (EscapeDouble(text) + ("\"" + rest)))[1..] == EscapeDouble(text) + ("\"" + rest);
    LexDouble(text, rest, st.(quote := Some('"'), inWord := true));
  }

  /** A printed word starts with a bare character, a `$`, a quote or a backslash. */
  lemma PrintedFirst(word: Word, inWord: bool, rest: string)
    requires word != [] && Joined(word, inWord)
    ensures PrintWord(word) != "" && (PrintWord(word) + rest)[0] == PrintWord(word)[0]
    ensures var c := PrintWord(word)[0];
      && (IsBare(c) || IsQuote(c) || c == '\\')
      && (IsQuote(c) <==> word[0].Single? || word[0].Double?)
  {
    var first := word[0];
    if first.Bare? {
      assert first.text[0] in first.text;
    }
    assert first.Print() != "" && PrintWord(word)[0] == first.Print()[0];
  }

  lemma {:induction false} LexWord(word: Word, rest: string, st: Lexer)
    requires st.quote == None && Joined(word, st.inWord) && NoQuote(rest)
    ensures Lex(PrintWord(word) + rest, st)
         == Lex(rest, st.(word := st.word + WordText(word), inWord := st.inWord || HasPiece(word)))
    decreases |word|
  {
    hide Lex, PrintWord, WordText, HasPiece, Joined, Piece.Print, IsBare, Piece.Legal, Piece.EndsInDollar;
    WordParts(word);
    if word == [] {
      assert "" + rest == rest && st.word + "" == st.word;
    } else {
      var next := PrintWord(word[1..]) + rest;
      var after := st.(word := st.word + word[0].text, inWord := st.inWord || !word[0].Continued?);
      PieceJoins(word, rest, st.inWord);
      LexPiece(word[0], next, st);
      assert word[0].Print() + next == word[0].Print() + PrintWord(word[1..]) + rest;
      assert st.word + (word[0].text + WordText(word[1..])) == after.word + WordText(word[1..]);
      LexWord(word[1..], rest, after);
    }
  }

  lemma WordParts(word: Word)
    ensures word == [] ==> PrintWord(word) == "" && WordText(word) == "" && !HasPiece(word)
    ensures word != [] ==>
      && PrintWord(word) == word[0].Print() + PrintWord(word[1..]) && WordText(word) == word[0].text + WordText(word[1..])
      && (HasPiece(word) <==> !word[0].Continued? || HasPiece(word[1..]))
  {
  }

  /** What the first piece of a word is followed by does not change what it means. */
  lemma PieceJoins(word: Word, rest: string, inWord: bool)
    requires word != [] && Joined(word, inWord) && NoQuote(rest)
    ensures word[0].Legal() && (word[0].Bare? && !inWord ==> word[0].text[0] != '#')
    ensures word[0].EndsInDollar() ==> NoQuote(PrintWord(word[1..]) + rest)
    ensures Joined(word[1..], inWord || !word[0].Continued?)
  {
    if |word| > 1 {
      assert word[1..][0] == word[1];
      PrintedFirst(word[1..], inWord || !word[0].Continued?, rest);
    } else {
      assert PrintWord(word[1..]) + rest == rest;
    }
  }

  /** Between words: nothing read, nothing quoted, the role back to argument. */
  predicate Clean(st: Lexer) {
    st.quote == None && !st.inWord && st.word == "" && st.role == Argument
  }

  /** A whole word read after a clean start is still open. */
  function Open(st: Lexer, role: Role, text: string): Lexer {
    st.(role := role, word := text, inWord := true)
  }

  lemma LexOpen(word: Word, rest: string, st: Lexer, role: Role)
    requires Clean(st) && LegalWord(word) && NoQuote(rest)
    ensures Lex(PrintWord(word) + rest, st.(role := role)) == Lex(rest, Open(st, role, WordText(word)))
  {
    hide Lex;
    LexWord(word, rest, st.(role := role));
    assert "" + WordText(word) == WordText(word);
  }

  lemma {:induction false} RunAppend(run: string, rest: string)
    requires forall c | c in run :: IsOperatorChar(c)
    requires rest != "" && !IsOperatorChar(rest[0])
    ensures OperatorRun(run + rest) == |run|
  {
    if run == "" {
      assert run + rest == rest;
    } else {
      assert run[0] in run && (run + rest)[1..] == run[1..] + rest;
      RunAppend(run[1..], rest);
    }
  }

  /** An operator without the ampersand of `>&` and `<&`. */
  function Signs(op: Operator): string {
    match op
    case CopyOut => ">"
    case CopyIn => "<"
    case _ => op.Print()
  }

  lemma SignsShape(op: Operator)
    ensures var signs := Signs(op); var skip := if signs[0] == '&' then 2 else 1;
            && |signs| >= skip && OpensOperator(signs)
            && (forall c | c in signs[skip..] :: IsOperatorChar(c))
            && ('>' in signs <==> op.Role() == Output || op.Role() == Duplicate)
  {
    assert '>' in "&>" by { assert "&>"[1] == '>'; }
    assert '>' in "&>>" by { assert "&>>"[1] == '>'; }
    assert '>' in "<>" by { assert "<>"[1] == '>'; }
    assert '>' in ">" && '>' in ">>" && '>' in ">|" && '>' !in "<";
  }

  lemma SignsLength(signs: string, after: string)
    requires signs != "" && OpensOperator(signs)
    requires after != "" && !IsOperatorChar(after[0])
    requires forall c | c in signs[if signs[0] == '&' then 2 else 1..] :: IsOperatorChar(c)
    ensures OpensOperator(signs + after) && OperatorLength(signs + after) == |signs|
  {
    var skip := if signs[0] == '&' then 2 else 1;
    var s := signs + after;
    assert s[0] == signs[0] && (|signs| > 1 ==> s[1] == signs[1]);
    assert s[skip..] == signs[skip..] + after;
    RunAppend(signs[skip..], after);
  }

  /** What may follow an operator without becoming part of it. */
  predicate EndsOperator(tail: string) {
    tail != "" && !IsOperatorChar(tail[0]) && tail[0] != '&' && tail[0] != '('
  }

  lemma WordEndsOperator(word: Word, rest: string)
    requires LegalWord(word)
    ensures EndsOperator(PrintWord(word) + rest)
  {
    PrintedFirst(word, false, rest);
  }

  /** A redirection operator and what comes before its target. */
  lemma RedirectPrinted(op: Operator, tail: string, st: Lexer)
    requires EndsOperator(tail)
    ensures OpensOperator(op.Print() + tail)
    ensures Redirect(op.Print() + tail, st) == (st.AtOperator().(role := op.Role()), tail)
  {
    hide OperatorLength;
    var signs := Signs(op);
    var after := if op.CopyOut? || op.CopyIn? then "&" + tail else tail;
    var s := signs + after;
    assert op.Print() + tail == s;
    SignsShape(op);
    SignsLength(signs, after);
    assert s[..|signs|] == signs && s[|signs|..] == after && s[|signs|] == after[0];
    if op.CopyOut? || op.CopyIn? {
      assert s[|signs| + 1..] == tail;
    }
  }

  lemma LexRedirect(op: Operator, tail: string, st: Lexer)
    requires st.quote == None && EndsOperator(tail)
    ensures Lex(op.Print() + tail, st) == Lex(tail, st.AtOperator().(role := op.Role()))
  {
    hide Redirect;
    RedirectPrinted(op, tail, st);
  }

  lemma LexSpace(rest: string, st: Lexer)
    requires st.quote == None
    ensures Lex(" " + rest, st) == Lex(rest, st.EndWord())
  {
    assert (" " + rest)[1..] == rest;
  }

  lemma {:induction false} LexDigits(fd: string, rest: string, st: Lexer)
    requires Clean(st) && AllDigits(fd)
    ensures Lex(fd + rest, st) == Lex(rest, st.(word := fd, inWord := fd != ""))
  {
    hide Lex;
    assert fd != "" ==> fd[0] in fd && fd[|fd| - 1] in fd;
    LexBare(fd, rest, st);
    assert "" + fd == fd;
  }

  /** The reader once an item is read, its last word still open. */
  function AfterItem(st: Lexer, item: Item): Lexer {
    match item
    case Arg(word) => Open(st, Argument, WordText(word))
    case Redirection(_, _, op, _, target) => Open(st, op.Role(), WordText(target))
  }

  /** A redirection read where the operator leaves the reader between words. */
  lemma LexOperatorAndTarget(item: Item, rest: string, st: Lexer, at: Lexer)
    requires item.Legal() && item.Redirection? && at.quote == None && Clean(st) && NoQuote(rest)
    requires at.AtOperator().(role := Argument) == st
    ensures Lex(item.op.Print() + ((if item.tight then "" else " ") + PrintWord(item.target)) + rest, at) == Lex(rest, AfterItem(st, item))
  {
    hide Lex;
    var op, target := item.op, item.target;
    var word := PrintWord(target) + rest;
    var tail := if item.tight then word else " " + word;
    assert item.op.Print() + ((if item.tight then "" else " ") + PrintWord(target)) + rest == op.Print() + tail;
    WordEndsOperator(target, rest);
    LexRedirect(op, tail, at);
    assert at.AtOperator().(role := op.Role()) == st.(role := op.Role());
    if !item.tight {
      LexSpace(word, st.(role := op.Role()));
    }
    LexOpen(target, rest, st, op.Role());
  }

  lemma LexItem(item: Item, rest: string, st: Lexer)
    requires Clean(st) && item.Legal() && NoQuote(rest)
    ensures Lex(item.Print() + rest, st) == Lex(rest, AfterItem(st, item))
  {
    hide Lex;
    match item
    case Arg(word) => LexOpen(word, rest, st, Argument);
    case Redirection(_, fd, op, tight, target) =>
      var tail := op.Print() + ((if tight then "" else " ") + PrintWord(target)) + rest;
      assert item.Print() + rest == fd + tail;
      LexDigits(fd, tail, st);
      LexOperatorAndTarget(item, rest, st, st.(word := fd, inWord := fd != ""));
  }

  /** Ending an item's last word files what the item adds. */
  lemma EndItem(st: Lexer, item: Item)
    requires Clean(st)
    ensures AfterItem(st, item).EndWord()
         == st.(words := st.words + item.Words(), line := st.line.(outputs := st.line.outputs + item.Outputs()))
  {
    assert st.words + [] == st.words && st.line.outputs + [] == st.line.outputs;
  }

  /** The reader after the items of a command, its last word ended. */
  function AfterCommand(line: Line, command: Command): Lexer {
    Lexer(line.(outputs := line.outputs + CommandOutputs(command)), CommandWords(command), "", false, None, Argument)
  }

  /** The reader with the last item of a command still open. */
  predicate OpenAfter(open: Lexer, line: Line, command: Command) {
    && open.quote == None && open.EndWord() == AfterCommand(line, Survivors(command))
    && (command != [] ==>
          var survivors := Survivors(command);
          open == AfterItem(AfterCommand(line, survivors[..|survivors| - 1]), command[|command| - 1]))
  }

  lemma ItemOpens(line: Line, before: Command, item: Item)
    ensures AfterItem(AfterCommand(line, before), item).EndWord() == AfterCommand(line, before + [item])
  {
    hide IsDescriptor, WordText;
    EndItem(AfterCommand(line, before), item);
    assert (before + [item])[..|before|] == before;
    assert line.outputs + CommandOutputs(before) + item.Outputs() == line.outputs + CommandOutputs(before + [item]);
  }

  /** A command printed, read up to its last open word. */
  lemma {:induction false} LexCommand(command: Command, rest: string, line: Line) returns (open: Lexer)
    requires LegalCommand(command) && NoQuote(rest)
    ensures Lex(PrintCommand(command) + rest, AfterCommand(line, [])) == Lex(rest, open)
    ensures OpenAfter(open, line, command)
    decreases |command|
  {
    hide Lex, AfterItem, AfterCommand, OpenAfter;
    if command == [] {
      assert PrintCommand(command) + rest == rest;
      open := AfterCommand(line, []);
      NothingOpen(line);
    } else {
      hide PrintCommand, Gap;
      var n := |command| - 1;
      var next := Gap(command) + (command[n].Print() + rest);
      PrintedLast(command, rest);
      GapFirst(command, rest);
      assert forall item | item in command[..n] :: item in command;
      var st := LexCommand(command[..n], next, line);
      open := LexLastItem(command, rest, line, st);
    }
  }

  /** An item after another starts with a space, or with the operator glued to it. */
  lemma GapFirst(command: Command, rest: string)
    requires LegalCommand(command) && command != []
    ensures NoQuote(Gap(command) + (command[|command| - 1].Print() + rest))
  {
    hide PrintWord;
    var item := command[|command| - 1];
    assert item in command;
    if Gap(command) == "" {
      GluedPrint(item);
      assert item.Print()[0] == item.op.Print()[0];
    }
  }

  lemma NothingOpen(line: Line)
    ensures OpenAfter(AfterCommand(line, []), line, [])
  {
  }

  lemma PrintedLast(command: Command, rest: string)
    requires command != []
    ensures var n := |command| - 1;
      PrintCommand(command) + rest == PrintCommand(command[..n]) + (Gap(command) + (command[n].Print() + rest))
  {
    hide Gap, PrintWord;
    var n := |command| - 1;
    Regroup(PrintCommand(command[..n]), Gap(command), command[n].Print(), rest);
  }

  lemma Regroup(a: string, b: string, c: string, d: string)
    ensures a + (b + c) + d == a + (b + (c + d))
  {
  }

  lemma LexLastItem(command: Command, rest: string, line: Line, st: Lexer) returns (open: Lexer)
    requires LegalCommand(command) && command != [] && NoQuote(rest)
    requires OpenAfter(st, line, command[..|command| - 1])
    ensures Lex(Gap(command) + (command[|command| - 1].Print() + rest), st) == Lex(rest, open)
    ensures OpenAfter(open, line, command)
  {
    hide Lex, AfterCommand, AfterItem, PrintWord, WordText, LegalWord;
    var n := |command| - 1;
    var item := command[n];
    var survivors := Survivors(command);
    var before := survivors[..|survivors| - 1];
    assert item in command && survivors == before + [item];
    CommandIsClean(line, before);
    open := AfterItem(AfterCommand(line, before), item);
    ItemOpens(line, before, item);
    OpenStays(line, before, item);
    var next := item.Print() + rest;
    if n > 0 && item.Glued() {
      AtGlued(command, line, st);
      GluedPrint(item);
      LexOperatorAndTarget(item, rest, AfterCommand(line, before), st);
      assert Gap(command) + next == next;
    } else {
      LexSpace(next, st);
      assert before == Survivors(command[..n]);
      LexItem(item, rest, AfterCommand(line, before));
    }
  }

  lemma OpenStays(line: Line, before: Command, item: Item)
    ensures AfterItem(AfterCommand(line, before), item).quote == None
  {
  }

  lemma GluedPrint(item: Item)
    requires item.Legal() && item.Glued()
    ensures item.Print() == item.op.Print() + ((if item.tight then "" else " ") + PrintWord(item.target))
  {
  }

  lemma CommandIsClean(line: Line, command: Command)
    ensures Clean(AfterCommand(line, command))
  {
  }

  /** Where a glued redirection leaves the reader: the word before it ended, or claimed when it is a number. */
  lemma AtGlued(command: Command, line: Line, st: Lexer)
    requires |command| > 1 && command[|command| - 1].Glued()
    requires OpenAfter(st, line, command[..|command| - 1])
    ensures var survivors := Survivors(command);
      st.AtOperator().(role := Argument) == AfterCommand(line, survivors[..|survivors| - 1])
  {
    hide WordText, AllDigits, IsDescriptor;
    var n := |command| - 1;
    var survivors := Survivors(command);
    var earlier := Survivors(command[..n]);
    assert command[..n][n - 1] == command[n - 1];
    assert survivors[..|survivors| - 1] == if Claims(command) then earlier[..|earlier| - 1] else earlier;
  }

  lemma EndOfCommand(open: Lexer, line: Line, command: Command)
    requires open.EndWord() == AfterCommand(line, command)
    ensures open.EndCommand() == AfterCommand(WithCommand(line, command), [])
    ensures AfterCommand(line, command).EndCommand() == AfterCommand(WithCommand(line, command), [])
  {
    var end := WithCommand(line, command);
    assert end.outputs + [] == end.outputs;
  }

  lemma {:induction false} LexSeparators(text: string, rest: string, st: Lexer)
    requires st.quote == None && forall c | c in text :: IsSeparator(c)
    requires rest == "" || rest[0] != '>'
    ensures Lex(text + rest, st) == Lex(rest, if text == "" then st else st.EndCommand())
  {
    if text == "" {
      assert text + rest == rest;
    } else {
      assert text[0] in text && (text + rest)[1..] == text[1..] + rest;
      assert |text| > 1 ==> text[1] in text;
      assert !OpensOperator(text + rest);
      LexSeparators(text[1..], rest, st.EndCommand());
      assert st.EndCommand().EndCommand() == st.EndCommand();
    }
  }

  lemma {:induction false} AfterCommentOf(text: string, rest: string)
    requires '\n' !in text
    ensures AfterComment(text + ("\n" + rest)) == "\n" + rest
  {
    if text == "" {
      assert text + ("\n" + rest) == "\n" + rest;
    } else {
      assert text[0] in text && (text + ("\n" + rest))[1..] == text[1..] + ("\n" + rest);
      AfterCommentOf(text[1..], rest);
    }
  }

  lemma LexEnding(ending: Ending, rest: string, st: Lexer)
    requires ending.Legal() && st.quote == None && !st.inWord
    requires rest == "" || rest[0] != '>'
    ensures Lex(ending.Print() + rest, st) == Lex(rest, st.EndCommand())
  {
    match ending
    case Separators(text) => LexSeparators(text, rest, st);
    case Comment(text) =>
      var tail := text + ("\n" + rest);
      assert ending.Print() + rest == "#" + tail && ("#" + tail)[1..] == tail;
      AfterCommentOf(text, rest);
      LexComment(tail, st);
      LexSeparators("\n", rest, st);
  }

  lemma LexComment(tail: string, st: Lexer)
    requires st.quote == None && !st.inWord
    ensures Lex("#" + tail, st) == Lex(AfterComment(tail), st)
  {
    assert ("#" + tail)[1..] == tail;
  }

  lemma CommandFirst(command: Command)
    ensures PrintCommand(command) == "" || PrintCommand(command)[0] == ' '
  {
    if command != [] {
      CommandFirst(command[..|command| - 1]);
    }
  }

  lemma ScriptFirst(script: seq<Ended>, last: Command)
    ensures PrintScript(script, last) == "" || PrintScript(script, last)[0] == ' '
  {
    CommandFirst(last);
    if script != [] {
      CommandFirst(script[0].command);
    }
  }

  lemma {:induction false} LexScript(script: seq<Ended>, last: Command, before: Line)
    requires LegalScript(script) && LegalCommand(last)
    ensures Lex(PrintScript(script, last), AfterCommand(before, [])).EndCommand().line == Heard(script, last, before)
    decreases |script|
  {
    if script == [] {
      LexLast(last, before);
    } else {
      hide Lex, PrintScript;
      LexFirst(script, last, before);
      LexScript(script[1..], last, WithCommand(before, Survivors(script[0].command)));
    }
  }

  lemma LexLast(last: Command, before: Line)
    requires LegalCommand(last)
    ensures Lex(PrintCommand(last), AfterCommand(before, [])).EndCommand().line == WithCommand(before, Survivors(last))
  {
    hide AfterCommand, WithCommand;
    assert PrintCommand(last) + "" == PrintCommand(last);
    var open := LexCommand(last, "", before);
    EndOfCommand(open, before, Survivors(last));
    FinalLine(WithCommand(before, Survivors(last)));
  }

  lemma FinalLine(line: Line)
    ensures AfterCommand(line, []).line == line
  {
    assert line.outputs + [] == line.outputs;
  }

  lemma LexFirst(script: seq<Ended>, last: Command, before: Line)
    requires script != [] && LegalScript(script)
    ensures Lex(PrintScript(script, last), AfterCommand(before, []))
         == Lex(PrintScript(script[1..], last), AfterCommand(WithCommand(before, Survivors(script[0].command)), []))
  {
    hide Lex, WithCommand;
    var command, ending := script[0].command, script[0].ending;
    var rest := PrintScript(script[1..], last);
    assert script[0] in script;
    ScriptFirst(script[1..], last);
    var open := LexCommand(command, " " + (ending.Print() + rest), before);
    LexSpace(ending.Print() + rest, open);
    EndOfCommand(open, before, Survivors(command));
    LexEnding(ending, rest, AfterCommand(before, Survivors(command)));
  }

  // ---- what a claimed word costs

  function Size(command: Command): nat {
    |CommandWords(command)| + |CommandOutputs(command)|
  }

  function LineSize(line: Line): nat {
    AllWords(line.commands) + |line.outputs|
  }

  function AllWords(commands: seq<seq<string>>): nat {
    if commands == [] then 0 else AllWords(commands[..|commands| - 1]) + |commands[|commands| - 1]|
  }

  lemma CommandLast(command: Command, item: Item)
    ensures CommandWords(command + [item]) == CommandWords(command) + item.Words()
    ensures CommandOutputs(command + [item]) == CommandOutputs(command) + item.Outputs()
  {
    assert (command + [item])[..|command|] == command;
  }

  /** A command one item longer: what it says, how it is printed and what survives of it. */
  lemma CommandNext(command: Command, item: Item)
    ensures CommandWords(command + [item]) == CommandWords(command) + item.Words()
    ensures CommandOutputs(command + [item]) == CommandOutputs(command) + item.Outputs()
    ensures PrintCommand(command + [item]) == PrintCommand(command) + (Gap(command + [item]) + item.Print())
    ensures Survivors(command + [item])
      == (if Claims(command + [item]) then Survivors(command)[..|Survivors(command)| - 1] else Survivors(command)) + [item]
  {
    hide Claims, Gap, Item.Words, Item.Outputs, Item.Print;
    CommandLast(command, item);
    assert (command + [item])[..|command|] == command;
  }

  lemma OnePiece(piece: Piece)
    ensures WordText([piece]) == piece.text && PrintWord([piece]) == piece.Print()
  {
    assert [piece][1..] == [] && piece.text + "" == piece.text && piece.Print() + "" == piece.Print();
  }

  /** The last item survives; the one before it does when it is not claimed. */
  lemma SurvivorsLast(command: Command) returns (kept: Command)
    requires command != []
    ensures Survivors(command) == kept + [command[|command| - 1]]
    ensures Survivors(command[..|command| - 1]) == if Claims(command) then kept + [command[|command| - 2]] else kept
  {
    hide Claims;
    var n := |command| - 1;
    var before := Survivors(command[..n]);
    if Claims(command) {
      ClaimsOne(command);
      kept := before[..|before| - 1];
      assert command[..n][n - 1] == command[n - 1];
      assert before == kept + [command[n - 1]];
    } else {
      kept := before;
    }
  }

  lemma ClaimsOne(command: Command)
    requires command != [] && Claims(command)
    ensures |command| > 1
  {
  }

  /** The survivors never say more than the command, and the same exactly when no claimed word counts. */
  lemma {:induction false} SurvivorsSize(command: Command)
    ensures Size(Survivors(command)) <= Size(command)
    ensures Size(Survivors(command)) == Size(command) <==> LosesNothing(command)
    ensures LosesNothing(command) ==>
      CommandWords(Survivors(command)) == CommandWords(command) && CommandOutputs(Survivors(command)) == CommandOutputs(command)
  {
    hide Survivors, Claims, CommandWords, CommandOutputs, Item.Words, Item.Outputs;
    if command == [] {
      NothingSurvives();
    } else {
      var n := |command| - 1;
      var item := command[n];
      SurvivorsSize(command[..n]);
      assert command == command[..n] + [item];
      CommandLast(command[..n], item);
      var kept := SurvivorsLast(command);
      CommandLast(kept, item);
      if Claims(command) {
        ClaimsOne(command);
        CommandLast(kept, command[n - 1]);
      }
    }
  }

  lemma NothingSurvives()
    ensures Survivors([]) == []
  {
  }

  lemma WithCommandSize(line: Line, command: Command)
    ensures LineSize(WithCommand(line, command)) == LineSize(line) + Size(command)
  {
    hide CommandWords, CommandOutputs;
    var words := CommandWords(command);
    assert (line.commands + [words])[..|line.commands|] == line.commands;
  }

  lemma {:induction false} HeardSize(script: seq<Ended>, last: Command, heard: Line, meant: Line)
    ensures LineSize(Heard(script, last, heard)) + LineSize(meant) <= LineSize(Meant(script, last, meant)) + LineSize(heard)
    ensures LineSize(Heard(script, last, heard)) + LineSize(meant) == LineSize(Meant(script, last, meant)) + LineSize(heard)
      <==> ScriptLosesNothing(script, last)
    ensures ScriptLosesNothing(script, last) ==> Heard(script, last, meant) == Meant(script, last, meant)
    decreases |script|
  {
    hide WithCommand, LineSize, Size, Survivors, LosesNothing;
    var command := if script == [] then last else script[0].command;
    SurvivorsSize(command);
    WithCommandSize(heard, Survivors(command));
    WithCommandSize(meant, command);
    SameWordsSameLine(meant, command);
    if script != [] {
      HeardSize(script[1..], last, WithCommand(heard, Survivors(command)), WithCommand(meant, command));
      assert script == [script[0]] + script[1..];
    }
  }

  lemma SameWordsSameLine(line: Line, command: Command)
    ensures LosesNothing(command) ==> WithCommand(line, Survivors(command)) == WithCommand(line, command)
  {
    hide CommandWords, CommandOutputs, Survivors, LosesNothing;
    SurvivorsSize(command);
  }

  /**
   The lexer undoes the printer: for every script, however each stretch of each
   word is quoted and its redirections spaced, it gives back the words of every
   command and every output file, in order, and nothing else, exactly when no
   redirection is glued to a word of digits that counts. A glued one takes such a
   word, quoted or not, for its descriptor, and that is all that is lost.
   */
  lemma ShellRoundTrip(script: seq<Ended>, last: Command)
    requires LegalScript(script) && LegalCommand(last)
    ensures Parsed(PrintScript(script, last)) == Heard(script, last, Line([], []))
    ensures Parsed(PrintScript(script, last)) == Meant(script, last, Line([], [])) <==> ScriptLosesNothing(script, last)
  {
    hide Lex, PrintScript, Meant, Heard, ScriptLosesNothing, LineSize;
    LexScript(script, last, Line([], []));
    assert AfterCommand(Line([], []), []) == Start;
    HeardSize(script, last, Line([], []), Line([], []));
  }

  /** Any text can be printed as a word: double quotes, after a `$` or not, take every string. */
  lemma EveryTextIsAWord(text: string)
    ensures LegalWord([Double(text)]) && WordText([Double(text)]) == text
    ensures LegalWord([Locale(text)]) && WordText([Locale(text)]) == text
    ensures '\'' !in text ==> LegalWord([Single(text)]) && WordText([Single(text)]) == text
    ensures '\'' !in text ==> LegalWord([Ansi(text)]) && WordText([Ansi(text)]) == text
    ensures text != "" && '\n' !in text ==> LegalWord([Escaped(text)]) && WordText([Escaped(text)]) == text
    ensures text != "" && (forall c | c in text :: IsBare(c)) && text[0] != '#' ==>
      LegalWord([Bare(text)]) && WordText([Bare(text)]) == text && PrintWord([Bare(text)]) == text
  {
    OneWord(Double(text));
    OneWord(Locale(text));
    OneWord(Single(text));
    OneWord(Ansi(text));
    OneWord(Escaped(text));
    OneWord(Bare(text));
  }

  lemma OneWord(piece: Piece)
    ensures WordText([piece]) == piece.text && PrintWord([piece]) == piece.Print()
    ensures piece.Legal() && !piece.Continued? && (piece.Bare? ==> piece.text[0] != '#') ==> LegalWord([piece])
  {
    OnePiece(piece);
    assert [piece][1..] == [];
  }

  /** An unquoted `$` is itself, and one before a quote is not. */
  lemma DollarIsKept()
    ensures Parsed("$x") == Line([["$x"]], []) && Parsed("$'x'") == Line([["x"]], [])
  {
    hide Lex;
    PrintsAs(Bare("$x"));
    PrintsAs(Ansi("x"));
    assert "$'" + "x" + "'" == "$'x'";
  }

  /** A line that is one stretch is one word. */
  lemma PrintsAs(piece: Piece)
    requires piece.Legal() && !piece.Continued? && (piece.Bare? ==> piece.text[0] != '#')
    ensures Parsed(piece.Print()) == Line([[piece.text]], [])
  {
    hide Lex, Piece.Print;
    assert "" + piece.text == piece.text && piece.Print() + "" == piece.Print();
    LexPiece(piece, "", Start);
    EndsWith(piece.text);
  }

  /** A text that leaves one word open is that word. */
  lemma EndsWith(word: string)
    ensures Lex("", Start.(word := word, inWord := true)).EndCommand().line == Line([[word]], [])
  {
    var none: seq<string> := [];
    assert none + [word] == [word];
  }

  // ---- single characters

  /** Every separator ends the command, but an `&` that opens a redirection. */
  lemma SeparatorEnds(c: char, rest: string, st: Lexer)
    requires c in {';', '&', '|', '(', ')', '`', '\n'} && st.quote == None
    requires c == '&' ==> rest == "" || rest[0] != '>'
    ensures Lex([c] + rest, st) == Lex(rest, st.EndCommand())
  {
    assert ([c] + rest)[1..] == rest;
  }

  /** A tab ends a word as a space does. */
  lemma TabIsSpace(rest: string, st: Lexer)
    requires st.quote == None
    ensures Lex("\t" + rest, st) == Lex(" " + rest, st) == Lex(rest, st.EndWord())
  {
    assert ("\t" + rest)[1..] == rest && (" " + rest)[1..] == rest;
  }

  /** Between double quotes a backslash escapes four characters, and is itself before any other. */
  lemma BackslashInDouble(c: char, rest: string, st: Lexer)
    requires st.quote == Some('"')
    ensures Lex(['\\', c] + rest, st)
      == if c in {'$', '`', '"', '\\'} then Lex(rest, st.(word := st.word + [c]))
         else Lex(rest, st.(word := st.word + ['\\', c]))
  {
    var text := ['\\', c] + rest;
    assert text[1..] == [c] + rest && text[1..][1..] == rest;
    assert st.word + ['\\'] + [c] == st.word + ['\\', c];
  }

  /** Between single quotes nothing is special. */
  lemma NothingInSingle(c: char, rest: string, st: Lexer)
    requires st.quote == Some('\'') && c != '\''
    ensures Lex([c] + rest, st) == Lex(rest, st.(word := st.word + [c]))
  {
    assert ([c] + rest)[1..] == rest;
  }

  /** `>(…)` and `<(…)`: the parenthesis opens a command, and redirects nothing. */
  lemma ProcessSubstitution(op: string, rest: string, st: Lexer)
    requires (op == ">" || op == "<") && st.quote == None
    ensures Lex(op + "(" + rest, st) == Lex(rest, st.AtOperator().EndCommand())
  {
    hide OperatorLength;
    var text := op + "(" + rest;
    SignsLength(op, "(" + rest);
    assert op + ("(" + rest) == text;
    assert text[1..] == "(" + rest && text[1..][1..] == rest;
    assert Redirect(text, st) == (st.AtOperator(), "(" + rest);
    SeparatorEnds('(', rest, st.AtOperator());
  }

  /** A quote left open runs to the end, and a lone backslash there is dropped. */
  lemma LeftOpen(text: string)
    requires '\'' !in text
    ensures Parsed("'" + text) == Line([[text]], [])
    ensures Parsed("\\") == Line([], [])
  {
    hide Lex;
    var open := Start.(quote := Some('\''), inWord := true);
    OpensSingle(text);
    OpenSingle(text, open);
    assert "" + text == text;
    var none: seq<string> := [];
    assert none + [text] == [text];
    LoneBackslash();
  }

  lemma OpensSingle(text: string)
    ensures Lex("'" + text, Start) == Lex(text, Start.(quote := Some('\''), inWord := true))
  {
    assert ("'" + text)[1..] == text;
  }

  lemma {:induction false} OpenSingle(text: string, st: Lexer)
    requires st.quote == Some('\'') && '\'' !in text
    ensures Lex(text, st) == st.(word := st.word + text)
  {
    if text != "" {
      OpenSingle(text[1..], st.(word := st.word + [text[0]]));
      assert st.word + [text[0]] + text[1..] == st.word + text;
    }
  }

  lemma LoneBackslash()
    ensures Lex("\\", Start) == Start
  {
  }

  /** A descriptor is `-`, or digits with or without a `-` after them. */
  lemma DescriptorsAre(word: string)
    ensures IsDescriptor(word) <==>
      word == "-" || exists digits :: digits != "" && AllDigits(digits) && (word == digits || word == digits + "-")
  {
    if IsDescriptor(word) && word != "-" {
      var digits := if word[|word| - 1] == '-' then word[..|word| - 1] else word;
      assert word == digits || word == digits + "-";
    }
    if digits :| digits != "" && AllDigits(digits) && (word == digits || word == digits + "-") {
      assert digits[0] in digits && digits[|digits| - 1] in digits;
      assert word == digits + "-" ==> word[..|word| - 1] == digits;
      assert word[0] == digits[0];
    }
  }
}
