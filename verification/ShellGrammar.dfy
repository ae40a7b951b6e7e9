/** The shell's command language: what the recursive-descent parser makes of a line, how a command is written down,
    and that reading what was written gives the command back. */
module ShellGrammar {
  const MAXARGS := 10

  datatype Mode = Input | Output | Append

  datatype Cmd<W> =
    | Exec(args: seq<W>)
    | Redir(cmd: Cmd<W>, mode: Mode, file: W)
    | Piped(left: Cmd<W>, right: Cmd<W>)
    | List(left: Cmd<W>, right: Cmd<W>)
    | Back(cmd: Cmd<W>)

  /** A word of the line and how many characters there are from its start to the end of the line. */
  datatype Word = Word(text: string, back: nat)

  datatype Token = End | Symbol(c: char) | Twice | Text(word: Word)

  /** What a parsing function leaves: a command and the rest of the line, or the panic it dies of. */
  datatype Result = Ok(cmd: Cmd<Word>, rest: string) | Panic(why: string)

  datatype Redirs = Redirs(list: seq<(Mode, Word)>, rest: string) | NoFile

  predicate IsSpace(c: char) {
    c == ' ' || c == '\t' || c == '\r' || c == '\n' || c == '\U{B}'
  }

  predicate IsSymbol(c: char) {
    c == '<' || c == '|' || c == '>' || c == '&' || c == ';' || c == '(' || c == ')'
  }

  predicate IsWordChar(c: char) {
    !IsSpace(c) && !IsSymbol(c)
  }

  function SkipSpace(r: string): (t: string)
    ensures |t| <= |r| && (|t| == 0 || !IsSpace(t[0]))
  {
    if |r| > 0 && IsSpace(r[0]) then SkipSpace(r[1..]) else r
  }

  /** The word characters at the front. */
  function WordLength(r: string): (n: nat)
    ensures n <= |r| && (forall i :: 0 <= i < n ==> IsWordChar(r[i]))
    ensures n == |r| || !IsWordChar(r[n])
  {
    if |r| > 0 && IsWordChar(r[0]) then 1 + WordLength(r[1..]) else 0
  }

  /** gettoken() on a rest without leading space: the token and what follows it. */
  function TokenOf(r: string): (t: (Token, string))
    requires |r| > 0 ==> !IsSpace(r[0])
    ensures |t.1| <= |r| && (t.0 == End <==> |r| == 0) && (t.0 != End ==> |t.1| < |r|)
    ensures t.0.Text? ==> |t.0.word.text| > 0
  {
    if |r| == 0 then (End, "")
    else if r[0] == '>' && |r| > 1 && r[1] == '>' then (Twice, r[2..])
    else if IsSymbol(r[0]) then (Symbol(r[0]), r[1..])
    else (Text(Word(r[..WordLength(r)], |r|)), r[WordLength(r)..])
  }

  /** gettoken(): space on both sides is skipped. */
  function NextToken(r: string): (t: (Token, string))
    ensures |t.1| <= |r| && (t.0 == End <==> |SkipSpace(r)| == 0) && (t.0 != End ==> |t.1| < |r|)
    ensures t.0.Text? ==> |t.0.word.text| > 0
  {
    var (token, rest) := TokenOf(SkipSpace(r));
    (token, SkipSpace(rest))
  }

  /** peek(): whether the next character is one of these. */
  predicate Peek(r: string, chars: string) {
    |SkipSpace(r)| > 0 && SkipSpace(r)[0] in chars
  }

  function ModeOf(t: Token): Mode {
    if t == Twice then Append else if t == Symbol('<') then Input else Output
  }

  /** parseredirs(): every "<", ">" and ">>" here, each with its file. */
  function ParseRedirs(r: string): (p: Redirs)
    ensures p.Redirs? ==> |p.rest| <= |r|
    decreases |r|
  {
    if !Peek(r, "<>") then Redirs([], SkipSpace(r))
    else
      var (sign, r1) := NextToken(r);
      var (file, r2) := NextToken(r1);
      if !file.Text? then NoFile
      else
        match ParseRedirs(r2)
        case NoFile => NoFile
        case Redirs(list, rest) => Redirs([(ModeOf(sign), file.word)] + list, rest)
  }

  /** The redirections of one command go round it in the order they were read. */
  function Wrap<W>(c: Cmd<W>, list: seq<(Mode, W)>): Cmd<W>
    decreases |list|
  {
    if list == [] then c else Wrap(Redir(c, list[0].0, list[0].1), list[1..])
  }

  /** parseline() */
  function ParseLine(r: string): (p: Result)
    ensures p.Ok? ==> |p.rest| <= |r|
    decreases |r|, 4
  {
    match ParsePipe(r)
    case Panic(why) => Panic(why)
    case Ok(cmd, rest) => ParseAmps(cmd, rest)
  }

  /** The rest of parseline(): any "&" after the first pipeline, then perhaps ";" and another line. */
  function ParseAmps(c: Cmd<Word>, r: string): (p: Result)
    ensures p.Ok? ==> |p.rest| <= |r|
    decreases |r|, 3
  {
    if Peek(r, "&") then
      var r1 := NextToken(r).1;
      if Peek(r1, ";)") || |r1| == 0 then ParseAmps(Back(c), r1)
      else
        match ParseLine(r1)
        case Panic(why) => Panic(why)
        case Ok(cmd, rest) => Ok(List(Back(c), cmd), rest)
    else if Peek(r, ";") then
      match ParseLine(NextToken(r).1)
      case Panic(why) => Panic(why)
      case Ok(cmd, rest) => Ok(List(c, cmd), rest)
    else Ok(c, SkipSpace(r))
  }

  /** parsepipe() */
  function ParsePipe(r: string): (p: Result)
    ensures p.Ok? ==> |p.rest| <= |r|
    decreases |r|, 2
  {
    match ParseExec(r)
    case Panic(why) => Panic(why)
    case Ok(left, rest) =>
      if Peek(rest, "|") then
        match ParsePipe(NextToken(rest).1)
        case Panic(why) => Panic(why)
        case Ok(right, rest2) => Ok(Piped(left, right), rest2)
      else Ok(left, SkipSpace(rest))
  }

  /** parseexec(), with parseblock() for a command in parentheses. */
  function ParseExec(r: string): (p: Result)
    ensures p.Ok? ==> |p.rest| <= |r|
    decreases |r|, 1
  {
    if Peek(r, "(") then
      match ParseLine(NextToken(r).1)
      case Panic(why) => Panic(why)
      case Ok(cmd, rest) =>
        if !Peek(rest, ")") then Panic("syntax - missing )")
        else
          match ParseRedirs(NextToken(rest).1)
          case NoFile => Panic("missing file for redirection")
          case Redirs(list, rest2) => Ok(Wrap(cmd, list), rest2)
    else
      match ParseRedirs(r)
      case NoFile => Panic("missing file for redirection")
      case Redirs(list, rest) => ParseArgs([], list, rest)
  }

  /** The argument loop of parseexec(). */
  function ParseArgs(args: seq<Word>, list: seq<(Mode, Word)>, r: string): (p: Result)
    ensures p.Ok? ==> |p.rest| <= |r|
    decreases |r|, 0
  {
    if Peek(r, "|)&;") then Ok(Wrap(Exec(args), list), SkipSpace(r))
    else
      var (token, r1) := NextToken(r);
      if token == End then Ok(Wrap(Exec(args), list), r1)
      else if !token.Text? then Panic("syntax")
      else if |args| + 1 >= MAXARGS then Panic("too many args")
      else
        match ParseRedirs(r1)
        case NoFile => Panic("missing file for redirection")
        case Redirs(more, rest) => ParseArgs(args + [token.word], list + more, rest)
  }

  /** parsecmd(): the whole line, with nothing left over. */
  function ParseCmd(s: string): Result {
    match ParseLine(s)
    case Panic(why) => Panic(why)
    case Ok(cmd, rest) => if |SkipSpace(rest)| > 0 then Panic("syntax") else Ok(cmd, "")
  }

  // ---- Writing a command down ----

  /** Every word can be read as one, and no command has more arguments than the parser takes. */
  predicate IsWord(w: string) {
    |w| > 0 && forall i :: 0 <= i < |w| ==> IsWordChar(w[i])
  }

  predicate Printable(c: Cmd<string>) {
    match c
    case Exec(args) => |args| < MAXARGS && forall i :: 0 <= i < |args| ==> IsWord(args[i])
    case Redir(x, _, file) => Printable(x) && IsWord(file)
    case Piped(l, r) => Printable(l) && Printable(r)
    case List(l, r) => Printable(l) && Printable(r)
    case Back(x) => Printable(x)
  }

  function Words(args: seq<string>): string {
    if |args| == 0 then [] else [' '] + args[0] + Words(args[1..])
  }

  function Sign(m: Mode): string {
    match m
    case Input => ['<']
    case Output => ['>']
    case Append => ['>', '>']
  }

  function RedirText(list: seq<(Mode, string)>): string {
    if |list| == 0 then [] else Sign(list[0].0) + [' '] + list[0].1 + RedirText(list[1..])
  }

  /** A command as parseexec() reads it: in parentheses unless it is a simple one. */
  function Primary(c: Cmd<string>): string
    decreases c, 1
  {
    match c
    case Exec(args) => Words(args)
    case Redir(x, m, file) => Primary(x) + Sign(m) + [' '] + file
    case Piped(_, _) => ['('] + Pipeline(c) + [')']
    case List(_, _) => ['('] + Line(c) + [')']
    case Back(_) => ['('] + Line(c) + [')']
  }

  function Pipeline(c: Cmd<string>): string
    decreases c, if c.Piped? then 0 else 2
  {
    if c.Piped? then Primary(c.left) + ['|'] + Pipeline(c.right) else Primary(c)
  }

  function Line(c: Cmd<string>): string
    decreases c, if c.List? || c.Back? then 0 else 3
  {
    match c
    case List(l, r) => Pipeline(l) + [';'] + Line(r)
    case Back(x) => Pipeline(x) + ['&']
    case _ => Pipeline(c)
  }

  /** The command without the positions of its words. */
  function TextsOf(ws: seq<Word>): (r: seq<string>)
    ensures |r| == |ws| && forall i :: 0 <= i < |ws| ==> r[i] == ws[i].text
  {
    if |ws| == 0 then [] else TextsOf(ws[..|ws| - 1]) + [ws[|ws| - 1].text]
  }

  function FilesOf(list: seq<(Mode, Word)>): (r: seq<(Mode, string)>)
    ensures |r| == |list| && forall i :: 0 <= i < |list| ==> r[i] == (list[i].0, list[i].1.text)
  {
    if |list| == 0 then [] else FilesOf(list[..|list| - 1]) + [(list[|list| - 1].0, list[|list| - 1].1.text)]
  }

  function Plain(c: Cmd<Word>): Cmd<string> {
    match c
    case Exec(args) => Exec(TextsOf(args))
    case Redir(x, m, file) => Redir(Plain(x), m, file.text)
    case Piped(l, r) => Piped(Plain(l), Plain(r))
    case List(l, r) => List(Plain(l), Plain(r))
    case Back(x) => Back(Plain(x))
  }

  // ---- Reading it back ----

  lemma SkipNone(r: string)
    requires |r| == 0 || !IsSpace(r[0])
    ensures SkipSpace(r) == r
  {
  }

  lemma SkipOne(r: string)
    ensures SkipSpace([' '] + r) == SkipSpace(r)
  {
    assert ([' '] + r)[1..] == r;
  }

  lemma {:induction false} WordThen(w: string, more: string)
    requires forall i :: 0 <= i < |w| ==> IsWordChar(w[i])
    requires |more| == 0 || !IsWordChar(more[0])
    ensures WordLength(w + more) == |w|
  {
    if |w| == 0 {
      assert w + more == more;
    } else {
      assert (w + more)[1..] == w[1..] + more;
      WordThen(w[1..], more);
    }
  }

  /** A word, with or without a space before it, is read as one. */
  lemma ReadWord(w: string, more: string)
    requires IsWord(w) && (|more| == 0 || !IsWordChar(more[0]))
    ensures NextToken(w + more) == NextToken([' '] + w + more)
    ensures NextToken(w + more) == (Text(Word(w, |w + more|)), SkipSpace(more))
    ensures SkipSpace([' '] + w + more) == w + more
  {
    hide WordLength, SkipSpace;
    WordThen(w, more);
    SkipNone(w + more);
    assert [' '] + w + more == [' '] + (w + more);
    SkipOne(w + more);
    assert (w + more)[..|w|] == w && (w + more)[|w|..] == more;
  }

  /** What can follow a simple command. */
  predicate Stops(rest: string) {
    |rest| == 0 || rest[0] == '|' || rest[0] == ')' || rest[0] == '&' || rest[0] == ';'
  }

  /** A symbol is a token by itself. */
  lemma ReadSymbol(c: char, more: string)
    requires IsSymbol(c) && !(c == '>' && |more| > 0 && more[0] == '>')
    ensures NextToken([c] + more) == (Symbol(c), SkipSpace(more)) && SkipSpace([c] + more) == [c] + more
  {
    hide SkipSpace, WordLength;
    var r := [c] + more;
    SkipNone(r);
    assert r[0] == c && r[1..] == more;
  }

  lemma ReadTwice(more: string)
    ensures NextToken(['>', '>'] + more) == (Twice, SkipSpace(more))
    ensures SkipSpace(['>', '>'] + more) == ['>', '>'] + more
  {
    hide SkipSpace, WordLength;
    var r := ['>', '>'] + more;
    SkipNone(r);
    assert r[2..] == more;
  }

  lemma ReadSign(m: Mode, more: string)
    ensures Peek(Sign(m) + [' '] + more, "<>")
    ensures var t := NextToken(Sign(m) + [' '] + more); ModeOf(t.0) == m && t.1 == SkipSpace(more)
  {
    hide SkipSpace, NextToken;
    assert Sign(m) + [' '] + more == Sign(m) + ([' '] + more);
    SkipOne(more);
    match m
    case Input => ReadSymbol('<', [' '] + more);
    case Output => ReadSymbol('>', [' '] + more);
    case Append => ReadTwice([' '] + more);
  }

  lemma {:induction false} ReadRedirs(list: seq<(Mode, string)>, rest: string)
    requires Stops(rest) && forall i :: 0 <= i < |list| ==> IsWord(list[i].1)
    ensures var p := ParseRedirs(RedirText(list) + rest); p.Redirs? && FilesOf(p.list) == list && p.rest == rest
    decreases |list|
  {
    hide SkipSpace, NextToken, FilesOf;
    if |list| == 0 {
      assert RedirText(list) + rest == rest;
      SkipNone(rest);
      assert FilesOf([]) == [];
    } else {
      var (m, file) := list[0];
      var more := RedirText(list[1..]) + rest;
      assert RedirText(list) + rest == Sign(m) + [' '] + (file + more);
      ReadSign(m, file + more);
      SkipNone(file + more);
      assert |more| == 0 || !IsWordChar(more[0]);
      ReadWord(file, more);
      SkipNone(more);
      ReadRedirs(list[1..], rest);
      var p := ParseRedirs(more);
      var q := ParseRedirs(RedirText(list) + rest);
      assert q.Redirs? && q.rest == rest && |q.list| == 1 + |p.list| && q.list[1..] == p.list &&
             q.list[0].1.text == file;
      assert FilesOf(q.list) == list;
    }
  }

  /** A line may begin with a space. */
  lemma ArgsSkip(args: seq<Word>, list: seq<(Mode, Word)>, r: string)
    ensures ParseArgs(args, list, SkipSpace(r)) == ParseArgs(args, list, r)
  {
    hide ParseRedirs;
    SkipNone(SkipSpace(r));
  }

  /** The redirections and whatever else ends a simple command do not begin with a word or a space. */
  lemma Ends(list: seq<(Mode, string)>, rest: string)
    requires Stops(rest)
    ensures var r := RedirText(list) + rest; |r| == 0 || (!IsWordChar(r[0]) && !IsSpace(r[0]) && r[0] != '(')
  {
  }

  lemma ReadNothing(args: seq<Word>, list: seq<(Mode, Word)>, rest: string)
    requires Stops(rest)
    ensures ParseArgs(args, list, rest) == Ok(Wrap(Exec(args), list), rest)
  {
    hide WordLength, Wrap, ParseRedirs;
    SkipNone(rest);
  }

  /** The arguments, from any point on, and the redirections after them. */
  lemma {:induction false} ReadArgs(done: seq<Word>, args: seq<string>, list: seq<(Mode, string)>, rest: string)
    returns (ws: seq<Word>, fs: seq<(Mode, Word)>)
    requires Stops(rest) && |args| > 0 && |done| + |args| < MAXARGS
    requires (forall i :: 0 <= i < |args| ==> IsWord(args[i])) && (forall i :: 0 <= i < |list| ==> IsWord(list[i].1))
    ensures ParseArgs(done, [], Words(args) + RedirText(list) + rest) == Ok(Wrap(Exec(ws), fs), rest)
    ensures TextsOf(ws) == TextsOf(done) + args && FilesOf(fs) == list
    decreases |args|
  {
    hide SkipSpace, NextToken, FilesOf, TextsOf, Wrap, ParseRedirs, RedirText;
    var w := args[0];
    var more := Words(args[1..]) + RedirText(list) + rest;
    assert Words(args) + RedirText(list) + rest == [' '] + w + more;
    Ends(list, rest);
    if |args| == 1 {
      assert more == RedirText(list) + rest;
      ReadWord(w, more);
      SkipNone(more);
      ReadRedirs(list, rest);
      fs := ParseRedirs(more).list;
      ws := done + [Word(w, |w + more|)];
      assert [] + fs == fs;
      ReadNothing(ws, fs, rest);
    } else {
      assert more[0] == ' ';
      ReadWord(w, more);
      var done' := done + [Word(w, |w + more|)];
      NoRedirs(args[1..], RedirText(list) + rest);
      assert Words(args[1..]) + (RedirText(list) + rest) == more;
      ArgsSkip(done', [], more);
      var none: seq<(Mode, Word)> := [];
      assert none + none == none;
      ws, fs := ReadArgs(done', args[1..], list, rest);
    }
    assert TextsOf(ws) == TextsOf(done) + args;
  }

  lemma NoRedirs(args: seq<string>, more: string)
    requires |args| > 0 && IsWord(args[0])
    ensures var r := SkipSpace(Words(args) + more);
            ParseRedirs(r) == Redirs([], r) && |r| > 0 && IsWordChar(r[0])
  {
    hide SkipSpace;
    var w := args[0];
    var tail := w + Words(args[1..]) + more;
    assert Words(args) + more == [' '] + tail;
    SkipOne(tail);
    SkipNone(tail);
  }

  /** Space at the front of what is parsed makes no difference. */
  lemma LineSkip(r: string)
    ensures ParseRedirs(SkipSpace(r)) == ParseRedirs(r) && ParseExec(SkipSpace(r)) == ParseExec(r)
    ensures ParsePipe(SkipSpace(r)) == ParsePipe(r) && ParseLine(SkipSpace(r)) == ParseLine(r)
  {
    hide SkipSpace, ParseAmps, ParseArgs;
    SkipNone(SkipSpace(r));
    assert NextToken(SkipSpace(r)) == NextToken(r);
    assert ParseRedirs(SkipSpace(r)) == ParseRedirs(r);
    assert ParseExec(SkipSpace(r)) == ParseExec(r);
  }

  lemma {:induction false} PlainWrap(c: Cmd<Word>, list: seq<(Mode, Word)>)
    ensures Plain(Wrap(c, list)) == Wrap(Plain(c), FilesOf(list))
    decreases |list|
  {
    hide FilesOf;
    if |list| > 0 {
      assert FilesOf(list)[1..] == FilesOf(list[1..]);
      PlainWrap(Redir(c, list[0].0, list[0].1), list[1..]);
    }
  }

  ghost predicate Reads(p: Result, c: Cmd<string>, rest: string) {
    p.Ok? && Plain(p.cmd) == c && p.rest == rest
  }

  /** The end of a line, or of what is between parentheses. */
  predicate Closes(rest: string) {
    |rest| == 0 || rest[0] == ')'
  }

  lemma AmpsStop(c: Cmd<Word>, rest: string)
    requires Closes(rest)
    ensures ParseAmps(c, rest) == Ok(c, rest)
  {
    SkipNone(rest);
  }

  /** Without a parenthesis, parseexec() is the redirections in front and then the arguments. */
  lemma ExecIsArgs(r: string)
    requires !Peek(r, "(") && ParseRedirs(r).Redirs?
    ensures var p := ParseRedirs(r); ParseExec(r) == ParseArgs([], p.list, p.rest)
  {
    hide SkipSpace, NextToken, ParseRedirs, ParseArgs, ParseLine, Wrap;
  }

  lemma ReadNoArgs(list: seq<(Mode, string)>, rest: string)
    requires Stops(rest) && forall i :: 0 <= i < |list| ==> IsWord(list[i].1)
    ensures Reads(ParseExec(RedirText(list) + rest), Wrap(Exec([]), list), rest)
  {
    hide SkipSpace, FilesOf, TextsOf, Wrap, ParseRedirs, RedirText, ParseArgs, ParseExec;
    var r := RedirText(list) + rest;
    Ends(list, rest);
    SkipNone(r);
    ReadRedirs(list, rest);
    var fs := ParseRedirs(r).list;
    ExecIsArgs(r);
    ReadNothing([], fs, rest);
    PlainWrap(Exec([]), fs);
    assert TextsOf([]) == [];
  }

  lemma ReadSimple(args: seq<string>, list: seq<(Mode, string)>, rest: string)
    requires Printable(Exec(args)) && Stops(rest) && forall i :: 0 <= i < |list| ==> IsWord(list[i].1)
    ensures Reads(ParseExec(Words(args) + RedirText(list) + rest), Wrap(Exec(args), list), rest)
  {
    hide SkipSpace, FilesOf, TextsOf, Wrap, ParseRedirs, RedirText, ParseArgs, ParseExec, ParseLine, ParsePipe, Words;
    var r := Words(args) + RedirText(list) + rest;
    if |args| == 0 {
      assert r == RedirText(list) + rest by { NoWords(args); }
      ReadNoArgs(list, rest);
      assert args == [];
    } else {
      assert r == Words(args) + (RedirText(list) + rest);
      NoRedirs(args, RedirText(list) + rest);
      LineSkip(r);
      ExecIsArgs(r);
      ArgsSkip([], [], r);
      var ws, fs := ReadArgs([], args, list, rest);
      PlainWrap(Exec(ws), fs);
      assert TextsOf([]) + args == args;
    }
  }

  lemma NoWords(args: seq<string>)
    requires |args| == 0
    ensures Words(args) == []
  {
  }

  /** A parenthesis, a line that reads back, and redirections after it. */
  lemma ReadBlock(body: string, c: Cmd<string>, list: seq<(Mode, string)>, rest: string)
    requires Stops(rest) && forall i :: 0 <= i < |list| ==> IsWord(list[i].1)
    requires Reads(ParseLine(body + ([')'] + (RedirText(list) + rest))), c, [')'] + (RedirText(list) + rest))
    ensures Reads(ParseExec(['('] + body + [')'] + RedirText(list) + rest), Wrap(c, list), rest)
  {
    hide SkipSpace, NextToken, FilesOf, Wrap, ParseRedirs, RedirText, ParseArgs, ParseLine, ParsePipe;
    var after := RedirText(list) + rest;
    var inner := body + ([')'] + after);
    assert ['('] + body + [')'] + RedirText(list) + rest == ['('] + inner;
    ReadSymbol('(', inner);
    LineSkip(inner);
    ReadSymbol(')', after);
    Ends(list, rest);
    SkipNone(after);
    ReadRedirs(list, rest);
    PlainWrap(ParseLine(inner).cmd, ParseRedirs(after).list);
  }

  lemma ReadPrimary(c: Cmd<string>, list: seq<(Mode, string)>, rest: string)
    requires Printable(c) && Stops(rest) && forall i :: 0 <= i < |list| ==> IsWord(list[i].1)
    ensures Reads(ParseExec(Primary(c) + RedirText(list) + rest), Wrap(c, list), rest)
    decreases c, 1
  {
    hide ParseExec, ParseLine, ParsePipe, Words, Reads;
    var after := [')'] + (RedirText(list) + rest);
    match c
    case Exec(args) => ReadSimple(args, list, rest);
    case Redir(x, m, file) =>
      var more := [(m, file)] + list;
      assert more[1..] == list;
      assert Primary(c) + RedirText(list) + rest == Primary(x) + RedirText(more) + rest;
      ReadPrimary(x, more, rest);
    case Piped(_, _) =>
      ReadPipeline(c, after);
      LineOfPipeline(Pipeline(c) + after, c, after);
      ReadBlock(Pipeline(c), c, list, rest);
    case List(_, _) =>
      ReadLine(c, after);
      ReadBlock(Line(c), c, list, rest);
    case Back(_) =>
      ReadLine(c, after);
      ReadBlock(Line(c), c, list, rest);
  }

  lemma LineOfPipeline(r: string, c: Cmd<string>, rest: string)
    requires Reads(ParsePipe(r), c, rest) && Closes(rest)
    ensures Reads(ParseLine(r), c, rest)
  {
    hide ParsePipe, ParseAmps;
    AmpsStop(ParsePipe(r).cmd, rest);
  }

  lemma PipeJoins(r: string, left: Cmd<string>, more: string, right: Cmd<string>, rest: string)
    requires Reads(ParseExec(r), left, ['|'] + more) && Reads(ParsePipe(more), right, rest)
    ensures Reads(ParsePipe(r), Piped(left, right), rest)
  {
    hide ParseExec, SkipSpace, NextToken;
    ReadSymbol('|', more);
    LineSkip(more);
  }

  lemma PipeStops(r: string, c: Cmd<string>, rest: string)
    requires Reads(ParseExec(r), c, rest) && Stops(rest) && (|rest| == 0 || rest[0] != '|')
    ensures Reads(ParsePipe(r), c, rest)
  {
    hide ParseExec, SkipSpace, NextToken;
    SkipNone(rest);
  }

  lemma ReadPipeline(c: Cmd<string>, rest: string)
    requires Printable(c) && Stops(rest) && (|rest| == 0 || rest[0] != '|')
    ensures Reads(ParsePipe(Pipeline(c) + rest), c, rest)
    decreases c, if c.Piped? then 0 else 2
  {
    hide ParseExec, ParsePipe, Reads, Primary;
    if c.Piped? {
      var more := Pipeline(c.right) + rest;
      assert Pipeline(c) + rest == Primary(c.left) + RedirText([]) + (['|'] + more);
      ReadPrimary(c.left, [], ['|'] + more);
      ReadPipeline(c.right, rest);
      PipeJoins(Pipeline(c) + rest, c.left, more, c.right, rest);
    } else {
      assert Pipeline(c) + rest == Primary(c) + RedirText([]) + rest;
      ReadPrimary(c, [], rest);
      PipeStops(Pipeline(c) + rest, c, rest);
    }
  }

  lemma ReadLine(c: Cmd<string>, rest: string)
    requires Printable(c) && Closes(rest)
    ensures Reads(ParseLine(Line(c) + rest), c, rest)
    decreases c, if c.List? || c.Back? then 0 else 3
  {
    hide ParseExec, ParsePipe, SkipSpace, NextToken;
    match c
    case List(l, r) =>
      var more := Line(r) + rest;
      assert Line(c) + rest == Pipeline(l) + ([';'] + more);
      ReadPipeline(l, [';'] + more);
      ReadSymbol(';', more);
      LineSkip(more);
      ReadLine(r, rest);
    case Back(x) =>
      assert Line(c) + rest == Pipeline(x) + (['&'] + rest);
      ReadPipeline(x, ['&'] + rest);
      ReadSymbol('&', rest);
      SkipNone(rest);
      AmpsStop(Back(ParsePipe(Pipeline(x) + (['&'] + rest)).cmd), rest);
    case _ =>
      ReadPipeline(c, rest);
      LineOfPipeline(Pipeline(c) + rest, c, rest);
  }

  /** The parser reads every command back from the way it is written. */
  lemma RoundTrip(c: Cmd<string>)
    requires Printable(c)
    ensures ParseCmd(Line(c)).Ok? && Plain(ParseCmd(Line(c)).cmd) == c
  {
    hide ParseLine, Line;
    assert Line(c) + [] == Line(c);
    ReadLine(c, []);
    SkipNone([]);
  }
}
