/** The shell's parser as it runs: an index moving over the line, and the line cut into strings in place. */
module ShellParser {
  import opened ShellGrammar
  import ShellSyntax

  const NUL: char := '\0'

  method Skip(s: string, i: nat) returns (j: nat)
    requires i <= |s|
    ensures i <= j <= |s| && s[j..] == SkipSpace(s[i..])
  {
    j := i;
    while j < |s| && IsSpace(s[j])
      invariant i <= j <= |s| && SkipSpace(s[j..]) == SkipSpace(s[i..])
    {
      assert s[j..][1..] == s[j + 1..];
      j := j + 1;
    }
    SkipNone(s[j..]);
  }

  method WordEnd(s: string, i: nat) returns (j: nat)
    requires i <= |s|
    ensures i <= j <= |s| && j - i == WordLength(s[i..])
  {
    j := i;
    while j < |s| && !IsSpace(s[j]) && !IsSymbol(s[j])
      invariant i <= j <= |s| && WordLength(s[i..]) == j - i + WordLength(s[j..])
    {
      assert s[j..][1..] == s[j + 1..];
      j := j + 1;
    }
  }

  lemma Slices(s: string, q: nat, j: nat)
    requires q <= j <= |s|
    ensures s[q..][..j - q] == s[q..j] && s[q..][j - q..] == s[j..]
  {
  }

  /** gettoken() */
  method GetToken(s: string, i: nat) returns (token: Token, j: nat)
    requires i <= |s|
    ensures i <= j <= |s| && (token, s[j..]) == NextToken(s[i..])
    ensures ShellSyntax.Takes(s[i..], token, s[j..])
  {
    hide SkipSpace, WordLength, ShellSyntax.Takes;
    ShellSyntax.TokenTakes(s[i..]);
    j := Skip(s, i);
    var q := j;
    if j == |s| {
      token := End;
    } else if s[j] == '>' {
      j := j + 1;
      token := Symbol('>');
      if j < |s| && s[j] == '>' {
        token := Twice;
        j := j + 1;
      }
    } else if IsSymbol(s[j]) {
      token := Symbol(s[j]);
      j := j + 1;
    } else {
      j := WordEnd(s, j);
      token := Text(Word(s[q..j], |s| - q));
    }
    Slices(s, q, j);
    assert TokenOf(s[q..]) == (token, s[j..]);
    j := Skip(s, j);
  }

  method PeekAt(s: string, i: nat, chars: string) returns (yes: bool, j: nat)
    requires i <= |s|
    ensures i <= j <= |s| && s[j..] == SkipSpace(s[i..]) && yes == Peek(s[i..], chars)
  {
    hide SkipSpace;
    j := Skip(s, i);
    yes := j < |s| && s[j] in chars;
  }

  /** What is left of the redirections round `c` when the rest of the line is `r`. */
  function RedirInto(c: Cmd<Word>, r: string): Result {
    match ParseRedirs(r)
    case NoFile => Panic("missing file for redirection")
    case Redirs(list, rest) => Ok(Wrap(c, list), rest)
  }

  lemma RedirStep(c: Cmd<Word>, r: string)
    requires Peek(r, "<>")
    ensures var (sign, r1) := NextToken(r); var (file, r2) := NextToken(r1);
            RedirInto(c, r) == if !file.Text? then Panic("missing file for redirection")
                               else RedirInto(Redir(c, ModeOf(sign), file.word), r2)
  {
    hide NextToken, SkipSpace;
  }

  /** parseredirs() */
  method Redirections(c: Cmd<Word>, s: string, i: nat) returns (p: Result, j: nat)
    requires i <= |s|
    ensures p == RedirInto(c, s[i..]) && (p.Ok? ==> i <= j <= |s| && p.rest == s[j..])
  {
    hide NextToken, SkipSpace, ParseRedirs, RedirInto;
    var cmd := c;
    var more;
    more, j := PeekAt(s, i, "<>");
    LineSkip(s[i..]);
    SameRedirs(c, s[i..], s[j..]);
    while more
      invariant i <= j <= |s| && RedirInto(cmd, s[j..]) == RedirInto(c, s[i..])
      invariant more == Peek(s[j..], "<>") && s[j..] == SkipSpace(s[j..])
      decreases |s| - j, more
    {
      hide NextToken, SkipSpace, ParseRedirs, RedirInto;
      var sign, file;
      RedirStep(cmd, s[j..]);
      sign, j := GetToken(s, j);
      file, j := GetToken(s, j);
      if !file.Text? {
        return Panic("missing file for redirection"), j;
      }
      cmd := Redir(cmd, ModeOf(sign), file.word);
      ghost var before := s[j..];
      more, j := PeekAt(s, j, "<>");
      LineSkip(before);
      SameRedirs(cmd, before, s[j..]);
    }
    NoMore(cmd, s[j..]);
    p := Ok(cmd, s[j..]);
  }

  lemma SameRedirs(c: Cmd<Word>, r: string, t: string)
    requires t == SkipSpace(r) && ParseRedirs(t) == ParseRedirs(r)
    ensures RedirInto(c, t) == RedirInto(c, r) && Peek(t, "<>") == Peek(r, "<>") && SkipSpace(t) == t
  {
    hide ParseRedirs, SkipSpace;
    SkipNone(t);
  }

  lemma NoMore(c: Cmd<Word>, r: string)
    requires !Peek(r, "<>") && r == SkipSpace(r)
    ensures RedirInto(c, r) == Ok(c, r)
  {
    hide SkipSpace;
  }

  /** The command node is made before its arguments are known, and filled in when the redirections are round it. */
  function Fill(c: Cmd<Word>, args: seq<Word>): Cmd<Word> {
    match c
    case Exec(_) => Exec(args)
    case Redir(x, m, file) => Redir(Fill(x, args), m, file)
    case _ => c
  }

  lemma {:induction false} FillWrap(c: Cmd<Word>, list: seq<(Mode, Word)>, args: seq<Word>)
    ensures Fill(Wrap(c, list), args) == Wrap(Fill(c, args), list)
    decreases |list|
  {
    if list != [] {
      FillWrap(Redir(c, list[0].0, list[0].1), list[1..], args);
    }
  }

  lemma {:induction false} WrapMore(c: Cmd<Word>, list: seq<(Mode, Word)>, more: seq<(Mode, Word)>)
    ensures Wrap(Wrap(c, list), more) == Wrap(c, list + more)
    decreases |list|
  {
    if list == [] {
      assert list + more == more;
    } else {
      assert (list + more)[1..] == list[1..] + more;
      WrapMore(Redir(c, list[0].0, list[0].1), list[1..], more);
    }
  }

  lemma ArgStep(args: seq<Word>, list: seq<(Mode, Word)>, ret: Cmd<Word>, r: string)
    returns (list': seq<(Mode, Word)>)
    requires ret == Wrap(Exec([]), list) && !Peek(r, "|)&;") && NextToken(r).0.Text? && |args| + 1 < MAXARGS
    ensures var (token, r1) := NextToken(r); var p := RedirInto(ret, r1);
            && (p.Panic? ==> ParseArgs(args, list, r) == p)
            && (p.Ok? ==> p.cmd == Wrap(Exec([]), list')
                          && ParseArgs(args, list, r) == ParseArgs(args + [token.word], list', p.rest))
  {
    hide NextToken, SkipSpace, ParseRedirs, Wrap;
    var r1 := NextToken(r).1;
    var more := match ParseRedirs(r1) case NoFile => [] case Redirs(m, _) => m;
    list' := list + more;
    WrapMore(Exec([]), list, more);
  }

  /** parseexec() when there is no parenthesis. */
  method Simple(s: string, i: nat) returns (p: Result, j: nat)
    requires i <= |s| && !Peek(s[i..], "(")
    ensures p == ParseExec(s[i..]) && (p.Ok? ==> i <= j <= |s| && p.rest == s[j..])
  {
    hide NextToken, SkipSpace, ParseRedirs, ParseArgs, ParseExec, Wrap;
    var args := [];
    p, j := Redirections(Exec([]), s, i);
    if p.Panic? {
      ExecPanics(s[i..]);
      return;
    }
    ExecIsArgs(s[i..]);
    ghost var list := ParseRedirs(s[i..]).list;
    var ret := p.cmd;
    while true
      invariant i <= j <= |s| && ret == Wrap(Exec([]), list) && ParseArgs(args, list, s[j..]) == ParseExec(s[i..])
      decreases |s| - j
    {
      hide NextToken, SkipSpace, ParseRedirs, ParseArgs, ParseExec, Wrap;
      var stop, token;
      ArgsSkip(args, list, s[j..]);
      FillWrap(Exec([]), list, args);
      stop, j := PeekAt(s, j, "|)&;");
      SkipNone(s[j..]);
      if stop {
        p := Ok(Fill(ret, args), s[j..]);
        ArgsEnd(args, list, s[j..]);
        return;
      }
      ghost var r := s[j..];
      token, j := GetToken(s, j);
      if token == End {
        p := Ok(Fill(ret, args), s[j..]);
        ArgsEnd(args, list, r);
        return;
      }
      if !token.Text? {
        ArgsDie(args, list, r);
        return Panic("syntax"), j;
      }
      if |args| + 1 >= MAXARGS {
        ArgsDie(args, list, r);
        return Panic("too many args"), j;
      }
      list := ArgStep(args, list, ret, r);
      p, j := Redirections(ret, s, j);
      if p.Panic? {
        return;
      }
      args := args + [token.word];
      ret := p.cmd;
    }
  }

  lemma ExecPanics(r: string)
    requires !Peek(r, "(") && RedirInto(Exec([]), r).Panic?
    ensures ParseExec(r) == RedirInto(Exec([]), r)
  {
    hide NextToken, SkipSpace, ParseRedirs, Wrap;
  }

  lemma ArgsEnd(args: seq<Word>, list: seq<(Mode, Word)>, r: string)
    requires Peek(r, "|)&;") || NextToken(r).0 == End
    ensures var rest := if Peek(r, "|)&;") then SkipSpace(r) else NextToken(r).1;
            ParseArgs(args, list, r) == Ok(Wrap(Exec(args), list), rest)
  {
  }

  lemma ArgsDie(args: seq<Word>, list: seq<(Mode, Word)>, r: string)
    requires !Peek(r, "|)&;") && NextToken(r).0 != End && (!NextToken(r).0.Text? || |args| + 1 >= MAXARGS)
    ensures ParseArgs(args, list, r) == Panic(if !NextToken(r).0.Text? then "syntax" else "too many args")
  {
  }

  /** What is read between two rests of the line is a unit: a simple command, or a block with both its parentheses. */
  ghost predicate IsUnit(r: string, rest: string, u: ShellSyntax.Unit) {
    ShellSyntax.UnitOk(u) && ShellSyntax.Tokens(r) == ShellSyntax.UnitYield(u) + ShellSyntax.Tokens(rest)
  }

  lemma UnitThere(r: string)
    requires ParseExec(r).Ok?
    ensures exists u :: IsUnit(r, ParseExec(r).rest, u) && ParseExec(r).cmd == ShellSyntax.UnitCmd(u)
  {
    hide ParseExec;
    var u := ShellSyntax.ExecSound(r);
    assert IsUnit(r, ParseExec(r).rest, u);
  }

  /** parseexec(), with parseblock() */
  method Command(s: string, i: nat) returns (p: Result, j: nat)
    requires i <= |s|
    ensures p == ParseExec(s[i..]) && (p.Ok? ==> i <= j <= |s| && p.rest == s[j..])
    ensures p.Ok? ==> exists u :: IsUnit(s[i..], s[j..], u) && p.cmd == ShellSyntax.UnitCmd(u)
    decreases |s| - i, 1
  {
    hide NextToken, SkipSpace, ParseRedirs, ParseArgs, ParseLine, Wrap, IsUnit, ShellSyntax.UnitCmd;
    if ParseExec(s[i..]).Ok? {
      UnitThere(s[i..]);
    }
    var open, close, token;
    open, j := PeekAt(s, i, "(");
    LineSkip(s[i..]);
    SkipNone(s[j..]);
    if !open {
      p, j := Simple(s, j);
      return;
    }
    token, j := GetToken(s, j);
    p, j := CommandLine(s, j);
    if p.Panic? {
      return;
    }
    var cmd := p.cmd;
    ghost var rest := p.rest;
    close, j := PeekAt(s, j, ")");
    if !close {
      return Panic("syntax - missing )"), j;
    }
    SkipNone(s[j..]);
    assert NextToken(s[j..]) == NextToken(rest) by { SameToken(rest); }
    token, j := GetToken(s, j);
    p, j := Redirections(cmd, s, j);
  }

  lemma SameToken(r: string)
    ensures NextToken(SkipSpace(r)) == NextToken(r)
  {
    SkipNone(SkipSpace(r));
  }

  /** parsepipe() */
  method PipeLine(s: string, i: nat) returns (p: Result, j: nat)
    requires i <= |s|
    ensures p == ParsePipe(s[i..]) && (p.Ok? ==> i <= j <= |s| && p.rest == s[j..])
    decreases |s| - i, 2
  {
    hide NextToken, SkipSpace, ParseExec;
    var bar, token;
    p, j := Command(s, i);
    if p.Panic? {
      return;
    }
    var left := p.cmd;
    SameToken(s[j..]);
    bar, j := PeekAt(s, j, "|");
    if bar {
      token, j := GetToken(s, j);
      p, j := PipeLine(s, j);
      if p.Ok? {
        p := Ok(Piped(left, p.cmd), p.rest);
      }
    } else {
      p := Ok(left, s[j..]);
    }
  }

  /** parseline() */
  method CommandLine(s: string, i: nat) returns (p: Result, j: nat)
    requires i <= |s|
    ensures p == ParseLine(s[i..]) && (p.Ok? ==> i <= j <= |s| && p.rest == s[j..])
    decreases |s| - i, 3
  {
    hide NextToken, SkipSpace, ParsePipe, ParseAmps;
    var more, token, last;
    p, j := PipeLine(s, i);
    if p.Panic? {
      return;
    }
    var cmd := p.cmd;
    AmpsSkip(cmd, s[j..]);
    more, j := PeekAt(s, j, "&");
    while more
      invariant i <= j <= |s| && ParseAmps(cmd, s[j..]) == ParseLine(s[i..])
      invariant more == Peek(s[j..], "&") && SkipSpace(s[j..]) == s[j..]
      decreases |s| - j, more
    {
      hide NextToken, SkipSpace, ParsePipe, ParseAmps, ParseLine;
      ghost var r := s[j..];
      AmpStep(cmd, r);
      token, j := GetToken(s, j);
      SkipNone(s[j..]);
      last, j := PeekAt(s, j, ";)");
      LineSkip(s[j..]);
      if last || j == |s| {
        cmd := Back(cmd);
      } else {
        p, j := CommandLine(s, j);
        p := Then(Back(cmd), p);
        return;
      }
      AmpsSkip(cmd, s[j..]);
      more, j := PeekAt(s, j, "&");
    }
    NoAmp(cmd, s[j..]);
    more, j := PeekAt(s, j, ";");
    if more {
      token, j := GetToken(s, j);
      p, j := CommandLine(s, j);
      p := Then(cmd, p);
    } else {
      p := Ok(cmd, s[j..]);
    }
  }

  function Then(left: Cmd<Word>, p: Result): Result {
    if p.Ok? then Ok(List(left, p.cmd), p.rest) else p
  }

  lemma AmpsSkip(c: Cmd<Word>, r: string)
    ensures ParseAmps(c, SkipSpace(r)) == ParseAmps(c, r) && SkipSpace(SkipSpace(r)) == SkipSpace(r)
    ensures Peek(SkipSpace(r), "&") == Peek(r, "&")
  {
    hide NextToken, SkipSpace;
    SkipNone(SkipSpace(r));
    SameToken(r);
  }

  lemma AmpStep(c: Cmd<Word>, r: string)
    requires Peek(r, "&")
    ensures var r1 := NextToken(r).1;
            && SkipSpace(r1) == r1 && |r1| < |r|
            && ParseAmps(c, r) == if Peek(r1, ";)") || |r1| == 0 then ParseAmps(Back(c), r1)
                                  else Then(Back(c), ParseLine(r1))
  {
    hide SkipSpace, WordLength;
    SkipNone(NextToken(r).1);
  }

  lemma NoAmp(c: Cmd<Word>, r: string)
    requires !Peek(r, "&")
    ensures ParseAmps(c, r) == if Peek(r, ";") then Then(c, ParseLine(NextToken(r).1)) else Ok(c, SkipSpace(r))
  {
    hide SkipSpace, NextToken;
  }

  /** parsecmd(), up to the cutting of the line */
  method Parse(s: string) returns (p: Result)
    ensures p == ParseCmd(s)
    ensures p.Ok? <==> exists l :: ShellSyntax.Writes(s, l)
    ensures p.Ok? ==> exists l :: ShellSyntax.Writes(s, l) && p.cmd == ShellSyntax.ScriptCmd(l)
    ensures p.Ok? ==> ShellSyntax.Balanced(s)
  {
    hide ParseLine, SkipSpace, ShellSyntax.Writes, ShellSyntax.Balanced;
    ParseMeans(s);
    assert s[0..] == s;
    var j;
    p, j := CommandLine(s, 0);
    if p.Ok? {
      j := Skip(s, j);
      p := if j != |s| then Panic("syntax") else Ok(p.cmd, "");
    }
  }

  lemma ParseMeans(s: string)
    ensures ParseCmd(s).Ok? <==> exists l :: ShellSyntax.Writes(s, l)
    ensures ParseCmd(s).Ok? ==> exists l :: ShellSyntax.Writes(s, l) && ParseCmd(s).cmd == ShellSyntax.ScriptCmd(l)
    ensures ParseCmd(s).Ok? ==> ShellSyntax.Balanced(s)
  {
    hide ShellSyntax.Writes, ShellSyntax.Balanced, ParseLine;
    if ParseCmd(s).Ok? {
      var l := ShellSyntax.IsScript(s);
      ShellSyntax.ParsedIsBalanced(s);
    }
    if l :| ShellSyntax.Writes(s, l) {
      ShellSyntax.Accepts(s, l);
    }
  }

  // ---- Where the words are, and cutting the line ----

  predicate IsSuffix(r: string, s: string) {
    |r| <= |s| && r == s[|s| - |r|..]
  }

  /** The word is in the line where it says, and ends where a space, a symbol or the end of the line is. */
  predicate Placed(s: string, w: Word) {
    && IsWord(w.text) && |w.text| <= w.back <= |s|
    && var lo := |s| - w.back;
       s[lo..lo + |w.text|] == w.text && (lo + |w.text| == |s| || !IsWordChar(s[lo + |w.text|]))
  }

  predicate AllPlaced(s: string, c: Cmd<Word>) {
    match c
    case Exec(args) => |args| < MAXARGS && forall i :: 0 <= i < |args| ==> Placed(s, args[i])
    case Redir(x, _, file) => AllPlaced(s, x) && Placed(s, file)
    case Piped(l, r) => AllPlaced(s, l) && AllPlaced(s, r)
    case List(l, r) => AllPlaced(s, l) && AllPlaced(s, r)
    case Back(x) => AllPlaced(s, x)
  }

  lemma {:induction false} SkipSuffix(r: string, s: string)
    requires IsSuffix(r, s)
    ensures IsSuffix(SkipSpace(r), s)
    decreases |r|
  {
    if |r| > 0 && IsSpace(r[0]) {
      assert r[1..] == s[|s| - |r| + 1..];
      SkipSuffix(r[1..], s);
    }
  }

  lemma TokenPlaced(r: string, s: string)
    requires IsSuffix(r, s)
    ensures IsSuffix(NextToken(r).1, s) && (NextToken(r).0.Text? ==> Placed(s, NextToken(r).0.word))
  {
    hide SkipSpace, TokenOf, IsSuffix, Placed;
    var t := SkipSpace(r);
    SkipSuffix(r, s);
    TokenSuffix(t, s);
    SkipSuffix(TokenOf(t).1, s);
  }

  lemma TokenSuffix(t: string, s: string)
    requires IsSuffix(t, s) && (|t| > 0 ==> !IsSpace(t[0]))
    ensures var (token, rest) := TokenOf(t); IsSuffix(rest, s) && (token.Text? ==> Placed(s, token.word))
  {
    hide WordLength, IsWordChar, IsSymbol, IsSpace;
    var (token, rest) := TokenOf(t);
    var lo, k := |s| - |t|, |t| - |rest|;
    Slices(s, lo, lo + k);
    assert rest == t[k..];
    if token.Text? {
      assert k == WordLength(t) && token.word.text == t[..k] == s[lo..lo + k];
      assert k < |t| ==> s[lo + k] == t[k];
    }
  }

  ghost predicate ListPlaced(s: string, list: seq<(Mode, Word)>) {
    forall i :: 0 <= i < |list| ==> Placed(s, list[i].1)
  }

  lemma {:induction false} RedirsPlaced(r: string, s: string)
    requires IsSuffix(r, s)
    ensures var p := ParseRedirs(r); p.Redirs? ==> IsSuffix(p.rest, s) && ListPlaced(s, p.list)
    decreases |r|
  {
    hide SkipSpace, NextToken, Placed, IsSuffix;
    SkipSuffix(r, s);
    if Peek(r, "<>") {
      var (sign, r1) := NextToken(r);
      var (file, r2) := NextToken(r1);
      TokenPlaced(r, s);
      TokenPlaced(r1, s);
      if file.Text? {
        RedirsPlaced(r2, s);
      }
    }
  }

  lemma {:induction false} WrapPlaced(s: string, c: Cmd<Word>, list: seq<(Mode, Word)>)
    requires AllPlaced(s, c) && ListPlaced(s, list)
    ensures AllPlaced(s, Wrap(c, list))
    decreases |list|
  {
    hide Placed;
    if list != [] {
      WrapPlaced(s, Redir(c, list[0].0, list[0].1), list[1..]);
    }
  }

  ghost predicate Good(p: Result, s: string) {
    p.Ok? ==> IsSuffix(p.rest, s) && AllPlaced(s, p.cmd)
  }

  lemma {:induction false} ArgsPlaced(args: seq<Word>, list: seq<(Mode, Word)>, r: string, s: string)
    requires IsSuffix(r, s) && AllPlaced(s, Exec(args)) && ListPlaced(s, list)
    ensures Good(ParseArgs(args, list, r), s)
    decreases |r|
  {
    hide SkipSpace, NextToken, Placed, IsSuffix, ParseRedirs, Wrap;
    SkipSuffix(r, s);
    TokenPlaced(r, s);
    WrapPlaced(s, Exec(args), list);
    var (token, r1) := NextToken(r);
    if token.Text? && |args| + 1 < MAXARGS {
      RedirsPlaced(r1, s);
      match ParseRedirs(r1)
      case NoFile =>
      case Redirs(more, rest) => ArgsPlaced(args + [token.word], list + more, rest, s);
    }
  }

  lemma {:induction false} ExecPlaced(r: string, s: string)
    requires IsSuffix(r, s)
    ensures Good(ParseExec(r), s)
    decreases |r|, 1
  {
    hide SkipSpace, NextToken, Placed, IsSuffix, ParseRedirs, Wrap, ParseArgs, ParseLine;
    TokenPlaced(r, s);
    if Peek(r, "(") {
      var r1 := NextToken(r).1;
      assert |r1| < |r|;
      LinePlaced(r1, s);
      match ParseLine(r1)
      case Panic(_) =>
      case Ok(cmd, rest) =>
        TokenPlaced(rest, s);
        RedirsPlaced(NextToken(rest).1, s);
        match ParseRedirs(NextToken(rest).1)
        case NoFile =>
        case Redirs(list, _) => WrapPlaced(s, cmd, list);
    } else {
      RedirsPlaced(r, s);
      match ParseRedirs(r)
      case NoFile =>
      case Redirs(list, rest) => ArgsPlaced([], list, rest, s);
    }
  }

  lemma {:induction false} PipePlaced(r: string, s: string)
    requires IsSuffix(r, s)
    ensures Good(ParsePipe(r), s)
    decreases |r|, 2
  {
    hide SkipSpace, NextToken, Placed, IsSuffix, ParseExec;
    ExecPlaced(r, s);
    match ParseExec(r)
    case Panic(_) =>
    case Ok(_, rest) =>
      SkipSuffix(rest, s);
      TokenPlaced(rest, s);
      if Peek(rest, "|") {
        PipePlaced(NextToken(rest).1, s);
      }
  }

  lemma {:induction false} AmpsPlaced(c: Cmd<Word>, r: string, s: string)
    requires IsSuffix(r, s) && AllPlaced(s, c)
    ensures Good(ParseAmps(c, r), s)
    decreases |r|, 3
  {
    hide SkipSpace, NextToken, Placed, IsSuffix, ParseLine;
    SkipSuffix(r, s);
    TokenPlaced(r, s);
    var r1 := NextToken(r).1;
    if Peek(r, "&") {
      if Peek(r1, ";)") || |r1| == 0 {
        AmpsPlaced(Back(c), r1, s);
      } else {
        LinePlaced(r1, s);
        assert AllPlaced(s, Back(c));
      }
    } else if Peek(r, ";") {
      LinePlaced(r1, s);
    }
  }

  lemma {:induction false} LinePlaced(r: string, s: string)
    requires IsSuffix(r, s)
    ensures Good(ParseLine(r), s)
    decreases |r|, 4
  {
    hide Placed, IsSuffix, ParsePipe, ParseAmps;
    PipePlaced(r, s);
    match ParsePipe(r)
    case Panic(_) =>
    case Ok(cmd, rest) => AmpsPlaced(cmd, rest, s);
  }

  /** Parsing again what was parsed, written down, gives the same command: the written form is a normal form. */
  lemma NormalForm(s: string)
    requires ParseCmd(s).Ok?
    ensures var c := Plain(ParseCmd(s).cmd); ParseCmd(Line(c)).Ok? && Plain(ParseCmd(Line(c)).cmd) == c
  {
    hide ParseLine, ParseCmd, Plain, Line;
    CmdPlaced(s);
    PlacedPrintable(s, ParseCmd(s).cmd);
    RoundTrip(Plain(ParseCmd(s).cmd));
  }

  lemma CmdPlaced(s: string)
    requires ParseCmd(s).Ok?
    ensures AllPlaced(s, ParseCmd(s).cmd)
  {
    hide ParseLine, Placed;
    LinePlaced(s, s);
  }

  lemma {:induction false} PlacedPrintable(s: string, c: Cmd<Word>)
    requires AllPlaced(s, c)
    ensures Printable(Plain(c))
  {
    match c
    case Exec(args) => assert forall i :: 0 <= i < |args| ==> Placed(s, args[i]);
    case Redir(x, _, _) => PlacedPrintable(s, x);
    case Piped(l, r) => PlacedPrintable(s, l); PlacedPrintable(s, r);
    case List(l, r) => PlacedPrintable(s, l); PlacedPrintable(s, r);
    case Back(x) => PlacedPrintable(s, x);
  }

  function EndOf(len: nat, w: Word): int {
    len - w.back + |w.text|
  }

  /** Where nulterminate() puts a NUL. */
  ghost function Cuts(len: nat, c: Cmd<Word>): set<int> {
    match c
    case Exec(args) => set i | 0 <= i < |args| :: EndOf(len, args[i])
    case Redir(x, _, file) => Cuts(len, x) + {EndOf(len, file)}
    case Piped(l, r) => Cuts(len, l) + Cuts(len, r)
    case List(l, r) => Cuts(len, l) + Cuts(len, r)
    case Back(x) => Cuts(len, x)
  }

  /** nulterminate(): the line is cut in place, at those places and no other. */
  method Nulterminate(buf: array<char>, len: nat, ghost s: string, c: Cmd<Word>)
    requires len == |s| < buf.Length && AllPlaced(s, c)
    modifies buf
    ensures forall k :: 0 <= k < buf.Length ==> buf[k] == if k in Cuts(|s|, c) then NUL else old(buf[k])
    decreases c
  {
    hide Placed;
    match c
    case Exec(args) =>
      CutArgs(buf, len, s, args);
    case Redir(x, _, file) =>
      Nulterminate(buf, len, s, x);
      CutWord(buf, len, s, file);
    case Piped(l, r) =>
      Nulterminate(buf, len, s, l);
      Nulterminate(buf, len, s, r);
    case List(l, r) =>
      Nulterminate(buf, len, s, l);
      Nulterminate(buf, len, s, r);
    case Back(x) =>
      Nulterminate(buf, len, s, x);
  }

  method CutWord(buf: array<char>, len: nat, ghost s: string, w: Word)
    requires len == |s| < buf.Length && Placed(s, w)
    modifies buf
    ensures forall k :: 0 <= k < buf.Length ==> buf[k] == if k == EndOf(|s|, w) then NUL else old(buf[k])
  {
    buf[EndOf(len, w)] := NUL;
  }

  method CutArgs(buf: array<char>, len: nat, ghost s: string, args: seq<Word>)
    requires len == |s| < buf.Length && forall i :: 0 <= i < |args| ==> Placed(s, args[i])
    modifies buf
    ensures forall k :: 0 <= k < buf.Length ==> buf[k] == if k in Cuts(|s|, Exec(args)) then NUL else old(buf[k])
  {
    hide Placed;
    var i := 0;
    while i < |args|
      invariant 0 <= i <= |args|
      invariant forall k :: 0 <= k < buf.Length ==>
                  buf[k] == if exists j :: 0 <= j < i && k == EndOf(|s|, args[j]) then NUL else old(buf[k])
    {
      CutWord(buf, len, s, args[i]);
      i := i + 1;
    }
  }

  /** What a pointer into the buffer reads as. */
  function CString(b: seq<char>, lo: nat): string
    requires lo <= |b|
    decreases |b| - lo
  {
    if lo == |b| || b[lo] == NUL then [] else [b[lo]] + CString(b, lo + 1)
  }

  lemma {:induction false} CStringIs(b: seq<char>, lo: nat, w: string)
    requires lo + |w| < |b| && b[lo..lo + |w|] == w && b[lo + |w|] == NUL && NUL !in w
    ensures CString(b, lo) == w
    decreases |w|
  {
    if |w| > 0 {
      assert b[lo] == w[0];
      CStringIs(b, lo + 1, w[1..]);
    }
  }

  /** No cut falls inside a word. */
  lemma {:induction false} CutsOutside(s: string, c: Cmd<Word>, k: int)
    requires AllPlaced(s, c) && 0 <= k < |s| && IsWordChar(s[k])
    ensures k !in Cuts(|s|, c)
  {
    match c
    case Exec(args) => assert forall i :: 0 <= i < |args| ==> Placed(s, args[i]);
    case Redir(x, _, _) => CutsOutside(s, x, k);
    case Piped(l, r) => CutsOutside(s, l, k); CutsOutside(s, r, k);
    case List(l, r) => CutsOutside(s, l, k); CutsOutside(s, r, k);
    case Back(x) => CutsOutside(s, x, k);
  }

  /** The command as it reads from the buffer. */
  ghost function ArgStrings(b: seq<char>, len: nat, args: seq<Word>): seq<string>
    requires len <= |b| && forall i :: 0 <= i < |args| ==> args[i].back <= len
  {
    if args == [] then [] else ArgStrings(b, len, args[..|args| - 1]) + [CString(b, len - args[|args| - 1].back)]
  }

  ghost function Strings(b: seq<char>, s: string, c: Cmd<Word>): Cmd<string>
    requires |s| <= |b| && AllPlaced(s, c)
  {
    match c
    case Exec(args) =>
      assert forall i :: 0 <= i < |args| ==> Placed(s, args[i]);
      Exec(ArgStrings(b, |s|, args))
    case Redir(x, m, file) => Redir(Strings(b, s, x), m, CString(b, |s| - file.back))
    case Piped(l, r) => Piped(Strings(b, s, l), Strings(b, s, r))
    case List(l, r) => List(Strings(b, s, l), Strings(b, s, r))
    case Back(x) => Back(Strings(b, s, x))
  }

  /** The buffer is the line cut at `cuts`, none of them inside a word. */
  ghost predicate IsCut(b: seq<char>, s: string, cuts: set<int>) {
    && NUL !in s && |s| < |b|
    && (forall k :: 0 <= k < |s| && IsWordChar(s[k]) ==> b[k] == s[k])
    && (forall k {:trigger b[k]} :: k in cuts ==> 0 <= k < |b| && b[k] == NUL)
  }

  lemma WordReads(b: seq<char>, s: string, cuts: set<int>, w: Word)
    requires IsCut(b, s, cuts) && Placed(s, w) && EndOf(|s|, w) in cuts
    ensures CString(b, |s| - w.back) == w.text
  {
    var lo, hi := |s| - w.back, EndOf(|s|, w);
    assert forall k :: lo <= k < hi ==> s[k] == w.text[k - lo] && IsWordChar(s[k]) && b[k] == s[k];
    assert b[lo..hi] == w.text;
    assert b[hi] == NUL;
    assert NUL !in w.text;
    CStringIs(b, lo, w.text);
  }

  lemma {:induction false} ArgsRead(b: seq<char>, s: string, cuts: set<int>, args: seq<Word>)
    requires IsCut(b, s, cuts)
    requires forall i :: 0 <= i < |args| ==> args[i].back <= |s| && Placed(s, args[i]) && EndOf(|s|, args[i]) in cuts
    ensures ArgStrings(b, |s|, args) == TextsOf(args)
  {
    hide Placed;
    if args != [] {
      ArgsRead(b, s, cuts, args[..|args| - 1]);
      WordReads(b, s, cuts, args[|args| - 1]);
    }
  }

  /** Every pointer of the command reads as its word once the line is cut. */
  lemma {:induction false} CutReads(b: seq<char>, s: string, cuts: set<int>, c: Cmd<Word>)
    requires IsCut(b, s, cuts) && AllPlaced(s, c) && Cuts(|s|, c) <= cuts
    ensures Strings(b, s, c) == Plain(c)
  {
    match c
    case Exec(args) =>
      forall i | 0 <= i < |args| ensures args[i].back <= |s| && Placed(s, args[i]) && EndOf(|s|, args[i]) in cuts {
        assert EndOf(|s|, args[i]) in Cuts(|s|, c);
      }
      ArgsRead(b, s, cuts, args);
    case Redir(x, _, file) =>
      CutReads(b, s, cuts, x);
      WordReads(b, s, cuts, file);
    case Piped(l, r) =>
      CutReads(b, s, cuts, l);
      CutReads(b, s, cuts, r);
    case List(l, r) =>
      CutReads(b, s, cuts, l);
      CutReads(b, s, cuts, r);
    case Back(x) =>
      CutReads(b, s, cuts, x);
  }

  lemma {:induction false} CutsInside(s: string, c: Cmd<Word>, k: int)
    requires AllPlaced(s, c) && k in Cuts(|s|, c)
    ensures 0 <= k <= |s|
  {
    match c
    case Exec(args) => assert forall i :: 0 <= i < |args| ==> Placed(s, args[i]);
    case Redir(x, _, file) => if k in Cuts(|s|, x) { CutsInside(s, x, k); }
    case Piped(l, r) => if k in Cuts(|s|, l) { CutsInside(s, l, k); } else { CutsInside(s, r, k); }
    case List(l, r) => if k in Cuts(|s|, l) { CutsInside(s, l, k); } else { CutsInside(s, r, k); }
    case Back(x) => CutsInside(s, x, k);
  }

  /** parsecmd(): the command's pointers, read from the buffer it was parsed from, are its words. */
  method ParseInPlace(buf: array<char>, len: nat) returns (p: Result)
    requires len < buf.Length && NUL !in buf[..len]
    modifies buf
    ensures p == ParseCmd(old(buf[..len]))
    ensures p.Ok? ==> AllPlaced(old(buf[..len]), p.cmd)
    ensures p.Ok? ==> Strings(buf[..], old(buf[..len]), p.cmd) == Plain(p.cmd)
    ensures p.Panic? ==> buf[..] == old(buf[..])
  {
    hide ParseCmd, Placed, AllPlaced, Cuts;
    ghost var s := buf[..len];
    p := Parse(buf[..len]);
    if p.Ok? {
      CmdPlaced(s);
      Nulterminate(buf, len, s, p.cmd);
      forall k | 0 <= k < |s| && IsWordChar(s[k]) ensures k !in Cuts(|s|, p.cmd) {
        CutsOutside(s, p.cmd, k);
      }
      forall k | k in Cuts(|s|, p.cmd) ensures 0 <= k <= |s| {
        CutsInside(s, p.cmd, k);
      }
      assert IsCut(buf[..], s, Cuts(|s|, p.cmd));
      CutReads(buf[..], s, Cuts(|s|, p.cmd), p.cmd);
    }
  }
}
