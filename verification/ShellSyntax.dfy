/** The shell's language told without its parser: which characters make tokens, which tokens make a command line and
    what it means; and that the parser accepts exactly these lines, with exactly that meaning. */
module ShellSyntax {
  import opened ShellGrammar

  // ---- Characters and tokens ----

  predicate IsBlank(c: char) {
    c == ' ' || c == '\t' || c == '\r' || c == '\n' || c == '\U{B}'
  }

  predicate IsMark(c: char) {
    c == '<' || c == '|' || c == '>' || c == '&' || c == ';' || c == '(' || c == ')'
  }

  predicate White(s: string) {
    forall i :: 0 <= i < |s| ==> IsBlank(s[i])
  }

  /** The characters of a token. */
  function Size(t: Token): nat {
    match t
    case End => 0
    case Symbol(_) => 1
    case Twice => 2
    case Text(w) => |w.text|
  }

  /** The string begins with the token: a mark, ">>", or a word without blanks and marks that a blank, a mark or the end
      of the line follows. */
  predicate Begins(r: string, t: Token) {
    match t
    case End => false
    case Symbol(c) => |r| > 0 && r[0] == c && IsMark(c) && (c == '>' && |r| > 1 ==> r[1] != '>')
    case Twice => |r| > 1 && r[0] == '>' && r[1] == '>'
    case Text(w) =>
      && 0 < |w.text| <= |r| && r[..|w.text|] == w.text && w.back == |r|
      && (forall i :: 0 <= i < |w.text| ==> !IsBlank(r[i]) && !IsMark(r[i]))
      && (|w.text| < |r| ==> IsBlank(r[|w.text|]) || IsMark(r[|w.text|]))
  }

  /** The token is the first one, after `g` blanks. */
  predicate FirstAt(s: string, g: nat, t: Token) {
    g + Size(t) <= |s| && White(s[..g]) && Begins(s[g..], t)
  }

  /** The line is these tokens, with nothing but blanks before, between and after them. */
  ghost predicate Lexes(s: string, toks: seq<Token>)
    decreases |toks|
  {
    if toks == [] then White(s)
    else exists g: nat :: FirstAt(s, g, toks[0]) && Lexes(s[g + Size(toks[0])..], toks[1..])
  }

  /** The tokens gettoken() gives one after the other. */
  function Tokens(r: string): seq<Token>
    decreases |r|
  {
    var (token, rest) := NextToken(r);
    if token == End then [] else [token] + Tokens(rest)
  }

  lemma SameChars(c: char)
    ensures IsSpace(c) <==> IsBlank(c)
    ensures IsSymbol(c) <==> IsMark(c)
  {
  }

  /** Skipping space skips the blanks in front. */
  lemma {:induction false} SkipIs(r: string)
    ensures var g := |r| - |SkipSpace(r)|;
            && 0 <= g && SkipSpace(r) == r[g..] && White(r[..g]) && (g < |r| ==> !IsBlank(r[g]))
    decreases |r|
  {
    if |r| > 0 && IsSpace(r[0]) {
      SkipIs(r[1..]);
      var g := |r[1..]| - |SkipSpace(r[1..])|;
      assert r[..g + 1] == [r[0]] + r[1..][..g];
    }
  }

  lemma {:induction false} SkipsTo(s: string, g: nat)
    requires g <= |s| && White(s[..g]) && (g < |s| ==> !IsBlank(s[g]))
    ensures SkipSpace(s) == s[g..]
    decreases g
  {
    if g == 0 {
      SkipNone(s);
      assert s[0..] == s;
    } else {
      assert IsBlank(s[..g][0]);
      assert s[1..][..g - 1] == s[..g][1..];
      SkipsTo(s[1..], g - 1);
      assert s[1..][g - 1..] == s[g..];
    }
  }

  /** What the scanner takes for the first token the line begins with, and it can begin with no other. */
  lemma TokenBegins(r: string)
    requires |r| > 0 && !IsBlank(r[0])
    ensures var (t, rest) := TokenOf(r); Begins(r, t) && rest == r[Size(t)..]
  {
    hide WordLength;
    SameChars(r[0]);
    if !IsSymbol(r[0]) {
      var n := WordLength(r);
      forall i | 0 <= i < n ensures !IsBlank(r[i]) && !IsMark(r[i]) {
        SameChars(r[i]);
      }
      if n < |r| {
        SameChars(r[n]);
      }
    }
  }

  lemma BeginsOnce(r: string, t: Token)
    requires Begins(r, t)
    ensures |r| > 0 && !IsBlank(r[0]) && TokenOf(r).0 == t
  {
    hide WordLength;
    SameChars(r[0]);
    if t.Text? {
      var w := t.word.text;
      forall i | 0 <= i < |w| ensures IsWordChar(w[i]) {
        assert w[i] == r[i];
      }
      assert r == w + r[|w|..];
      WordThen(w, r[|w|..]);
    }
  }

  /** Blanks in front make no difference. */
  lemma TokensSkip(r: string)
    ensures Tokens(SkipSpace(r)) == Tokens(r)
  {
    hide SkipSpace, TokenOf;
    SkipNone(SkipSpace(r));
  }

  lemma WhiteIsNone(s: string)
    ensures White(s) <==> Tokens(s) == []
  {
    hide SkipSpace, TokenOf;
    SkipIs(s);
    assert s[..|s|] == s;
    if White(s) {
      SkipsTo(s, |s|);
    } else {
      var g := |s| - |SkipSpace(s)|;
      assert g < |s|;
    }
  }

  /** The first token and what is left after it. */
  lemma FirstIs(s: string, g: nat, t: Token)
    requires FirstAt(s, g, t)
    ensures NextToken(s).0 == t && t != End && Tokens(s) == [t] + Tokens(s[g + Size(t)..])
  {
    hide SkipSpace, TokenOf;
    var r := s[g..];
    BeginsOnce(r, t);
    SkipsTo(s, g);
    TokenBegins(r);
    assert r[Size(t)..] == s[g + Size(t)..];
    TokensSkip(s[g + Size(t)..]);
  }

  lemma FirstThere(s: string) returns (g: nat)
    requires NextToken(s).0 != End
    ensures FirstAt(s, g, NextToken(s).0)
  {
    hide SkipSpace, TokenOf;
    SkipIs(s);
    g := |s| - |SkipSpace(s)|;
    var r := s[g..];
    TokenBegins(r);
    Fits(r, TokenOf(r).0);
  }

  lemma Fits(r: string, t: Token)
    requires Begins(r, t)
    ensures Size(t) <= |r|
  {
  }

  /** What gettoken() takes: blanks, a token and the blanks after it; nothing but blanks if there is none. */
  ghost predicate Takes(r: string, t: Token, rest: string) {
    if t == End then White(r) && rest == ""
    else
      exists g: nat, h: nat ::
        && FirstAt(r, g, t) && g + Size(t) <= h <= |r| && rest == r[h..]
        && White(r[g + Size(t)..h]) && (h < |r| ==> !IsBlank(r[h]))
  }

  lemma TokenTakes(r: string)
    ensures Takes(r, NextToken(r).0, NextToken(r).1)
  {
    hide NextToken, White, FirstAt, IsBlank;
    var (t, rest) := NextToken(r);
    if t == End {
      NoToken(r);
    } else {
      var g, m := TokenRest(r);
      var h := SkipFrom(r, m);
    }
  }

  lemma NoToken(r: string)
    requires NextToken(r).0 == End
    ensures White(r) && NextToken(r).1 == ""
  {
    hide SkipSpace;
    WhiteIsNone(r);
    SkipNone("");
  }

  lemma TokenRest(r: string) returns (g: nat, m: nat)
    requires NextToken(r).0 != End
    ensures FirstAt(r, g, NextToken(r).0) && m == g + Size(NextToken(r).0) <= |r|
    ensures NextToken(r).1 == SkipSpace(r[m..])
  {
    hide SkipSpace, TokenOf;
    var t := NextToken(r).0;
    g := FirstThere(r);
    m := g + Size(t);
    BeginsOnce(r[g..], t);
    SkipsTo(r, g);
    TokenBegins(r[g..]);
    assert r[g..][Size(t)..] == r[m..];
  }

  lemma SkipFrom(r: string, m: nat) returns (h: nat)
    requires m <= |r|
    ensures m <= h <= |r| && SkipSpace(r[m..]) == r[h..] && White(r[m..h]) && (h < |r| ==> !IsBlank(r[h]))
  {
    hide SkipSpace, White;
    var tail := r[m..];
    SkipIs(tail);
    var k := |tail| - |SkipSpace(tail)|;
    h := m + k;
    assert tail[..k] == r[m..h] && tail[k..] == r[h..];
  }

  /** The scanner finds the tokens of a line, and no others: a line is tokens and blanks in one way only. */
  lemma {:induction false} LexesIff(s: string, toks: seq<Token>)
    ensures Lexes(s, toks) <==> toks == Tokens(s)
    decreases |toks|
  {
    hide SkipSpace, TokenOf, White, Begins;
    if toks == [] {
      WhiteIsNone(s);
    } else {
      if Lexes(s, toks) {
        var g: nat :| FirstAt(s, g, toks[0]) && Lexes(s[g + Size(toks[0])..], toks[1..]);
        FirstIs(s, g, toks[0]);
        LexesIff(s[g + Size(toks[0])..], toks[1..]);
        assert toks == [toks[0]] + toks[1..];
      }
      if toks == Tokens(s) {
        var g := FirstThere(s);
        FirstIs(s, g, toks[0]);
        LexesIff(s[g + Size(toks[0])..], toks[1..]);
      }
    }
  }

  // ---- Lines ----

  /** A word or a redirection of a simple command. */
  datatype Item = Arg(word: Word) | File(mode: Mode, word: Word)

  /** A simple command, or a line in parentheses with redirections after it; such units with "|" between them; and
      those with ";" or "&" between them, and perhaps "&" at the end. */
  datatype Unit = Simple(items: seq<Item>) | Block(body: Script, items: seq<Item>)
  datatype Chain = One(unit: Unit) | Join(unit: Unit, rest: Chain)
  datatype Script =
    | Only(chain: Chain)
    | Then(chain: Chain, rest: Script)
    | Amp(chain: Chain)
    | AmpThen(chain: Chain, rest: Script)
    | AmpSemi(chain: Chain, rest: Script)

  function SignOf(m: Mode): Token {
    match m
    case Input => Symbol('<')
    case Output => Symbol('>')
    case Append => Twice
  }

  /** How it is written, in tokens. */
  function ItemYield(item: Item): seq<Token> {
    match item
    case Arg(w) => [Text(w)]
    case File(m, w) => [SignOf(m), Text(w)]
  }

  function ItemsYield(items: seq<Item>): seq<Token>
    decreases |items|
  {
    if items == [] then [] else ItemYield(items[0]) + ItemsYield(items[1..])
  }

  function UnitYield(u: Unit): seq<Token> {
    match u
    case Simple(items) => ItemsYield(items)
    case Block(body, items) => [Symbol('(')] + ScriptYield(body) + [Symbol(')')] + ItemsYield(items)
  }

  function ChainYield(c: Chain): seq<Token> {
    match c
    case One(u) => UnitYield(u)
    case Join(u, rest) => UnitYield(u) + [Symbol('|')] + ChainYield(rest)
  }

  function ScriptYield(l: Script): seq<Token> {
    match l
    case Only(c) => ChainYield(c)
    case Then(c, rest) => ChainYield(c) + [Symbol(';')] + ScriptYield(rest)
    case Amp(c) => ChainYield(c) + [Symbol('&')]
    case AmpThen(c, rest) => ChainYield(c) + [Symbol('&')] + ScriptYield(rest)
    case AmpSemi(c, rest) => ChainYield(c) + [Symbol('&')] + [Symbol(';')] + ScriptYield(rest)
  }

  /** At most nine words to a simple command, only redirections after a block, and "&" before another line only if that
      begins with something other than ";". */
  predicate UnitOk(u: Unit) {
    match u
    case Simple(items) => |ArgsOf(items)| <= 9
    case Block(body, items) => ScriptOk(body) && ArgsOf(items) == []
  }

  predicate ChainOk(c: Chain) {
    match c
    case One(u) => UnitOk(u)
    case Join(u, rest) => UnitOk(u) && ChainOk(rest)
  }

  predicate ScriptOk(l: Script) {
    match l
    case Only(c) => ChainOk(c)
    case Then(c, rest) => ChainOk(c) && ScriptOk(rest)
    case Amp(c) => ChainOk(c)
    case AmpThen(c, rest) =>
      ChainOk(c) && ScriptOk(rest) && ScriptYield(rest) != [] && ScriptYield(rest)[0] != Symbol(';')
    case AmpSemi(c, rest) => ChainOk(c) && ScriptOk(rest)
  }

  /** What it means. The words are the arguments in order, and the redirections go round them in order. */
  function ArgsOf(items: seq<Item>): seq<Word>
    decreases |items|
  {
    if items == [] then [] else ArgPart(items[0]) + ArgsOf(items[1..])
  }

  function RedirsOf(items: seq<Item>): seq<(Mode, Word)>
    decreases |items|
  {
    if items == [] then [] else FilePart(items[0]) + RedirsOf(items[1..])
  }

  function ArgPart(item: Item): seq<Word> {
    if item.Arg? then [item.word] else []
  }

  function FilePart(item: Item): seq<(Mode, Word)> {
    if item.File? then [(item.mode, item.word)] else []
  }

  function Around(c: Cmd<Word>, files: seq<(Mode, Word)>): Cmd<Word>
    decreases |files|
  {
    if files == [] then c
    else var last := files[|files| - 1]; Redir(Around(c, files[..|files| - 1]), last.0, last.1)
  }

  function UnitCmd(u: Unit): Cmd<Word> {
    match u
    case Simple(items) => Around(Exec(ArgsOf(items)), RedirsOf(items))
    case Block(body, items) => Around(ScriptCmd(body), RedirsOf(items))
  }

  function ChainCmd(c: Chain): Cmd<Word> {
    match c
    case One(u) => UnitCmd(u)
    case Join(u, rest) => Piped(UnitCmd(u), ChainCmd(rest))
  }

  function ScriptCmd(l: Script): Cmd<Word> {
    match l
    case Only(c) => ChainCmd(c)
    case Then(c, rest) => List(ChainCmd(c), ScriptCmd(rest))
    case Amp(c) => Back(ChainCmd(c))
    case AmpThen(c, rest) => List(Back(ChainCmd(c)), ScriptCmd(rest))
    case AmpSemi(c, rest) => List(Back(ChainCmd(c)), ScriptCmd(rest))
  }

  /** The line is this script. */
  ghost predicate Writes(s: string, l: Script) {
    ScriptOk(l) && Lexes(s, ScriptYield(l))
  }

  // ---- What the parser sees of a line is its tokens ----

  lemma NextIs(r: string)
    ensures NextToken(r).0 == End <==> Tokens(r) == []
    ensures Tokens(r) != [] ==> Tokens(r) == [NextToken(r).0] + Tokens(NextToken(r).1)
  {
    hide NextToken;
  }

  lemma NextRead(r: string, x: Token, rest: seq<Token>)
    requires Tokens(r) == [x] + rest
    ensures NextToken(r).0 == x && Tokens(NextToken(r).1) == rest
  {
    hide NextToken, Tokens;
    NextIs(r);
    Headed(x, rest);
    Headed(NextToken(r).0, Tokens(NextToken(r).1));
  }

  lemma Headed<T>(x: T, rest: seq<T>)
    ensures ([x] + rest)[0] == x && ([x] + rest)[1..] == rest
  {
  }

  lemma Regroup<T>(a: seq<T>, b: seq<T>, c: seq<T>)
    ensures a + (b + c) == a + b + c
  {
  }

  /** The first character tells the first token. */
  lemma FirstChar(r: string)
    ensures var t := SkipSpace(r);
            if |t| == 0 then Tokens(r) == []
            else
              && Tokens(r) != []
              && (IsSymbol(t[0]) && t[0] != '>' <==> Tokens(r)[0] == Symbol(t[0]) && t[0] != '>')
              && (t[0] == '>' <==> Tokens(r)[0] == Twice || Tokens(r)[0] == Symbol('>'))
              && (Tokens(r)[0].Symbol? ==> Tokens(r)[0].c == t[0])
  {
    hide SkipSpace, WordLength;
  }

  predicate HeadIn(toks: seq<Token>, chars: string) {
    toks != [] && toks[0].Symbol? && toks[0].c in chars
  }

  predicate IsSign(t: Token) {
    t == Symbol('<') || t == Symbol('>') || t == Twice
  }

  lemma PeekHead(r: string, chars: string)
    requires forall i :: 0 <= i < |chars| ==> IsSymbol(chars[i]) && chars[i] != '>'
    ensures Peek(r, chars) <==> HeadIn(Tokens(r), chars)
  {
    hide SkipSpace, Tokens;
    FirstChar(r);
  }

  lemma PeekSign(r: string)
    ensures Peek(r, "<>") <==> Tokens(r) != [] && IsSign(Tokens(r)[0])
  {
    hide SkipSpace, Tokens;
    FirstChar(r);
  }

  // ---- Every line that parses is a script ----

  lemma {:induction false} AroundMore(c: Cmd<Word>, files: seq<(Mode, Word)>)
    ensures Wrap(c, files) == Around(c, files)
    decreases |files|
  {
    if files != [] {
      AroundMore(Redir(c, files[0].0, files[0].1), files[1..]);
      AroundFirst(c, files);
    }
  }

  /** The first redirection is the innermost. */
  lemma {:induction false} AroundFirst(c: Cmd<Word>, files: seq<(Mode, Word)>)
    requires files != []
    ensures Around(c, files) == Around(Redir(c, files[0].0, files[0].1), files[1..])
    decreases |files|
  {
    var n := |files| - 1;
    if n > 0 {
      AroundFirst(c, files[..n]);
      assert files[..n][1..] == files[1..][..n - 1];
    } else {
      assert files[..0] == [];
    }
  }

  lemma {:induction false} ItemsJoin(a: seq<Item>, b: seq<Item>)
    ensures ItemsYield(a + b) == ItemsYield(a) + ItemsYield(b)
    ensures ArgsOf(a + b) == ArgsOf(a) + ArgsOf(b) && RedirsOf(a + b) == RedirsOf(a) + RedirsOf(b)
    decreases |a|
  {
    hide ItemsYield, ArgsOf, RedirsOf, ItemYield, ArgPart, FilePart;
    NoItems();
    if a == [] {
      assert a + b == b;
      NoneFirst(ItemsYield(b));
      NoneFirst(ArgsOf(b));
      NoneFirst(RedirsOf(b));
    } else {
      var x, rest := a[0], a[1..];
      ItemsJoin(rest, b);
      assert (a + b)[0] == x && (a + b)[1..] == rest + b;
      ItemsAre(a);
      ItemsAre(a + b);
      Regroup(ItemYield(x), ItemsYield(rest), ItemsYield(b));
      Regroup(ArgPart(x), ArgsOf(rest), ArgsOf(b));
      Regroup(FilePart(x), RedirsOf(rest), RedirsOf(b));
    }
  }

  lemma NoItems()
    ensures ArgsOf([]) == [] && RedirsOf([]) == [] && ItemsYield([]) == []
  {
  }

  lemma NoneFirst<T>(s: seq<T>)
    ensures [] + s == s && s + [] == s
  {
  }

  /** The first item and the others. */
  lemma ItemsAre(items: seq<Item>)
    requires items != []
    ensures ItemsYield(items) == ItemYield(items[0]) + ItemsYield(items[1..])
    ensures ArgsOf(items) == ArgPart(items[0]) + ArgsOf(items[1..])
    ensures RedirsOf(items) == FilePart(items[0]) + RedirsOf(items[1..])
  {
  }

  function AsItems(list: seq<(Mode, Word)>): (r: seq<Item>)
    ensures |r| == |list| && forall i :: 0 <= i < |list| ==> r[i] == File(list[i].0, list[i].1)
  {
    seq(|list|, i requires 0 <= i < |list| => File(list[i].0, list[i].1))
  }

  lemma {:induction false} FilesAre(list: seq<(Mode, Word)>)
    ensures ArgsOf(AsItems(list)) == [] && RedirsOf(AsItems(list)) == list
    decreases |list|
  {
    if list != [] {
      FilesAre(list[1..]);
      assert AsItems(list)[1..] == AsItems(list[1..]);
    }
  }

  lemma {:induction false} RedirsSound(r: string)
    requires ParseRedirs(r).Redirs?
    ensures var p := ParseRedirs(r);
            && Tokens(r) == ItemsYield(AsItems(p.list)) + Tokens(p.rest)
            && (Tokens(p.rest) == [] || !IsSign(Tokens(p.rest)[0]))
    decreases |r|
  {
    hide SkipSpace, NextToken, Tokens, ItemsYield, AsItems;
    var p := ParseRedirs(r);
    PeekSign(r);
    if !Peek(r, "<>") {
      TokensSkip(r);
      NoItems();
      assert AsItems([]) == [];
      NoneFirst(Tokens(r));
    } else {
      var (sign, r1) := NextToken(r);
      var (file, r2) := NextToken(r1);
      NextIs(r);
      NextIs(r1);
      Headed(sign, Tokens(r1));
      RedirsSound(r2);
      FileFirst(p.list);
      assert SignOf(ModeOf(sign)) == sign;
      assert p.list[1..] == ParseRedirs(r2).list;
      Regroup([sign], [file], Tokens(r2));
      Regroup([sign, file], ItemsYield(AsItems(p.list[1..])), Tokens(p.rest));
    }
  }

  lemma FileFirst(list: seq<(Mode, Word)>)
    requires list != []
    ensures ItemsYield(AsItems(list)) == [SignOf(list[0].0), Text(list[0].1)] + ItemsYield(AsItems(list[1..]))
  {
    assert AsItems(list)[1..] == AsItems(list[1..]);
  }

  predicate Stops(toks: seq<Token>) {
    toks == [] || HeadIn(toks, "|)&;")
  }

  lemma {:induction false} ArgsSound(args: seq<Word>, list: seq<(Mode, Word)>, r: string) returns (items: seq<Item>)
    requires ParseArgs(args, list, r).Ok? && |args| <= 9
    ensures var p := ParseArgs(args, list, r);
            && p.cmd == Wrap(Exec(args + ArgsOf(items)), list + RedirsOf(items)) && |args + ArgsOf(items)| <= 9
            && Tokens(r) == ItemsYield(items) + Tokens(p.rest) && Stops(Tokens(p.rest))
    decreases |r|
  {
    hide SkipSpace, NextToken, Tokens, Wrap, ParseRedirs, ArgsOf, RedirsOf, ItemsYield, AsItems;
    PeekHead(r, "|)&;");
    NextIs(r);
    TokensSkip(r);
    NoItems();
    var (token, r1) := NextToken(r);
    items := [];
    if Peek(r, "|)&;") {
      assert args + [] == args && list + [] == list;
    } else if token == End {
      assert args + [] == args && list + [] == list;
      NextIs(r1);
      assert Tokens(r1) == [] by { AfterEnd(r); }
    } else {
      var more := ParseRedirs(r1).list;
      var rest := ParseRedirs(r1).rest;
      RedirsSound(r1);
      var later := ArgsSound(args + [token.word], list + more, rest);
      items := [Arg(token.word)] + AsItems(more) + later;
      ArgThen(token.word, more, later);
      Regroup(args, [token.word], ArgsOf(later));
      Regroup(list, more, RedirsOf(later));
      Between([token], ItemsYield(AsItems(more)), ItemsYield(later), Tokens(ParseArgs(args, list, r).rest));
    }
  }

  /** A word, the redirections after it, and what follows. */
  lemma ArgThen(w: Word, files: seq<(Mode, Word)>, later: seq<Item>)
    ensures var items := [Arg(w)] + AsItems(files) + later;
            && ArgsOf(items) == [w] + ArgsOf(later) && RedirsOf(items) == files + RedirsOf(later)
            && ItemsYield(items) == [Text(w)] + ItemsYield(AsItems(files)) + ItemsYield(later)
  {
    hide ArgsOf, RedirsOf, ItemsYield, AsItems;
    FilesAre(files);
    ItemsJoin([Arg(w)] + AsItems(files), later);
    ItemsJoin([Arg(w)], AsItems(files));
    OneArg(w);
  }

  lemma AfterEnd(r: string)
    requires NextToken(r).0 == End
    ensures Tokens(NextToken(r).1) == []
  {
  }

  lemma OneArg(w: Word)
    ensures ArgsOf([Arg(w)]) == [w] && RedirsOf([Arg(w)]) == [] && ItemsYield([Arg(w)]) == [Text(w)]
  {
    assert [Arg(w)][1..] == [];
  }

  /** What is left when a command is done, if that was nothing at all: the end of the line or of a block. */
  predicate Nothing(c: Chain) {
    c.One? && c.unit.Simple? && c.unit.items == []
  }

  lemma ExecSound(r: string) returns (u: Unit)
    requires ParseExec(r).Ok?
    ensures var p := ParseExec(r);
            && UnitOk(u) && UnitCmd(u) == p.cmd && Tokens(r) == UnitYield(u) + Tokens(p.rest)
            && (u.Simple? ==> Stops(Tokens(p.rest)))
    decreases |r|, 1
  {
    hide ParseExec, Tokens, UnitOk, UnitCmd, UnitYield, Peek, Stops;
    if Peek(r, "(") {
      u := BlockSound(r);
    } else {
      u := SimpleSound(r);
    }
  }

  lemma BlockSound(r: string) returns (u: Unit)
    requires ParseExec(r).Ok? && Peek(r, "(")
    ensures var p := ParseExec(r);
            u.Block? && UnitOk(u) && UnitCmd(u) == p.cmd && Tokens(r) == UnitYield(u) + Tokens(p.rest)
    decreases |r|, 0
  {
    hide SkipSpace, NextToken, Tokens, Wrap, ParseRedirs, ParseArgs, ParseLine, Around, ArgsOf, RedirsOf, ItemsYield;
    hide AsItems, ScriptCmd, ScriptYield, ScriptOk;
    PeekHead(r, "(");
    NextIs(r);
    var r1 := NextToken(r).1;
    assert |r1| < |r|;
    var body := LineSound(r1);
    var rest := ParseLine(r1).rest;
    PeekHead(rest, ")");
    NextIs(rest);
    var r2 := NextToken(rest).1;
    RedirsSound(r2);
    var files := ParseRedirs(r2).list;
    FilesAre(files);
    AroundMore(ScriptCmd(body), files);
    u := Block(body, AsItems(files));
    Headed(NextToken(r).0, Tokens(r1));
    Headed(NextToken(rest).0, Tokens(r2));
    var toks, tail, more := ScriptYield(body), ItemsYield(AsItems(files)), Tokens(ParseRedirs(r2).rest);
    Between([Symbol('(')], toks, [Symbol(')')], tail + more);
    Regroup([Symbol('(')] + toks + [Symbol(')')], tail, more);
  }

  lemma SimpleSound(r: string) returns (u: Unit)
    requires ParseExec(r).Ok? && !Peek(r, "(")
    ensures var p := ParseExec(r);
            && UnitOk(u) && UnitCmd(u) == p.cmd && Tokens(r) == UnitYield(u) + Tokens(p.rest)
            && u.Simple? && Stops(Tokens(p.rest))
  {
    hide SkipSpace, NextToken, Tokens, Wrap, ParseRedirs, ParseArgs, ParseLine, Around, ArgsOf, RedirsOf, ItemsYield;
    hide AsItems;
    RedirsSound(r);
    var files := ParseRedirs(r).list;
    var items := ArgsSound([], files, ParseRedirs(r).rest);
    FilesAre(files);
    ItemsJoin(AsItems(files), items);
    u := Simple(AsItems(files) + items);
    NoneFirst(ArgsOf(items));
    AroundMore(Exec(ArgsOf(items)), files + RedirsOf(items));
    Regroup(ItemsYield(AsItems(files)), ItemsYield(items), Tokens(ParseExec(r).rest));
  }

  lemma PipeSound(r: string) returns (c: Chain)
    requires ParsePipe(r).Ok?
    ensures var p := ParsePipe(r);
            && ChainOk(c) && ChainCmd(c) == p.cmd && Tokens(r) == ChainYield(c) + Tokens(p.rest)
            && !HeadIn(Tokens(p.rest), "|") && (Nothing(c) ==> Stops(Tokens(p.rest)))
    decreases |r|, 2
  {
    hide SkipSpace, NextToken, Tokens, ParseExec, UnitYield, UnitOk, UnitCmd;
    var u := ExecSound(r);
    var rest := ParseExec(r).rest;
    PeekHead(rest, "|");
    TokensSkip(rest);
    NextIs(rest);
    if Peek(rest, "|") {
      var r1 := NextToken(rest).1;
      Headed(NextToken(rest).0, Tokens(r1));
      var more := PipeSound(r1);
      c := Join(u, more);
      Between(UnitYield(u), [Symbol('|')], ChainYield(more), Tokens(ParsePipe(r1).rest));
    } else {
      c := One(u);
    }
  }

  lemma Between<T>(a: seq<T>, b: seq<T>, c: seq<T>, d: seq<T>)
    ensures a + (b + (c + d)) == a + b + c + d
  {
    Regroup(b, c, d);
    Regroup(a, b + c, d);
    Regroup(a, b, c);
  }

  lemma AmpsSound(c: Chain, r: string) returns (l: Script)
    requires ChainOk(c) && ParseAmps(ChainCmd(c), r).Ok? && !HeadIn(Tokens(r), "|") && (Nothing(c) ==> Stops(Tokens(r)))
    ensures var p := ParseAmps(ChainCmd(c), r);
            && ScriptOk(l) && ScriptCmd(l) == p.cmd && ChainYield(c) + Tokens(r) == ScriptYield(l) + Tokens(p.rest)
            && (ScriptYield(l) == [] ==> Tokens(p.rest) == [] || Tokens(p.rest)[0] == Symbol(')'))
    decreases |r|, 3
  {
    hide SkipSpace, NextToken, Tokens, ParseLine, ParsePipe, ChainYield, ChainCmd, ChainOk;
    PeekHead(r, "&");
    PeekHead(r, ";");
    NextIs(r);
    TokensSkip(r);
    var r1 := NextToken(r).1;
    if Peek(r, "&") {
      Headed(NextToken(r).0, Tokens(r1));
      l := AmpSound(c, r);
    } else if Peek(r, ";") {
      Headed(NextToken(r).0, Tokens(r1));
      var more := LineSound(r1);
      l := Then(c, more);
      Between(ChainYield(c), [Symbol(';')], ScriptYield(more), Tokens(ParseLine(r1).rest));
    } else {
      l := Only(c);
      if ChainYield(c) == [] {
        NothingIs(c);
      }
    }
  }

  lemma NothingIs(c: Chain)
    requires ChainYield(c) == []
    ensures Nothing(c)
  {
    assert c.One? && c.unit.Simple? && c.unit.items != [] ==> |ItemsYield(c.unit.items)| > 0;
  }

  lemma AmpSound(c: Chain, r: string) returns (l: Script)
    requires ChainOk(c) && ParseAmps(ChainCmd(c), r).Ok? && Peek(r, "&")
    requires Tokens(r) == [Symbol('&')] + Tokens(NextToken(r).1)
    ensures var p := ParseAmps(ChainCmd(c), r);
            && ScriptOk(l) && ScriptCmd(l) == p.cmd && ChainYield(c) + Tokens(r) == ScriptYield(l) + Tokens(p.rest)
            && ScriptYield(l) != []
    decreases |r|, 2
  {
    hide SkipSpace, NextToken, Tokens, ParseLine, ParsePipe, ChainYield, ChainCmd, ChainOk, ParseAmps;
    var r1 := NextToken(r).1;
    PeekHead(r, "&");
    PeekHead(r1, ";)");
    PeekHead(r1, ";");
    NextIs(r1);
    assert |r1| == 0 <==> Tokens(r1) == [] by { RestIsEmpty(r); }
    if Peek(r1, ";)") || |r1| == 0 {
      AmpsLast(ChainCmd(c), r);
      if Peek(r1, ";") {
        var r2 := NextToken(r1).1;
        Headed(NextToken(r1).0, Tokens(r2));
        SemiStep(Back(ChainCmd(c)), r1);
        var more := LineSound(r2);
        l := AmpSemi(c, more);
        var rest := Tokens(ParseLine(r2).rest);
        Between([Symbol('&')], [Symbol(';')], ScriptYield(more), rest);
        Regroup(ChainYield(c), [Symbol('&')] + [Symbol(';')] + ScriptYield(more), rest);
        Between(ChainYield(c), [Symbol('&')], [Symbol(';')], ScriptYield(more));
        Regroup([Symbol('&')], [Symbol(';')], ScriptYield(more));
      } else {
        l := Amp(c);
        AmpsEnd(Back(ChainCmd(c)), r1);
        Regroup(ChainYield(c), [Symbol('&')], Tokens(r1));
      }
    } else {
      AndStep(ChainCmd(c), r);
      var more := LineSound(r1);
      l := AmpThen(c, more);
      assert ScriptYield(more) != [];
      assert ScriptYield(more)[0] == Tokens(r1)[0];
      Between(ChainYield(c), [Symbol('&')], ScriptYield(more), Tokens(ParseLine(r1).rest));
    }
  }

  lemma SemiStep(c: Cmd<Word>, r: string)
    requires HeadIn(Tokens(r), ";")
    ensures var p := ParseLine(NextToken(r).1);
            ParseAmps(c, r) == if p.Ok? then Ok(List(c, p.cmd), p.rest) else p
  {
    hide SkipSpace, NextToken, Tokens, ParseLine;
    PeekHead(r, "&");
    PeekHead(r, ";");
  }

  lemma AndStep(c: Cmd<Word>, r: string)
    requires HeadIn(Tokens(r), "&")
    requires var t := Tokens(NextToken(r).1); t != [] && !HeadIn(t, ";)")
    ensures var p := ParseLine(NextToken(r).1);
            ParseAmps(c, r) == if p.Ok? then Ok(List(Back(c), p.cmd), p.rest) else p
  {
    hide SkipSpace, NextToken, Tokens, ParseLine;
    PeekHead(r, "&");
    PeekHead(NextToken(r).1, ";)");
    RestIsEmpty(r);
  }

  /** gettoken() leaves no blanks in front. */
  lemma RestIsEmpty(r: string)
    ensures |NextToken(r).1| == 0 <==> Tokens(NextToken(r).1) == []
  {
    hide SkipSpace, WordLength;
    var r1 := NextToken(r).1;
    SkipNone(r1);
    FirstChar(r1);
  }

  lemma LineSound(r: string) returns (l: Script)
    requires ParseLine(r).Ok?
    ensures var p := ParseLine(r);
            && ScriptOk(l) && ScriptCmd(l) == p.cmd && Tokens(r) == ScriptYield(l) + Tokens(p.rest)
            && (ScriptYield(l) == [] ==> Tokens(p.rest) == [] || Tokens(p.rest)[0] == Symbol(')'))
    decreases |r|, 4
  {
    hide Tokens, ParsePipe, ParseAmps;
    var c := PipeSound(r);
    l := AmpsSound(c, ParsePipe(r).rest);
  }

  // ---- Every script is parsed, for what it means ----

  /** The redirections in front. */
  function Lead(items: seq<Item>): (n: nat)
    ensures n <= |items| && (n < |items| ==> items[n].Arg?)
    decreases |items|
  {
    if items == [] || items[0].Arg? then 0 else 1 + Lead(items[1..])
  }

  lemma {:induction false} LeadFiles(items: seq<Item>)
    ensures var n := Lead(items);
            && ArgsOf(items[..n]) == [] && ArgsOf(items[n..]) == ArgsOf(items)
            && RedirsOf(items) == RedirsOf(items[..n]) + RedirsOf(items[n..])
    decreases |items|
  {
    var n := Lead(items);
    assert items == items[..n] + items[n..];
    ItemsJoin(items[..n], items[n..]);
    assert ArgsOf(items[..n]) == [] by { NoArgs(items); }
  }

  lemma {:induction false} NoArgs(items: seq<Item>)
    ensures ArgsOf(items[..Lead(items)]) == []
    decreases |items|
  {
    if items != [] && items[0].File? {
      NoArgs(items[1..]);
      assert items[..Lead(items)][1..] == items[1..][..Lead(items[1..])];
    }
  }

  lemma {:induction false} RedirsRead(items: seq<Item>, r: string, more: seq<Token>)
    requires Tokens(r) == ItemsYield(items) + more && Stops(more)
    ensures var n, p := Lead(items), ParseRedirs(r);
            p.Redirs? && p.list == RedirsOf(items[..n]) && Tokens(p.rest) == ItemsYield(items[n..]) + more
    decreases |items|
  {
    hide SkipSpace, NextToken, Tokens, ItemsYield, RedirsOf, ParseRedirs;
    NoItems();
    var n := Lead(items);
    if items == [] || items[0].Arg? {
      assert items[..n] == [] && items[n..] == items;
      assert Tokens(r) == [] || !IsSign(Tokens(r)[0]) by { NotSign(items, more); }
      NoRedir(r);
    } else {
      var item, later := items[0], items[1..];
      ItemsAre(items);
      var r1 := NextToken(r).1;
      var r2 := NextToken(r1).1;
      var rest := ItemsYield(later) + more;
      Between([SignOf(item.mode)], [Text(item.word)], ItemsYield(later), more);
      Regroup([SignOf(item.mode)], [Text(item.word)], rest);
      NextRead(r, SignOf(item.mode), [Text(item.word)] + rest);
      NextRead(r1, Text(item.word), rest);
      RedirsRead(later, r2, more);
      OneRedir(r, item.mode, item.word);
      assert items[..n][0] == item && items[..n][1..] == later[..n - 1] && items[n..] == later[n - 1..];
      ItemsAre(items[..n]);
    }
  }

  lemma NotSign(items: seq<Item>, more: seq<Token>)
    requires Stops(more) && (items == [] || items[0].Arg?)
    ensures var t := ItemsYield(items) + more; t == [] || !IsSign(t[0])
  {
  }

  lemma NoRedir(r: string)
    requires Tokens(r) == [] || !IsSign(Tokens(r)[0])
    ensures var p := ParseRedirs(r); p.Redirs? && p.list == [] && Tokens(p.rest) == Tokens(r)
  {
    hide SkipSpace, NextToken, Tokens;
    PeekSign(r);
    TokensSkip(r);
  }

  lemma OneRedir(r: string, m: Mode, w: Word)
    requires NextToken(r).0 == SignOf(m) && NextToken(NextToken(r).1).0 == Text(w)
    requires ParseRedirs(NextToken(NextToken(r).1).1).Redirs?
    ensures var p := ParseRedirs(NextToken(NextToken(r).1).1);
            ParseRedirs(r) == Redirs([(m, w)] + p.list, p.rest)
  {
    hide SkipSpace, NextToken, Tokens;
    NextIs(r);
    Headed(NextToken(r).0, Tokens(NextToken(r).1));
    PeekSign(r);
  }

  lemma {:induction false} ArgsRead(args: seq<Word>, list: seq<(Mode, Word)>, items: seq<Item>, r: string,
                                    more: seq<Token>)
    requires Tokens(r) == ItemsYield(items) + more && Stops(more) && |args + ArgsOf(items)| <= 9
    requires items == [] || items[0].Arg?
    ensures Gives(ParseArgs(args, list, r), Wrap(Exec(args + ArgsOf(items)), list + RedirsOf(items)), more)
    decreases |items|
  {
    hide SkipSpace, NextToken, Tokens, Wrap, ParseRedirs, ParseArgs, ItemsYield, RedirsOf, ArgsOf;
    NoItems();
    NoneFirst(args);
    NoneFirst(list);
    if items == [] {
      NoneFirst(more);
      ArgsDone(args, list, r);
    } else {
      var w, later := items[0].word, items[1..];
      var r1, n := NextToken(r).1, Lead(items[1..]);
      ItemsAre(items);
      Regroup([Text(w)], ItemsYield(later), more);
      NextRead(r, Text(w), ItemsYield(later) + more);
      RedirsRead(later, r1, more);
      LeadFiles(later);
      var rest, files := ParseRedirs(r1).rest, RedirsOf(later[..n]);
      Regroup(args, [w], ArgsOf(later[n..]));
      NoneFirst(RedirsOf(later));
      Regroup(list, files, RedirsOf(later[n..]));
      ArgsRead(args + [w], list + files, later[n..], rest, more);
      Headed(Text(w), ItemsYield(later) + more);
      ArgsNext(args, list, r);
    }
  }

  ghost predicate Gives(p: Result, c: Cmd<Word>, more: seq<Token>) {
    p.Ok? && p.cmd == c && Tokens(p.rest) == more
  }

  lemma ArgsDone(args: seq<Word>, list: seq<(Mode, Word)>, r: string)
    requires Stops(Tokens(r))
    ensures var p := ParseArgs(args, list, r); p.Ok? && p.cmd == Wrap(Exec(args), list) && Tokens(p.rest) == Tokens(r)
  {
    hide SkipSpace, NextToken, Tokens, Wrap, ParseRedirs;
    PeekHead(r, "|)&;");
    NextIs(r);
    TokensSkip(r);
    if Tokens(r) == [] {
      AfterEnd(r);
    }
  }

  lemma ArgsNext(args: seq<Word>, list: seq<(Mode, Word)>, r: string)
    requires Tokens(r) != [] && Tokens(r)[0].Text? && |args| < 9 && ParseRedirs(NextToken(r).1).Redirs?
    ensures var p := ParseRedirs(NextToken(r).1);
            ParseArgs(args, list, r) == ParseArgs(args + [Tokens(r)[0].word], list + p.list, p.rest)
  {
    hide SkipSpace, NextToken, Tokens, Wrap, ParseRedirs;
    PeekHead(r, "|)&;");
    NextIs(r);
  }

  lemma SimpleRead(items: seq<Item>, r: string, more: seq<Token>)
    requires Tokens(r) == ItemsYield(items) + more && Stops(more) && |ArgsOf(items)| <= 9
    ensures Gives(ParseExec(r), UnitCmd(Simple(items)), more)
  {
    hide SkipSpace, NextToken, Tokens, Wrap, ParseRedirs, ParseArgs, ParseLine, Around, ItemsYield, ArgsOf, RedirsOf;
    PeekHead(r, "(");
    assert !HeadIn(Tokens(r), "(") by { ItemsHead(items, more); }
    RedirsRead(items, r, more);
    LeadFiles(items);
    var n := Lead(items);
    var files := RedirsOf(items[..n]);
    NoneFirst(ArgsOf(items[n..]));
    ArgsRead([], files, items[n..], ParseRedirs(r).rest, more);
    AroundMore(Exec(ArgsOf(items)), RedirsOf(items));
  }

  lemma ItemsHead(items: seq<Item>, more: seq<Token>)
    requires Stops(more)
    ensures !HeadIn(ItemsYield(items) + more, "(")
  {
  }

  lemma UnitRead(u: Unit, r: string, more: seq<Token>)
    requires UnitOk(u) && Tokens(r) == UnitYield(u) + more && Stops(more)
    ensures Gives(ParseExec(r), UnitCmd(u), more)
    decreases u, 1
  {
    hide ParseExec, Tokens, Gives;
    match u
    case Simple(items) => SimpleRead(items, r, more);
    case Block(body, items) => BlockRead(body, items, r, more);
  }

  lemma BlockRead(body: Script, items: seq<Item>, r: string, more: seq<Token>)
    requires ScriptOk(body) && ArgsOf(items) == [] && Stops(more)
    requires Tokens(r) == [Symbol('(')] + ScriptYield(body) + [Symbol(')')] + ItemsYield(items) + more
    ensures Gives(ParseExec(r), UnitCmd(Block(body, items)), more)
    decreases body, 5
  {
    hide SkipSpace, NextToken, Tokens, Wrap, ParseRedirs, ParseArgs, ParseLine, Around, ScriptYield, ScriptOk;
    hide ItemsYield, ArgsOf, RedirsOf, ScriptCmd;
    PeekHead(r, "(");
    var toks, tail := ScriptYield(body), ItemsYield(items) + more;
    Regroup([Symbol('(')] + toks + [Symbol(')')], ItemsYield(items), more);
    Between([Symbol('(')], toks, [Symbol(')')], tail);
    var r1, after := NextToken(r).1, [Symbol(')')] + tail;
    Headed(Symbol('('), toks + after);
    Headed(Symbol(')'), tail);
    NextRead(r, Symbol('('), toks + after);
    ScriptRead(body, r1, after);
    var rest := ParseLine(r1).rest;
    PeekHead(rest, ")");
    NextRead(rest, Symbol(')'), tail);
    var r2 := NextToken(rest).1;
    RedirsRead(items, r2, more);
    assert Lead(items) == |items| by { AllFiles(items); }
    assert items[..|items|] == items && items[|items|..] == [];
    NoItems();
    NoneFirst(more);
    AroundMore(ScriptCmd(body), RedirsOf(items));
  }

  lemma {:induction false} AllFiles(items: seq<Item>)
    requires ArgsOf(items) == []
    ensures Lead(items) == |items|
    decreases |items|
  {
    if items != [] {
      AllFiles(items[1..]);
    }
  }

  lemma ChainRead(c: Chain, r: string, more: seq<Token>)
    requires ChainOk(c) && Tokens(r) == ChainYield(c) + more && Stops(more) && !HeadIn(more, "|")
    ensures Gives(ParsePipe(r), ChainCmd(c), more)
    decreases c, 0
  {
    hide SkipSpace, NextToken, Tokens, ParseExec, UnitYield, UnitOk, UnitCmd;
    match c
    case One(u) =>
      UnitRead(u, r, more);
      var rest := ParseExec(r).rest;
      PeekHead(rest, "|");
      TokensSkip(rest);
    case Join(u, later) =>
      var after := ChainYield(later) + more;
      Between(UnitYield(u), [Symbol('|')], ChainYield(later), more);
      Headed(Symbol('|'), after);
      UnitRead(u, r, [Symbol('|')] + after);
      var rest := ParseExec(r).rest;
      PeekHead(rest, "|");
      NextRead(rest, Symbol('|'), after);
      ChainRead(later, NextToken(rest).1, more);
  }

  predicate Ends(toks: seq<Token>) {
    toks == [] || toks[0] == Symbol(')')
  }

  /** Where a script begins with a token that is not ")". */
  lemma UnitHead(u: Unit)
    ensures UnitYield(u) != [] ==> !HeadIn(UnitYield(u), "|)&;")
  {
  }

  lemma ChainHead(c: Chain)
    ensures ChainYield(c) != [] ==> !HeadIn(ChainYield(c), ")&;")
  {
    UnitHead(c.unit);
  }

  lemma ScriptHead(l: Script)
    ensures ScriptYield(l) != [] ==> !HeadIn(ScriptYield(l), ")")
  {
    hide ChainYield;
    ChainHead(l.chain);
  }

  lemma ScriptRead(l: Script, r: string, more: seq<Token>)
    requires ScriptOk(l) && Tokens(r) == ScriptYield(l) + more && Ends(more)
    ensures Gives(ParseLine(r), ScriptCmd(l), more)
    decreases l, 1
  {
    hide SkipSpace, NextToken, Tokens, ParsePipe, ParseAmps, ChainYield, ChainCmd, ChainOk;
    var toks := ChainYield(l.chain);
    match l {
      case Only(c) =>
        ChainRead(c, r, more);
        AmpsEnd(ChainCmd(c), ParsePipe(r).rest);
      case Then(c, rest) =>
        var after := ScriptYield(rest) + more;
        Between(toks, [Symbol(';')], ScriptYield(rest), more);
        Headed(Symbol(';'), after);
        ChainRead(c, r, [Symbol(';')] + after);
        var r0 := ParsePipe(r).rest;
        NextRead(r0, Symbol(';'), after);
        ScriptRead(rest, NextToken(r0).1, more);
        SemiStep(ChainCmd(c), r0);
      case Amp(c) =>
        Regroup(toks, [Symbol('&')], more);
        Headed(Symbol('&'), more);
        ChainRead(c, r, [Symbol('&')] + more);
        var r0 := ParsePipe(r).rest;
        NextRead(r0, Symbol('&'), more);
        AmpsLast(ChainCmd(c), r0);
        AmpsEnd(Back(ChainCmd(c)), NextToken(r0).1);
      case AmpThen(c, rest) =>
        var after := ScriptYield(rest) + more;
        Between(toks, [Symbol('&')], ScriptYield(rest), more);
        Headed(Symbol('&'), after);
        ChainRead(c, r, [Symbol('&')] + after);
        var r0 := ParsePipe(r).rest;
        NextRead(r0, Symbol('&'), after);
        ScriptHead(rest);
        ScriptRead(rest, NextToken(r0).1, more);
        assert after[0] == ScriptYield(rest)[0];
        AndStep(ChainCmd(c), r0);
      case AmpSemi(_, _) => SemiRead(l, r, more);
    }
  }

  lemma SemiRead(l: Script, r: string, more: seq<Token>)
    requires ScriptOk(l) && l.AmpSemi? && Tokens(r) == ScriptYield(l) + more && Ends(more)
    ensures Gives(ParseLine(r), ScriptCmd(l), more)
    decreases l, 0
  {
    hide SkipSpace, NextToken, Tokens, ParsePipe, ParseAmps, ChainYield, ChainCmd, ChainOk;
    var c, rest := l.chain, l.rest;
    var toks, after := ChainYield(c), ScriptYield(rest) + more;
    Regroup(toks + [Symbol('&')] + [Symbol(';')], ScriptYield(rest), more);
    Between(toks, [Symbol('&')], [Symbol(';')], after);
    Headed(Symbol('&'), [Symbol(';')] + after);
    Headed(Symbol(';'), after);
    ChainRead(c, r, [Symbol('&')] + ([Symbol(';')] + after));
    var r0 := ParsePipe(r).rest;
    NextRead(r0, Symbol('&'), [Symbol(';')] + after);
    var r1 := NextToken(r0).1;
    NextRead(r1, Symbol(';'), after);
    ScriptRead(rest, NextToken(r1).1, more);
    AmpsLast(ChainCmd(c), r0);
    SemiStep(Back(ChainCmd(c)), r1);
  }

  lemma AmpsEnd(c: Cmd<Word>, r: string)
    requires Ends(Tokens(r))
    ensures Gives(ParseAmps(c, r), c, Tokens(r))
  {
    hide SkipSpace, NextToken, Tokens;
    PeekHead(r, "&");
    PeekHead(r, ";");
    TokensSkip(r);
  }

  lemma AmpsLast(c: Cmd<Word>, r: string)
    requires HeadIn(Tokens(r), "&")
    requires var t := Tokens(NextToken(r).1); t == [] || HeadIn(t, ";)")
    ensures ParseAmps(c, r) == ParseAmps(Back(c), NextToken(r).1)
  {
    hide SkipSpace, NextToken, Tokens, ParseLine;
    PeekHead(r, "&");
    PeekHead(NextToken(r).1, ";)");
    RestIsEmpty(r);
  }

  // ---- The parser accepts the language, and nothing else ----

  /** A line parses as a command if and only if it is a script with that meaning. */
  lemma ParsesIff(s: string, c: Cmd<Word>)
    ensures ParseCmd(s) == Ok(c, "") <==> exists l :: Writes(s, l) && ScriptCmd(l) == c
  {
    hide ParseLine, SkipSpace, Writes;
    if ParseCmd(s) == Ok(c, "") {
      var l := IsScript(s);
    }
    if l :| Writes(s, l) && ScriptCmd(l) == c {
      Accepts(s, l);
    }
  }

  lemma IsScript(s: string) returns (l: Script)
    requires ParseCmd(s).Ok?
    ensures Writes(s, l) && ScriptCmd(l) == ParseCmd(s).cmd
  {
    hide ParseLine, SkipSpace, Lexes;
    l := LineSound(s);
    FirstChar(ParseLine(s).rest);
    LexesIff(s, ScriptYield(l));
  }

  lemma Accepts(s: string, l: Script)
    requires Writes(s, l)
    ensures ParseCmd(s) == Ok(ScriptCmd(l), "")
  {
    hide ParseLine, SkipSpace, Lexes;
    LexesIff(s, ScriptYield(l));
    ScriptRead(l, s, []);
    FirstChar(ParseLine(s).rest);
  }

  // ---- What every line that parses is like ----

  /** The depth of parentheses at the end of a line that begins at depth `d`, or -1 once it has fallen below 0. */
  function Depth(s: string, d: int): int
    decreases |s|
  {
    if d < 0 then -1
    else if s == "" then d
    else Depth(s[1..], d + if s[0] == '(' then 1 else if s[0] == ')' then -1 else 0)
  }

  /** Every ")" closes a "(" before it, and none is left open. */
  predicate Balanced(s: string) {
    Depth(s, 0) == 0
  }

  function TokenDepth(toks: seq<Token>, d: int): int
    decreases |toks|
  {
    if d < 0 then -1
    else if toks == [] then d
    else TokenDepth(toks[1..], d + if toks[0] == Symbol('(') then 1 else if toks[0] == Symbol(')') then -1 else 0)
  }

  lemma {:induction false} DepthSkips(s: string, n: nat, d: int)
    requires n <= |s| && d >= 0 && forall i :: 0 <= i < n ==> s[i] != '(' && s[i] != ')'
    ensures Depth(s, d) == Depth(s[n..], d)
    decreases n
  {
    if n == 0 {
      assert s[0..] == s;
    } else {
      DepthSkips(s[1..], n - 1, d);
      assert s[1..][n - 1..] == s[n..];
    }
  }

  /** Only the parentheses among the tokens count. */
  lemma {:induction false} DepthIs(s: string, d: int)
    ensures Depth(s, d) == TokenDepth(Tokens(s), d)
    decreases |s|
  {
    hide Tokens, NextToken;
    NextIs(s);
    if d >= 0 {
      if Tokens(s) == [] {
        WhiteIsNone(s);
        DepthSkips(s, |s|, d);
        assert s[|s|..] == "";
      } else {
        var t := NextToken(s).0;
        var g := FirstThere(s);
        FirstIs(s, g, t);
        var rest := s[g + Size(t)..];
        DepthFirst(s, g, t, d);
        Headed(t, Tokens(rest));
        assert |rest| < |s|;
        DepthIs(rest, DepthAfter(t, d));
      }
    }
  }

  function DepthAfter(t: Token, d: int): int {
    d + if t == Symbol('(') then 1 else if t == Symbol(')') then -1 else 0
  }

  lemma DepthFirst(s: string, g: nat, t: Token, d: int)
    requires FirstAt(s, g, t) && d >= 0
    ensures Size(t) > 0 && Depth(s, d) == Depth(s[g + Size(t)..], DepthAfter(t, d))
  {
    var r, n := s[g..], Size(t);
    assert forall i :: 0 <= i < g ==> s[i] == s[..g][i];
    DepthSkips(s, g, d);
    assert r[n..] == s[g + n..];
    if t.Symbol? {
      assert r[1..] == s[g + 1..];
    } else {
      DepthSkips(r, n, d);
    }
  }

  lemma {:induction false} DepthJoin(a: seq<Token>, b: seq<Token>, d: int)
    requires TokenDepth(a, d) >= 0
    ensures TokenDepth(a + b, d) == TokenDepth(b, TokenDepth(a, d))
    decreases |a|
  {
    if a == [] {
      assert a + b == b;
    } else {
      assert (a + b)[1..] == a[1..] + b;
      DepthJoin(a[1..], b, d + if a[0] == Symbol('(') then 1 else if a[0] == Symbol(')') then -1 else 0);
    }
  }

  lemma {:induction false} ItemsLevel(items: seq<Item>, d: nat)
    ensures TokenDepth(ItemsYield(items), d) == d
    decreases |items|
  {
    if items != [] {
      ItemsLevel(items[1..], d);
      ItemLevel(items[0], d);
      DepthJoin(ItemYield(items[0]), ItemsYield(items[1..]), d);
    }
  }

  lemma ItemLevel(item: Item, d: nat)
    ensures TokenDepth(ItemYield(item), d) == d
  {
    var toks := ItemYield(item);
    if item.File? {
      assert toks[1..] == [Text(item.word)];
      OneLevel(Text(item.word), d);
    }
  }

  lemma OneLevel(t: Token, d: nat)
    ensures DepthAfter(t, d) >= 0 ==> TokenDepth([t], d) == DepthAfter(t, d)
  {
  }

  lemma UnitLevel(u: Unit, d: nat)
    ensures TokenDepth(UnitYield(u), d) == d
    decreases u
  {
    hide TokenDepth, ItemsYield, ScriptYield;
    match u
    case Simple(items) => ItemsLevel(items, d);
    case Block(body, items) =>
      OneLevel(Symbol('('), d);
      ScriptLevel(body, d + 1);
      OneLevel(Symbol(')'), d + 1);
      ItemsLevel(items, d);
      DepthJoin([Symbol('(')], ScriptYield(body), d);
      DepthJoin([Symbol('(')] + ScriptYield(body), [Symbol(')')], d);
      DepthJoin([Symbol('(')] + ScriptYield(body) + [Symbol(')')], ItemsYield(items), d);
  }

  lemma JoinLevel(a: seq<Token>, t: Token, b: seq<Token>, d: nat)
    requires TokenDepth(a, d) == d && TokenDepth(b, d) == d && DepthAfter(t, d) == d
    ensures TokenDepth(a + [t], d) == d && TokenDepth(a + [t] + b, d) == d
  {
    hide TokenDepth;
    OneLevel(t, d);
    DepthJoin(a, [t], d);
    DepthJoin(a + [t], b, d);
  }

  lemma ChainLevel(c: Chain, d: nat)
    ensures TokenDepth(ChainYield(c), d) == d
    decreases c
  {
    hide TokenDepth, UnitYield;
    UnitLevel(c.unit, d);
    if c.Join? {
      ChainLevel(c.rest, d);
      JoinLevel(UnitYield(c.unit), Symbol('|'), ChainYield(c.rest), d);
    }
  }

  lemma ScriptLevel(l: Script, d: nat)
    ensures TokenDepth(ScriptYield(l), d) == d
    decreases l
  {
    hide TokenDepth, ChainYield;
    var a := ChainYield(l.chain);
    ChainLevel(l.chain, d);
    match l {
      case Only(_) =>
      case Then(_, rest) =>
        ScriptLevel(rest, d);
        JoinLevel(a, Symbol(';'), ScriptYield(rest), d);
      case Amp(_) =>
        JoinLevel(a, Symbol('&'), a, d);
      case AmpThen(_, rest) =>
        ScriptLevel(rest, d);
        JoinLevel(a, Symbol('&'), ScriptYield(rest), d);
      case AmpSemi(_, rest) =>
        ScriptLevel(rest, d);
        JoinLevel(a, Symbol('&'), a, d);
        JoinLevel(a + [Symbol('&')], Symbol(';'), ScriptYield(rest), d);
    }
  }

  /** A line that parses has its parentheses balanced, so one with an unclosed "(" panics. */
  lemma ParsedIsBalanced(s: string)
    requires ParseCmd(s).Ok?
    ensures Balanced(s)
  {
    hide ParseCmd, Tokens, TokenDepth, Lexes, ScriptYield, Depth;
    var l := IsScript(s);
    LexesIff(s, ScriptYield(l));
    ScriptLevel(l, 0);
    DepthIs(s, 0);
  }

  /** A line of words alone parses if and only if there are at most nine of them, and then they are the arguments. */
  lemma WordsParse(s: string, words: seq<Word>)
    requires Lexes(s, WordTokens(words))
    ensures ParseCmd(s) == Ok(Exec(words), "") <==> |words| <= 9
    ensures ParseCmd(s).Ok? <==> |words| <= 9
  {
    hide ParseCmd, Lexes, Writes;
    WordItems(words);
    var l := Only(One(Simple(ArgItems(words))));
    OneCommand(ArgItems(words));
    if |words| <= 9 {
      assert Writes(s, l) by { WritesIs(s, l); }
      Accepts(s, l);
    }
    if ParseCmd(s).Ok? {
      var m := IsScript(s);
      SameLex(s, ScriptYield(m), WordTokens(words), m);
      OnlyWords(m, words);
    }
  }

  lemma OneCommand(items: seq<Item>)
    ensures var l := Only(One(Simple(items)));
            && ScriptYield(l) == ItemsYield(items) && (ScriptOk(l) <==> |ArgsOf(items)| <= 9)
            && ScriptCmd(l) == Around(Exec(ArgsOf(items)), RedirsOf(items))
  {
    var c := One(Simple(items));
    assert ChainYield(c) == UnitYield(c.unit) && ChainCmd(c) == UnitCmd(c.unit) && (ChainOk(c) <==> UnitOk(c.unit));
  }

  function WordTokens(words: seq<Word>): (r: seq<Token>)
    ensures |r| == |words| && forall i :: 0 <= i < |words| ==> r[i] == Text(words[i])
  {
    seq(|words|, i requires 0 <= i < |words| => Text(words[i]))
  }

  function ArgItems(words: seq<Word>): (r: seq<Item>)
    ensures |r| == |words| && forall i :: 0 <= i < |words| ==> r[i] == Arg(words[i])
  {
    seq(|words|, i requires 0 <= i < |words| => Arg(words[i]))
  }

  lemma {:induction false} WordItems(words: seq<Word>)
    ensures ItemsYield(ArgItems(words)) == WordTokens(words)
    ensures ArgsOf(ArgItems(words)) == words && RedirsOf(ArgItems(words)) == []
    decreases |words|
  {
    if words != [] {
      WordItems(words[1..]);
      assert ArgItems(words)[1..] == ArgItems(words[1..]);
      assert WordTokens(words)[1..] == WordTokens(words[1..]);
      assert words == [words[0]] + words[1..];
    }
  }

  lemma WritesIs(s: string, l: Script)
    requires ScriptOk(l) && Lexes(s, ScriptYield(l))
    ensures Writes(s, l)
  {
  }

  lemma SameLex(s: string, a: seq<Token>, b: seq<Token>, l: Script)
    requires Writes(s, l) && a == ScriptYield(l) && Lexes(s, b)
    ensures a == b && ScriptOk(l)
  {
    hide Lexes, ScriptYield;
    LexesIff(s, a);
    LexesIff(s, b);
  }

  predicate IsOneCommand(l: Script) {
    l.Only? && l.chain.One? && l.chain.unit.Simple?
  }

  /** Everything but a simple command has a mark in it. */
  lemma Marked(l: Script)
    requires !IsOneCommand(l)
    ensures exists i :: 0 <= i < |ScriptYield(l)| && ScriptYield(l)[i].Symbol?
  {
    var c, toks := l.chain, ScriptYield(l);
    var n := |ChainYield(c)|;
    if !l.Only? {
      assert toks[n].Symbol?;
    } else if c.Join? {
      assert ChainYield(c)[|UnitYield(c.unit)|] == Symbol('|');
    } else {
      assert UnitYield(c.unit)[0] == Symbol('(') && ChainYield(c) == UnitYield(c.unit);
    }
  }

  /** Without a mark there is one simple command, and its words are all there is. */
  lemma OnlyWords(l: Script, words: seq<Word>)
    requires ScriptOk(l) && ScriptYield(l) == WordTokens(words)
    ensures |words| <= 9
  {
    hide WordTokens, ItemsYield, ArgsOf, ScriptYield, ScriptOk;
    if IsOneCommand(l) {
      OneCommand(l.chain.unit.items);
      CountWords(l.chain.unit.items);
    } else {
      Marked(l);
    }
  }

  lemma {:induction false} CountWords(items: seq<Item>)
    requires forall i :: 0 <= i < |ItemsYield(items)| ==> ItemsYield(items)[i].Text?
    ensures |ArgsOf(items)| == |ItemsYield(items)|
    decreases |items|
  {
    if items != [] {
      var y := ItemsYield(items);
      assert y[0] == ItemYield(items[0])[0];
      assert y[|ItemYield(items[0])|..] == ItemsYield(items[1..]);
      CountWords(items[1..]);
    }
  }
}
