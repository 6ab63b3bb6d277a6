/** The command language of sh.c: tokens, the grammar its recursive descent parser accepts,
    and a printer whose output the parser maps back to the same tree. */
module ShellGrammar {

  const MAXARGS := 10

  /** A command tree.  Words are strings here, and spans of the buffer in the parser. */
  datatype Cmd<W> =
    | Exec(argv: seq<W>)
    | Redir(cmd: Cmd<W>, file: W, output: bool)  // > and >> give the same node
    | Pipe(left: Cmd<W>, right: Cmd<W>)
    | List(left: Cmd<W>, right: Cmd<W>)
    | Back(cmd: Cmd<W>)

  // ----- tokens -----

  datatype Token = Sym(c: char) | Word(text: string)   // Sym('+') is >>

  predicate IsSpace(c: char) {
    c == ' ' || c == '\t' || c == '\r' || c == '\n' || c == '\U{000B}'
  }

  predicate IsSymbol(c: char) {
    c == '<' || c == '|' || c == '>' || c == '&' || c == ';' || c == '(' || c == ')'
  }

  predicate IsWordChar(c: char) {
    !IsSpace(c) && !IsSymbol(c)
  }

  function Skip(s: string): (r: string)
    ensures |r| <= |s| && r == s[|s| - |r|..] && (r != [] ==> !IsSpace(r[0]))
  {
    if s != [] && IsSpace(s[0]) then Skip(s[1..]) else s
  }

  function WordLen(s: string): (n: nat)
    ensures n <= |s| && (forall i :: 0 <= i < n ==> IsWordChar(s[i])) && (n < |s| ==> !IsWordChar(s[n]))
  {
    if s != [] && IsWordChar(s[0]) then 1 + WordLen(s[1..]) else 0
  }

  /** The first token of a string that starts with one, and its length. */
  function First(s: string): (r: (Token, nat))
    requires s != [] && !IsSpace(s[0])
    ensures 1 <= r.1 <= |s|
  {
    if s[0] == '>' && |s| > 1 && s[1] == '>' then (Sym('+'), 2)
    else if IsSymbol(s[0]) then (Sym(s[0]), 1)
    else (Word(s[..WordLen(s)]), WordLen(s))
  }

  /** All tokens of a string. */
  function Lex(s: string): seq<Token>
    decreases |s|
  {
    var t := Skip(s);
    if t == [] then [] else [First(t).0] + Lex(t[First(t).1..])
  }

  // ----- the parser, on tokens -----

  datatype Parse<T> = Ok(value: T, rest: seq<Token>) | Panic

  /** peek: the next token starts with one of the given symbols. */
  predicate Peek(ts: seq<Token>, toks: string) {
    ts != [] && ts[0].Sym? && (if ts[0].c == '+' then '>' else ts[0].c) in toks
  }

  function Wrap<W>(c: Cmd<W>, reds: seq<(W, bool)>): Cmd<W>
    decreases |reds|
  {
    if reds == [] then c else Wrap(Redir(c, reds[0].0, reds[0].1), reds[1..])
  }

  /** parseredirs: the redirections, in the order they were read. */
  function PReds(ts: seq<Token>): (r: Parse<seq<(string, bool)>>)
    ensures r.Ok? ==> |r.rest| <= |ts| && !Peek(r.rest, "<>")
    decreases |ts|
  {
    if !Peek(ts, "<>") then Ok([], ts)
    else if |ts| < 2 || !ts[1].Word? then Panic
    else match PReds(ts[2..])
      case Panic => Panic
      case Ok(reds, rest) => Ok([(ts[1].text, ts[0].c != '<')] + reds, rest)
  }

  /** The word loop of parseexec. */
  function PArgs(args: seq<string>, reds: seq<(string, bool)>, ts: seq<Token>): (r: Parse<Cmd<string>>)
    ensures r.Ok? ==> |r.rest| <= |ts|
    decreases |ts|
  {
    if ts == [] || Peek(ts, "|)&;") then Ok(Wrap(Exec(args), reds), ts)
    else if !ts[0].Word? || |args| + 1 >= MAXARGS then Panic
    else match PReds(ts[1..])
      case Panic => Panic
      case Ok(more, rest) => PArgs(args + [ts[0].text], reds + more, rest)
  }

  function PExec(ts: seq<Token>): (r: Parse<Cmd<string>>)
    ensures r.Ok? ==> |r.rest| <= |ts|
    decreases |ts|, 1
  {
    if Peek(ts, "(") then PBlock(ts)
    else match PReds(ts)
      case Panic => Panic
      case Ok(reds, rest) => PArgs([], reds, rest)
  }

  function PBlock(ts: seq<Token>): (r: Parse<Cmd<string>>)
    requires Peek(ts, "(")
    ensures r.Ok? ==> |r.rest| <= |ts|
    decreases |ts|, 0
  {
    match PLine(ts[1..])
    case Panic => Panic
    case Ok(c, rest) =>
      if !Peek(rest, ")") then Panic
      else match PReds(rest[1..])
        case Panic => Panic
        case Ok(reds, rest') => Ok(Wrap(c, reds), rest')
  }

  function PPipe(ts: seq<Token>): (r: Parse<Cmd<string>>)
    ensures r.Ok? ==> |r.rest| <= |ts|
    decreases |ts|, 2
  {
    match PExec(ts)
    case Panic => Panic
    case Ok(c, rest) =>
      if !Peek(rest, "|") then Ok(c, rest)
      else match PPipe(rest[1..])
        case Panic => Panic
        case Ok(d, rest') => Ok(Pipe(c, d), rest')
  }

  /** The loop of parseline over '&'. */
  function PBacks(c: Cmd<string>, ts: seq<Token>): (r: (Cmd<string>, seq<Token>))
    ensures |r.1| <= |ts| && !Peek(r.1, "&")
    decreases |ts|
  {
    if Peek(ts, "&") then PBacks(Back(c), ts[1..]) else (c, ts)
  }

  function PLine(ts: seq<Token>): (r: Parse<Cmd<string>>)
    ensures r.Ok? ==> |r.rest| <= |ts|
    decreases |ts|, 3
  {
    match PPipe(ts)
    case Panic => Panic
    case Ok(c0, rest0) =>
      var (c, rest) := PBacks(c0, rest0);
      if !Peek(rest, ";") then Ok(c, rest)
      else match PLine(rest[1..])
        case Panic => Panic
        case Ok(d, rest') => Ok(List(c, d), rest')
  }

  /** parsecmd: the whole line must be used up. */
  function PCmd(ts: seq<Token>): (r: Parse<Cmd<string>>) {
    match PLine(ts)
    case Panic => Panic
    case Ok(c, rest) => if rest == [] then Ok(c, []) else Panic
  }

  // ----- printing -----

  /** A word that the lexer reads back as itself. */
  predicate LegalWord(w: string) {
    w != [] && forall i :: 0 <= i < |w| ==> IsWordChar(w[i]) && w[i] != '\0'
  }

  predicate Legal(c: Cmd<string>) {
    match c
    case Exec(argv) => |argv| < MAXARGS && forall i :: 0 <= i < |argv| ==> LegalWord(argv[i])
    case Redir(d, file, _) => LegalWord(file) && Legal(d)
    case Pipe(l, r) => Legal(l) && Legal(r)
    case List(l, r) => Legal(l) && Legal(r)
    case Back(d) => Legal(d)
  }

  /** Which of the four print levels calls which on the same tree. */
  function Rank(c: Cmd<string>, level: nat): nat {
    match c
    case Pipe(_, _) => if level == 1 then 0 else if level == 2 then 1 else if level == 3 then 2 else 3
    case Back(_) => if level == 2 then 0 else if level == 3 then 1 else if level == 0 then 2 else 3
    case List(_, _) => if level == 3 then 0 else if level == 0 then 1 else 2
    case _ => level
  }

  function Words(argv: seq<string>): seq<Token> {
    seq(|argv|, i requires 0 <= i < |argv| => Word(argv[i]))
  }

  function TExec(c: Cmd<string>): seq<Token>
    decreases c, Rank(c, 0)
  {
    match c
    case Exec(argv) => Words(argv)
    case Redir(d, file, output) => TExec(d) + [Sym(if output then '>' else '<'), Word(file)]
    case _ => [Sym('(')] + TLine(c) + [Sym(')')]
  }

  function TPipe(c: Cmd<string>): seq<Token>
    decreases c, Rank(c, 1)
  {
    match c
    case Pipe(l, r) => TExec(l) + [Sym('|')] + TPipe(r)
    case _ => TExec(c)
  }

  function TBack(c: Cmd<string>): seq<Token>
    decreases c, Rank(c, 2)
  {
    match c
    case Back(d) => TBack(d) + [Sym('&')]
    case List(_, _) => TExec(c)
    case _ => TPipe(c)
  }

  function TLine(c: Cmd<string>): seq<Token>
    decreases c, Rank(c, 3)
  {
    match c
    case List(l, r) => TBack(l) + [Sym(';')] + TLine(r)
    case _ => TBack(c)
  }

  function Text(t: Token): string {
    match t
    case Sym(c) => [c]
    case Word(w) => w
  }

  /** Every token followed by a space. */
  function Print(ts: seq<Token>): string {
    if ts == [] then "" else Text(ts[0]) + " " + Print(ts[1..])
  }

  /** The canonical text of a command. */
  function Show(c: Cmd<string>): string {
    Print(TLine(c))
  }

  // ----- parsing what was printed -----

  /** What may come after a simple command, a pipeline, a line. */
  predicate EndsExec(rest: seq<Token>) {
    rest == [] || Peek(rest, "|)&;")
  }

  predicate EndsPipe(rest: seq<Token>) {
    rest == [] || Peek(rest, ")&;")
  }

  predicate EndsLine(rest: seq<Token>) {
    rest == [] || Peek(rest, ")")
  }

  /** A command as a core that is no redirection, and the redirections around it. */
  function Core(c: Cmd<string>): (d: Cmd<string>)
    ensures !d.Redir?
  {
    match c
    case Redir(d, _, _) => Core(d)
    case _ => c
  }

  function Reds(c: Cmd<string>): seq<(string, bool)> {
    match c
    case Redir(d, file, output) => Reds(d) + [(file, output)]
    case _ => []
  }

  function TReds(reds: seq<(string, bool)>): seq<Token> {
    if reds == [] then []
    else [Sym(if reds[0].1 then '>' else '<'), Word(reds[0].0)] + TReds(reds[1..])
  }

  lemma {:induction false} WrapAppend(c: Cmd<string>, reds: seq<(string, bool)>, r: (string, bool))
    ensures Wrap(c, reds + [r]) == Redir(Wrap(c, reds), r.0, r.1)
    decreases |reds|
  {
    if reds == [] {
      assert Wrap(Redir(c, r.0, r.1), []) == Redir(c, r.0, r.1);
      assert ([] + [r])[1..] == [];
    } else {
      assert (reds + [r])[1..] == reds[1..] + [r];
      WrapAppend(Redir(c, reds[0].0, reds[0].1), reds[1..], r);
    }
  }

  lemma {:induction false} TRedsAppend(reds: seq<(string, bool)>, r: (string, bool))
    ensures TReds(reds + [r]) == TReds(reds) + [Sym(if r.1 then '>' else '<'), Word(r.0)]
    decreases |reds|
  {
    if reds == [] {
      assert ([] + [r])[1..] == [];
      assert TReds([]) == [];
    } else {
      assert (reds + [r])[1..] == reds[1..] + [r];
      TRedsAppend(reds[1..], r);
    }
  }

  /** Printing puts the redirections after the core. */
  lemma {:induction false} SplitRedirs(c: Cmd<string>)
    ensures Wrap(Core(c), Reds(c)) == c
    ensures TExec(c) == TExec(Core(c)) + TReds(Reds(c))
    decreases c
  {
    match c
    case Redir(d, file, output) =>
      SplitRedirs(d);
      WrapAppend(Core(d), Reds(d), (file, output));
      TRedsAppend(Reds(d), (file, output));
    case _ =>
  }

  lemma {:induction false} RedsParse(reds: seq<(string, bool)>, rest: seq<Token>)
    requires !Peek(rest, "<>")
    ensures PReds(TReds(reds) + rest) == Ok(reds, rest)
    decreases |reds|
  {
    if reds == [] {
      assert TReds(reds) + rest == rest;
    } else {
      var ts := TReds(reds) + rest;
      assert ts[0] == Sym(if reds[0].1 then '>' else '<') && ts[1] == Word(reds[0].0);
      assert ts[2..] == TReds(reds[1..]) + rest;
      assert '<' in "<>" && '>' in "<>" && Peek(ts, "<>");
      RedsParse(reds[1..], rest);
      assert [(reds[0].0, reds[0].1)] + reds[1..] == reds;
    }
  }

  /** The word loop reads the words, then the redirections behind the last one. */
  lemma {:induction false} ArgsParse(done: seq<string>, words: seq<string>, reds: seq<(string, bool)>, rest: seq<Token>)
    requires |done| + |words| < MAXARGS && words != [] && EndsExec(rest)
    ensures PArgs(done, [], Words(words) + TReds(reds) + rest) == Ok(Wrap(Exec(done + words), reds), rest)
    decreases |words|
  {
    hide PReds;
    var more := Words(words[1..]) + TReds(reds) + rest;
    WordsHead(words, TReds(reds) + rest);
    assert Words(words) + TReds(reds) + rest == [Word(words[0])] + more;
    assert ([Word(words[0])] + more)[1..] == more;
    if |words| == 1 {
      assert more == TReds(reds) + rest;
      RedsParse(reds, rest);
      assert [] + reds == reds;
      assert done + words == done + [words[0]];
      assert PArgs(done + [words[0]], reds, rest) == Ok(Wrap(Exec(done + [words[0]]), reds), rest);
    } else {
      WordsHead(words[1..], TReds(reds) + rest);
      NoReds(more);
      var none: seq<(string, bool)> := [];
      assert none + none == none;
      ArgsParse(done + [words[0]], words[1..], reds, rest);
      assert done + [words[0]] + words[1..] == done + words;
    }
  }

  lemma WordsHead(words: seq<string>, rest: seq<Token>)
    requires words != []
    ensures Words(words) + rest == [Word(words[0])] + (Words(words[1..]) + rest)
  {
  }

  lemma NoReds(ts: seq<Token>)
    requires ts != [] && ts[0].Word?
    ensures PReds(ts) == Ok([], ts)
  {
  }

  lemma SimpleParse(args: seq<string>, reds: seq<(string, bool)>, rest: seq<Token>)
    requires |args| < MAXARGS && EndsExec(rest)
    ensures PExec(Words(args) + TReds(reds) + rest) == Ok(Wrap(Exec(args), reds), rest)
  {
    var ts := Words(args) + TReds(reds) + rest;
    if args == [] {
      assert ts == TReds(reds) + rest;
      RedsParse(reds, rest);
      NoParen(reds, rest);
    } else {
      assert ts[0] == Word(args[0]);
      NoReds(ts);
      ArgsParse([], args, reds, rest);
      assert [] + args == args;
    }
  }

  lemma NoParen(reds: seq<(string, bool)>, rest: seq<Token>)
    requires EndsExec(rest)
    ensures !Peek(TReds(reds) + rest, "(")
  {
    if reds == [] { assert TReds(reds) + rest == rest; }
  }

  /** Round trip, level by level: each parser function undoes its printer function. */
  lemma {:induction false} ExecParse(c: Cmd<string>, rest: seq<Token>)
    requires Legal(c) && EndsExec(rest)
    ensures PExec(TExec(c) + rest) == Ok(c, rest)
    decreases c, Rank(c, 0)
  {
    SplitRedirs(c);
    LegalCore(c);
    var d, reds := Core(c), Reds(c);
    if d.Exec? {
      SimpleParse(d.argv, reds, rest);
    } else {
      var after := [Sym(')')] + TReds(reds) + rest;
      assert TExec(c) + rest == [Sym('(')] + (TLine(d) + after);
      if c.Redir? { CoreSmaller(c); }
      LineParse(d, after);
      ParenParse(d, reds, rest);
    }
  }

  lemma ParenParse(d: Cmd<string>, reds: seq<(string, bool)>, rest: seq<Token>)
    requires EndsExec(rest)
    requires var after := [Sym(')')] + TReds(reds) + rest;
             PLine(TLine(d) + after) == Ok(d, after)
    ensures PExec([Sym('(')] + (TLine(d) + ([Sym(')')] + TReds(reds) + rest))) == Ok(Wrap(d, reds), rest)
  {
    hide PLine, PReds, TLine;
    var after := [Sym(')')] + TReds(reds) + rest;
    assert ([Sym('(')] + (TLine(d) + after))[1..] == TLine(d) + after;
    assert after[1..] == TReds(reds) + rest;
    RedsParse(reds, rest);
  }

  lemma LegalCore(c: Cmd<string>)
    requires Legal(c)
    ensures Legal(Core(c))
  {
  }

  lemma CoreSmaller(c: Cmd<string>)
    requires c.Redir?
    ensures Core(c) < c
  {
    if c.cmd.Redir? { CoreSmaller(c.cmd); }
  }

  lemma {:induction false} PipeParse(c: Cmd<string>, rest: seq<Token>)
    requires Legal(c) && EndsPipe(rest)
    ensures PPipe(TPipe(c) + rest) == Ok(c, rest)
    decreases c, Rank(c, 1)
  {
    match c
    case Pipe(l, r) =>
      var after := [Sym('|')] + (TPipe(r) + rest);
      assert TPipe(c) + rest == TExec(l) + after;
      ExecParse(l, after);
      assert after[1..] == TPipe(r) + rest;
      PipeParse(r, rest);
    case _ =>
      ExecParse(c, rest);
  }

  /** parseline up to the '&' loop. */
  lemma {:induction false} BackParse(c: Cmd<string>, rest: seq<Token>)
    requires Legal(c) && EndsPipe(rest)
    ensures var p := PPipe(TBack(c) + rest);
            p.Ok? && PBacks(p.value, p.rest) == PBacks(c, rest)
    decreases c, Rank(c, 2)
  {
    match c
    case Back(d) =>
      var after := [Sym('&')] + rest;
      assert TBack(c) + rest == TBack(d) + after;
      BackParse(d, after);
      assert after[1..] == rest;
    case List(_, _) =>
      ExecParse(c, rest);
    case _ =>
      PipeParse(c, rest);
  }

  lemma {:induction false} LineParse(c: Cmd<string>, rest: seq<Token>)
    requires Legal(c) && EndsLine(rest)
    ensures PLine(TLine(c) + rest) == Ok(c, rest)
    decreases c, Rank(c, 3)
  {
    match c
    case List(l, r) =>
      var after := [Sym(';')] + (TLine(r) + rest);
      assert TLine(c) + rest == TBack(l) + after;
      BackParse(l, after);
      assert PBacks(l, after) == (l, after);
      assert after[1..] == TLine(r) + rest;
      LineParse(r, rest);
    case _ =>
      BackParse(c, rest);
      assert PBacks(c, rest) == (c, rest);
  }

  // ----- lexing what was printed -----

  predicate LegalToken(t: Token) {
    match t
    case Sym(c) => IsSymbol(c)
    case Word(w) => LegalWord(w)
  }

  lemma {:induction false} WordLenOf(w: string, rest: string)
    requires (forall i :: 0 <= i < |w| ==> IsWordChar(w[i])) && rest != [] && !IsWordChar(rest[0])
    ensures WordLen(w + rest) == |w|
    decreases |w|
  {
    if w == [] {
      assert w + rest == rest;
    } else {
      assert (w + rest)[1..] == w[1..] + rest;
      WordLenOf(w[1..], rest);
    }
  }

  lemma FirstPrinted(t: Token, rest: string)
    requires LegalToken(t)
    ensures var s := Text(t) + " " + rest;
            s != [] && !IsSpace(s[0]) && First(s) == (t, |Text(t)|)
  {
    var s := Text(t) + " " + rest;
    assert s[|Text(t)|] == ' ';
    match t
    case Sym(c) =>
    case Word(w) =>
      assert s == w + (" " + rest);
      WordLenOf(w, " " + rest);
      assert s[..|w|] == w;
  }

  lemma {:induction false} SkipSpace(s: string)
    ensures Lex(" " + s) == Lex(s)
  {
    assert (" " + s)[1..] == s;
    assert Skip(" " + s) == Skip(s);
  }

  lemma LexStep(s: string)
    requires s != [] && !IsSpace(s[0])
    ensures Lex(s) == [First(s).0] + Lex(s[First(s).1..])
  {
    assert Skip(s) == s;
  }

  lemma NothingPrinted()
    ensures Print([]) == "" && Lex("") == []
  {
  }

  lemma PrintStep(ts: seq<Token>)
    requires ts != []
    ensures Print(ts) == Text(ts[0]) + " " + Print(ts[1..])
  {
  }

  /** The lexer reads the printed tokens back. */
  lemma {:induction false} LexPrint(ts: seq<Token>)
    requires forall i :: 0 <= i < |ts| ==> LegalToken(ts[i])
    ensures Lex(Print(ts)) == ts
    decreases |ts|
  {
    hide Lex, First, Text, LegalToken, Print;
    if ts == [] {
      NothingPrinted();
    } else {
      var t, rest := ts[0], Print(ts[1..]);
      PrintStep(ts);
      FirstPrinted(t, rest);
      LexStep(Print(ts));
      assert Print(ts)[|Text(t)|..] == " " + rest;
      SkipSpace(rest);
      LexPrint(ts[1..]);
      assert [t] + ts[1..] == ts;
    }
  }

  ghost predicate AllLegal(ts: seq<Token>) {
    forall i :: 0 <= i < |ts| ==> LegalToken(ts[i])
  }

  lemma {:induction false} PrintsLegal(c: Cmd<string>, level: nat)
    requires Legal(c) && level <= 3
    ensures AllLegal(if level == 0 then TExec(c) else if level == 1 then TPipe(c) else if level == 2 then TBack(c) else TLine(c))
    decreases c, Rank(c, level)
  {
    match c
    case Exec(argv) => if level > 0 { PrintsLegal(c, level - 1); }
    case Redir(d, _, _) => if level == 0 { PrintsLegal(d, 0); } else { PrintsLegal(c, level - 1); }
    case Pipe(l, r) => if level == 1 { PrintsLegal(l, 0); PrintsLegal(r, 1); } else { PrintsLegal(c, if level == 0 then 3 else level - 1); }
    case Back(d) => if level == 2 { PrintsLegal(d, 2); } else { PrintsLegal(c, if level == 3 then 2 else if level == 0 then 3 else 0); }
    case List(l, r) => if level == 3 { PrintsLegal(l, 2); PrintsLegal(r, 3); } else { PrintsLegal(c, if level == 0 then 3 else 0); }
  }

  /** Every command tree over legal words, with at most nine words per simple command, is
      what the parser makes of its printed text. */
  lemma ParseShow(c: Cmd<string>)
    requires Legal(c)
    ensures PCmd(Lex(Show(c))) == Ok(c, [])
  {
    PrintsLegal(c, 3);
    LexPrint(TLine(c));
    LineParse(c, []);
    assert TLine(c) + [] == TLine(c);
  }
}
