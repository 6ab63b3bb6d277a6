/** The language of sh.c without its parser: how a line spells tokens, how tokens form a line of
    pipelines, and which command tree a line stands for.  The parser accepts exactly this language
    and builds exactly these trees. */
module ShellSyntax {
  import opened Wrappers
  import opened ShellGrammar

  // ----- syntax -----

  /** A word of a simple command, or a redirection; op '+' is >>. */
  datatype Item = Arg(word: string) | Into(op: char, file: string)

  /** Words and redirections in any order, or a line in parentheses with redirections behind it. */
  datatype Command = Simple(items: seq<Item>) | Block(line: Line, redirs: seq<Item>)

  datatype Pipeline = Pipeline(cmd: Command, more: Option<Pipeline>)

  /** A pipeline, any number of '&', and after a ';' another line. */
  datatype Line = Line(pipe: Pipeline, amps: nat, more: Option<Line>)

  predicate ItemOk(i: Item) {
    i.Into? ==> i.op == '<' || i.op == '>' || i.op == '+'
  }

  ghost predicate ItemsOk(items: seq<Item>) {
    forall i :: 0 <= i < |items| ==> ItemOk(items[i])
  }

  ghost predicate Redirections(items: seq<Item>) {
    ItemsOk(items) && forall i :: 0 <= i < |items| ==> items[i].Into?
  }

  /** The words among the items. */
  ghost function ArgsOf(items: seq<Item>): seq<string> {
    if items == [] then [] else (if items[0].Arg? then [items[0].word] else []) + ArgsOf(items[1..])
  }

  ghost predicate CommandOk(c: Command) {
    match c
    case Simple(items) => ItemsOk(items) && |ArgsOf(items)| < MAXARGS
    case Block(line, redirs) => LineOk(line) && Redirections(redirs)
  }

  ghost predicate PipelineOk(p: Pipeline) {
    CommandOk(p.cmd) && (p.more.Some? ==> PipelineOk(p.more.value))
  }

  ghost predicate LineOk(l: Line) {
    PipelineOk(l.pipe) && (l.more.Some? ==> LineOk(l.more.value))
  }

  // ----- the tokens of a line -----

  ghost function ItemTokens(i: Item): seq<Token> {
    match i
    case Arg(w) => [Word(w)]
    case Into(op, f) => [Sym(op), Word(f)]
  }

  ghost function ItemsTokens(items: seq<Item>): seq<Token> {
    if items == [] then [] else ItemTokens(items[0]) + ItemsTokens(items[1..])
  }

  ghost function Amps(n: nat): seq<Token> {
    if n == 0 then [] else [Sym('&')] + Amps(n - 1)
  }

  ghost function CommandTokens(c: Command): seq<Token> {
    match c
    case Simple(items) => ItemsTokens(items)
    case Block(line, redirs) => [Sym('(')] + LineTokens(line) + [Sym(')')] + ItemsTokens(redirs)
  }

  ghost function PipelineTokens(p: Pipeline): seq<Token> {
    CommandTokens(p.cmd) + if p.more.Some? then [Sym('|')] + PipelineTokens(p.more.value) else []
  }

  ghost function LineTokens(l: Line): seq<Token> {
    PipelineTokens(l.pipe) + Amps(l.amps) + if l.more.Some? then [Sym(';')] + LineTokens(l.more.value) else []
  }

  // ----- the tree of a line -----

  /** One more word for the command inside the redirections. */
  ghost function Push(c: Cmd<string>, w: string): Cmd<string> {
    match c
    case Exec(argv) => Exec(argv + [w])
    case Redir(d, file, output) => Redir(Push(d, w), file, output)
    case _ => c
  }

  /** Items from left to right: a word goes into the command, a redirection around everything so far. */
  ghost function Applied(c: Cmd<string>, items: seq<Item>): Cmd<string>
    decreases |items|
  {
    if items == [] then c
    else
      var n := |items| - 1;
      var d := Applied(c, items[..n]);
      match items[n]
      case Arg(w) => Push(d, w)
      case Into(op, f) => Redir(d, f, op != '<')
  }

  ghost function Backs(c: Cmd<string>, n: nat): Cmd<string> {
    if n == 0 then c else Back(Backs(c, n - 1))
  }

  ghost function CommandTree(c: Command): Cmd<string> {
    match c
    case Simple(items) => Applied(Exec([]), items)
    case Block(line, redirs) => Applied(LineTree(line), redirs)
  }

  ghost function PipelineTree(p: Pipeline): Cmd<string> {
    if p.more.Some? then Pipe(CommandTree(p.cmd), PipelineTree(p.more.value)) else CommandTree(p.cmd)
  }

  ghost function LineTree(l: Line): Cmd<string> {
    var c := Backs(PipelineTree(l.pipe), l.amps);
    if l.more.Some? then List(c, LineTree(l.more.value)) else c
  }

  /** The tokens form a line that stands for the tree. */
  ghost predicate Derives(ts: seq<Token>, c: Cmd<string>) {
    exists l :: LineOk(l) && LineTokens(l) == ts && LineTree(l) == c
  }

  // ----- items as words and redirections -----

  ghost function RedOf(i: Item): seq<(string, bool)> {
    if i.Into? then [(i.file, i.op != '<')] else []
  }

  ghost function RedsOf(items: seq<Item>): seq<(string, bool)> {
    if items == [] then [] else RedOf(items[0]) + RedsOf(items[1..])
  }

  lemma {:induction false} ArgsConcat(a: seq<Item>, b: seq<Item>)
    ensures ArgsOf(a + b) == ArgsOf(a) + ArgsOf(b)
    decreases |a|
  {
    if a == [] {
      assert a + b == b;
    } else {
      assert (a + b)[1..] == a[1..] + b;
      ArgsConcat(a[1..], b);
    }
  }

  lemma {:induction false} RedsConcat(a: seq<Item>, b: seq<Item>)
    ensures RedsOf(a + b) == RedsOf(a) + RedsOf(b)
    decreases |a|
  {
    hide RedOf;
    if a == [] {
      assert a + b == b;
    } else {
      assert (a + b)[1..] == a[1..] + b;
      RedsConcat(a[1..], b);
      assert RedOf(a[0]) + (RedsOf(a[1..]) + RedsOf(b)) == (RedOf(a[0]) + RedsOf(a[1..])) + RedsOf(b);
    }
  }

  lemma {:induction false} TokensConcat(a: seq<Item>, b: seq<Item>)
    ensures ItemsTokens(a + b) == ItemsTokens(a) + ItemsTokens(b)
    decreases |a|
  {
    hide ItemTokens;
    if a == [] {
      assert a + b == b;
    } else {
      assert (a + b)[1..] == a[1..] + b;
      TokensConcat(a[1..], b);
      assert ItemTokens(a[0]) + (ItemsTokens(a[1..]) + ItemsTokens(b)) == (ItemTokens(a[0]) + ItemsTokens(a[1..])) + ItemsTokens(b);
    }
  }

  lemma ArgsAppend(a: seq<Item>, b: seq<Item>)
    ensures ArgsOf(a + b) == ArgsOf(a) + ArgsOf(b) && RedsOf(a + b) == RedsOf(a) + RedsOf(b)
    ensures ItemsTokens(a + b) == ItemsTokens(a) + ItemsTokens(b)
  {
    hide *;
    ArgsConcat(a, b);
    RedsConcat(a, b);
    TokensConcat(a, b);
  }

  lemma OneItem(i: Item)
    ensures ArgsOf([i]) == (if i.Arg? then [i.word] else []) && ItemsTokens([i]) == ItemTokens(i)
    ensures RedsOf([i]) == RedOf(i)
  {
    assert [i][1..] == [];
  }

  lemma {:induction false} OnlyReds(items: seq<Item>)
    requires forall i :: 0 <= i < |items| ==> items[i].Into?
    ensures ArgsOf(items) == [] && |RedsOf(items)| == |items|
  {
    if items != [] { OnlyReds(items[1..]); }
  }

  lemma {:induction false} PushWrap(c: Cmd<string>, reds: seq<(string, bool)>, w: string)
    ensures Push(Wrap(c, reds), w) == Wrap(Push(c, w), reds)
    decreases |reds|
  {
    if reds != [] { PushWrap(Redir(c, reds[0].0, reds[0].1), reds[1..], w); }
  }

  /** Words collected and redirections wrapped in order is the same. */
  lemma {:induction false} AppliedSimple(items: seq<Item>)
    ensures Applied(Exec([]), items) == Wrap(Exec(ArgsOf(items)), RedsOf(items))
    decreases |items|
  {
    if items == [] {
    } else {
      var n := |items| - 1;
      AppliedSimple(items[..n]);
      AppliedLast(items[..n], items[n]);
      assert items == items[..n] + [items[n]];
    }
  }

  lemma AppliedLast(init: seq<Item>, last: Item)
    requires Applied(Exec([]), init) == Wrap(Exec(ArgsOf(init)), RedsOf(init))
    ensures Applied(Exec([]), init + [last]) == Wrap(Exec(ArgsOf(init + [last])), RedsOf(init + [last]))
  {
    hide Wrap, ArgsOf, RedsOf, ItemsTokens;
    assert (init + [last])[..|init|] == init;
    ArgsAppend(init, [last]);
    OneItem(last);
    var args, reds := ArgsOf(init), RedsOf(init);
    match last
    case Arg(w) =>
      PushWrap(Exec(args), reds, w);
      assert reds + [] == reds;
    case Into(op, f) =>
      WrapAppend(Exec(args), reds, (f, op != '<'));
      assert args + [] == args;
  }

  lemma {:induction false} AppliedReds(c: Cmd<string>, redirs: seq<Item>)
    requires Redirections(redirs)
    ensures Applied(c, redirs) == Wrap(c, RedsOf(redirs))
    decreases |redirs|
  {
    if redirs != [] {
      var n := |redirs| - 1;
      assert redirs == redirs[..n] + [redirs[n]];
      AppliedReds(c, redirs[..n]);
      ArgsAppend(redirs[..n], [redirs[n]]);
      OneItem(redirs[n]);
      WrapAppend(c, RedsOf(redirs[..n]), (redirs[n].file, redirs[n].op != '<'));
    }
  }

  // ----- every line of the language is parsed to its tree -----

  lemma {:induction false} RedirsComplete(redirs: seq<Item>, rest: seq<Token>)
    requires Redirections(redirs) && !Peek(rest, "<>")
    ensures PReds(ItemsTokens(redirs) + rest) == Ok(RedsOf(redirs), rest)
    decreases |redirs|
  {
    var ts := ItemsTokens(redirs) + rest;
    if redirs == [] {
      assert ts == rest;
    } else {
      assert ItemOk(redirs[0]) && redirs[0].Into?;
      assert ts[0] == Sym(redirs[0].op) && ts[1] == Word(redirs[0].file);
      assert ts[2..] == ItemsTokens(redirs[1..]) + rest;
      assert '<' in "<>" && '>' in "<>" && Peek(ts, "<>");
      RedirsComplete(redirs[1..], rest);
    }
  }

  /** The redirections that items start with. */
  lemma {:induction false} LeadingReds(items: seq<Item>) returns (k: nat)
    ensures k <= |items| && (forall i :: 0 <= i < k ==> items[i].Into?) && (k < |items| ==> items[k].Arg?)
    decreases |items|
  {
    if items == [] || items[0].Arg? {
      k := 0;
    } else {
      k := LeadingReds(items[1..]);
      k := k + 1;
    }
  }

  lemma NoRedNext(items: seq<Item>, rest: seq<Token>)
    requires EndsExec(rest) && (items != [] ==> items[0].Arg?)
    ensures !Peek(ItemsTokens(items) + rest, "<>") && !Peek(ItemsTokens(items) + rest, "(")
  {
    if items == [] { assert ItemsTokens(items) + rest == rest; }
  }

  lemma ArgsStep(args: seq<string>, reds: seq<(string, bool)>, w: string, ts: seq<Token>)
    requires |args| + 1 < MAXARGS
    ensures PArgs(args, reds, [Word(w)] + ts) ==
            if PReds(ts).Panic? then Panic else PArgs(args + [w], reds + PReds(ts).value, PReds(ts).rest)
  {
    hide PReds;
    assert ([Word(w)] + ts)[1..] == ts;
  }

  lemma JoinItems(w: string, a: seq<Item>, b: seq<Item>)
    requires Redirections(a) && ItemsOk(b)
    ensures var items := [Arg(w)] + (a + b);
            && ItemsOk(items) && ArgsOf(items) == [w] + ArgsOf(b) && RedsOf(items) == RedsOf(a) + RedsOf(b)
            && ItemsTokens(items) == [Word(w)] + (ItemsTokens(a) + ItemsTokens(b))
  {
    var items := [Arg(w)] + (a + b);
    assert items[1..] == a + b;
    ArgsAppend(a, b);
    OnlyReds(a);
  }

  /** A word, the redirections behind it, and the rest. */
  lemma SplitItems(items: seq<Item>) returns (a: seq<Item>, b: seq<Item>)
    requires items != [] && items[0].Arg? && ItemsOk(items)
    ensures Redirections(a) && ItemsOk(b) && (b != [] ==> b[0].Arg?) && |b| < |items|
    ensures ArgsOf(items) == [items[0].word] + ArgsOf(b) && RedsOf(items) == RedsOf(a) + RedsOf(b)
    ensures ItemsTokens(items) == [Word(items[0].word)] + (ItemsTokens(a) + ItemsTokens(b))
  {
    hide ArgsOf, RedsOf, ItemsTokens, ItemTokens;
    var tail := items[1..];
    var k := LeadingReds(tail);
    a, b := tail[..k], tail[k..];
    assert items == [Arg(items[0].word)] + (a + b);
    JoinItems(items[0].word, a, b);
  }

  lemma {:induction false} ArgsComplete(args: seq<string>, reds: seq<(string, bool)>, items: seq<Item>, rest: seq<Token>)
    requires ItemsOk(items) && |args| + |ArgsOf(items)| < MAXARGS && EndsExec(rest) && (items != [] ==> items[0].Arg?)
    ensures PArgs(args, reds, ItemsTokens(items) + rest) == Ok(Wrap(Exec(args + ArgsOf(items)), reds + RedsOf(items)), rest)
    decreases |items|
  {
    var ts := ItemsTokens(items) + rest;
    if items == [] {
      assert ts == rest && args + [] == args && reds + [] == reds;
    } else {
      ArgsCompleteMore(args, reds, items, rest);
    }
  }

  lemma ArgsCompleteMore(args: seq<string>, reds: seq<(string, bool)>, items: seq<Item>, rest: seq<Token>)
    requires ItemsOk(items) && |args| + |ArgsOf(items)| < MAXARGS && EndsExec(rest) && items != [] && items[0].Arg?
    ensures PArgs(args, reds, ItemsTokens(items) + rest) == Ok(Wrap(Exec(args + ArgsOf(items)), reds + RedsOf(items)), rest)
    decreases |items|, 0
  {
    hide PReds, Wrap, PArgs, ArgsOf, RedsOf, ItemsTokens, EndsExec;
    var w := items[0].word;
    var a, b := SplitItems(items);
    var ts := ItemsTokens(a) + (ItemsTokens(b) + rest);
    assert ItemsTokens(items) + rest == [Word(w)] + ts;
    ArgsStep(args, reds, w, ts);
    NoRedNext(b, rest);
    RedirsComplete(a, ItemsTokens(b) + rest);
    ArgsComplete(args + [w], reds + RedsOf(a), b, rest);
    assert args + [w] + ArgsOf(b) == args + ([w] + ArgsOf(b));
    assert reds + RedsOf(a) + RedsOf(b) == reds + (RedsOf(a) + RedsOf(b));
  }

  lemma ExecStep(ts: seq<Token>)
    requires !Peek(ts, "(")
    ensures PExec(ts) == if PReds(ts).Panic? then Panic else PArgs([], PReds(ts).value, PReds(ts).rest)
  {
    hide PReds, PArgs;
  }

  lemma SimpleComplete(items: seq<Item>, rest: seq<Token>)
    requires ItemsOk(items) && |ArgsOf(items)| < MAXARGS && EndsExec(rest)
    ensures PExec(ItemsTokens(items) + rest) == Ok(Applied(Exec([]), items), rest)
  {
    hide PReds, PArgs, PExec, Wrap, Applied, ArgsOf, RedsOf, ItemsTokens, EndsExec;
    var k := LeadingReds(items);
    var a, b := items[..k], items[k..];
    assert items == a + b;
    ArgsAppend(a, b);
    OnlyReds(a);
    var tail := ItemsTokens(b) + rest;
    assert ItemsTokens(items) + rest == ItemsTokens(a) + tail;
    assert [] + ArgsOf(b) == ArgsOf(items);
    NoRedNext(b, rest);
    NoBlock(a, tail);
    ExecStep(ItemsTokens(a) + tail);
    RedirsComplete(a, tail);
    ArgsComplete([], RedsOf(a), b, rest);
    AppliedSimple(items);
  }

  lemma NoBlock(a: seq<Item>, rest: seq<Token>)
    requires Redirections(a) && !Peek(rest, "(")
    ensures !Peek(ItemsTokens(a) + rest, "(")
  {
    if a == [] { assert ItemsTokens(a) + rest == rest; } else { assert ItemOk(a[0]); }
  }

  lemma {:induction false} AmpsComplete(c: Cmd<string>, n: nat, rest: seq<Token>)
    requires !Peek(rest, "&")
    ensures PBacks(c, Amps(n) + rest) == (Backs(c, n), rest)
    decreases n
  {
    if n == 0 {
      assert Amps(0) + rest == rest;
    } else {
      var ts := Amps(n) + rest;
      assert ts[0] == Sym('&') && ts[1..] == Amps(n - 1) + rest;
      AmpsComplete(Back(c), n - 1, rest);
      BackInside(c, n - 1);
    }
  }

  lemma {:induction false} BackInside(c: Cmd<string>, n: nat)
    ensures Backs(Back(c), n) == Back(Backs(c, n))
  {
    if n > 0 { BackInside(c, n - 1); }
  }

  lemma {:induction false} CommandComplete(c: Command, rest: seq<Token>)
    requires CommandOk(c) && EndsExec(rest)
    ensures PExec(CommandTokens(c) + rest) == Ok(CommandTree(c), rest)
    decreases c
  {
    match c
    case Simple(items) => SimpleComplete(items, rest);
    case Block(line, redirs) =>
      var after := [Sym(')')] + (ItemsTokens(redirs) + rest);
      LineComplete(line, after);
      BlockComplete(line, redirs, rest);
  }

  lemma NotRed(rest: seq<Token>)
    requires EndsExec(rest)
    ensures !Peek(rest, "<>")
  {
  }

  lemma BlockComplete(line: Line, redirs: seq<Item>, rest: seq<Token>)
    requires Redirections(redirs) && EndsExec(rest)
    requires var after := [Sym(')')] + (ItemsTokens(redirs) + rest); PLine(LineTokens(line) + after) == Ok(LineTree(line), after)
    ensures PExec(CommandTokens(Block(line, redirs)) + rest) == Ok(Applied(LineTree(line), redirs), rest)
  {
    hide PLine, PReds, LineTokens, LineTree, Applied, Wrap, ItemsTokens, RedsOf, EndsExec;
    NotRed(rest);
    var after := [Sym(')')] + (ItemsTokens(redirs) + rest);
    var ts := CommandTokens(Block(line, redirs)) + rest;
    assert ts == [Sym('(')] + (LineTokens(line) + after);
    assert ts[1..] == LineTokens(line) + after && after[1..] == ItemsTokens(redirs) + rest;
    RedirsComplete(redirs, rest);
    AppliedReds(LineTree(line), redirs);
  }

  lemma {:induction false} PipelineComplete(p: Pipeline, rest: seq<Token>)
    requires PipelineOk(p) && EndsPipe(rest)
    ensures PPipe(PipelineTokens(p) + rest) == Ok(PipelineTree(p), rest)
    decreases p
  {
    match p.more
    case None =>
      assert PipelineTokens(p) + rest == CommandTokens(p.cmd) + rest;
      CommandComplete(p.cmd, rest);
    case Some(q) =>
      var after := [Sym('|')] + (PipelineTokens(q) + rest);
      assert PipelineTokens(p) + rest == CommandTokens(p.cmd) + after;
      assert after[1..] == PipelineTokens(q) + rest;
      CommandComplete(p.cmd, after);
      PipelineComplete(q, rest);
  }

  lemma {:induction false} LineComplete(l: Line, rest: seq<Token>)
    requires LineOk(l) && EndsLine(rest)
    ensures PLine(LineTokens(l) + rest) == Ok(LineTree(l), rest)
    decreases l
  {
    hide PPipe, PBacks, PipelineTree, PipelineTokens, Backs;
    var after := (if l.more.Some? then [Sym(';')] + LineTokens(l.more.value) else []) + rest;
    assert LineTokens(l) + rest == PipelineTokens(l.pipe) + (Amps(l.amps) + after);
    AfterPipe(l.amps, after);
    PipelineComplete(l.pipe, Amps(l.amps) + after);
    AmpsComplete(PipelineTree(l.pipe), l.amps, after);
    if l.more.Some? {
      assert after[1..] == LineTokens(l.more.value) + rest;
      LineComplete(l.more.value, rest);
    } else {
      assert after == rest;
    }
  }

  lemma AfterPipe(n: nat, after: seq<Token>)
    requires after == [] || Peek(after, ");")
    ensures EndsPipe(Amps(n) + after) && !Peek(after, "&")
  {
    if n == 0 { assert Amps(n) + after == after; } else { assert (Amps(n) + after)[0] == Sym('&'); }
  }

  // ----- whatever is parsed is a line of the language -----

  lemma RedsUnfold(ts: seq<Token>)
    requires Peek(ts, "<>") && PReds(ts).Ok?
    ensures |ts| >= 2 && ts[1].Word? && ItemOk(Into(ts[0].c, ts[1].text)) && PReds(ts[2..]).Ok?
    ensures PReds(ts) == Ok([(ts[1].text, ts[0].c != '<')] + PReds(ts[2..]).value, PReds(ts[2..]).rest)
    ensures ts == [Sym(ts[0].c), Word(ts[1].text)] + ts[2..]
  {
    assert ts[0].c == '+' || ts[0].c in "<>";
  }

  lemma RedsMore(i: Item, more: seq<Item>)
    requires i.Into? && ItemOk(i) && Redirections(more)
    ensures Redirections([i] + more) && RedsOf([i] + more) == [(i.file, i.op != '<')] + RedsOf(more)
    ensures ItemsTokens([i] + more) == [Sym(i.op), Word(i.file)] + ItemsTokens(more)
  {
    assert ([i] + more)[1..] == more;
  }

  lemma {:induction false} RedirsSound(ts: seq<Token>) returns (redirs: seq<Item>)
    requires PReds(ts).Ok?
    ensures Redirections(redirs) && ts == ItemsTokens(redirs) + PReds(ts).rest && RedsOf(redirs) == PReds(ts).value
    decreases |ts|
  {
    if !Peek(ts, "<>") {
      redirs := [];
      assert ts == ItemsTokens(redirs) + ts;
    } else {
      redirs := RedirsSoundMore(ts);
    }
  }

  lemma RedirsSoundMore(ts: seq<Token>) returns (redirs: seq<Item>)
    requires PReds(ts).Ok? && Peek(ts, "<>")
    ensures Redirections(redirs) && ts == ItemsTokens(redirs) + PReds(ts).rest && RedsOf(redirs) == PReds(ts).value
    decreases |ts|, 0
  {
    hide PReds, ItemsTokens, RedsOf, ItemOk;
    RedsUnfold(ts);
    var more := RedirsSound(ts[2..]);
    var i := Into(ts[0].c, ts[1].text);
    RedsMore(i, more);
    redirs := [i] + more;
  }

  lemma ArgsUnfold(args: seq<string>, reds: seq<(string, bool)>, ts: seq<Token>)
    requires PArgs(args, reds, ts).Ok? && ts != [] && !Peek(ts, "|)&;")
    ensures ts[0].Word? && |args| + 1 < MAXARGS && PReds(ts[1..]).Ok? && ts == [Word(ts[0].text)] + ts[1..]
    ensures PArgs(args, reds, ts) == PArgs(args + [ts[0].text], reds + PReds(ts[1..]).value, PReds(ts[1..]).rest)
  {
    hide PReds;
  }

  lemma {:induction false} ArgsSound(args: seq<string>, reds: seq<(string, bool)>, ts: seq<Token>) returns (items: seq<Item>)
    requires PArgs(args, reds, ts).Ok? && |args| < MAXARGS
    ensures ItemsOk(items) && |args| + |ArgsOf(items)| < MAXARGS && ts == ItemsTokens(items) + PArgs(args, reds, ts).rest
    ensures PArgs(args, reds, ts).value == Wrap(Exec(args + ArgsOf(items)), reds + RedsOf(items))
    decreases |ts|
  {
    hide PReds, Wrap;
    if ts == [] || Peek(ts, "|)&;") {
      items := [];
      assert ts == ItemsTokens(items) + ts && args + [] == args && reds + [] == reds;
    } else {
      items := ArgsSoundMore(args, reds, ts);
    }
  }

  lemma ArgsSoundMore(args: seq<string>, reds: seq<(string, bool)>, ts: seq<Token>) returns (items: seq<Item>)
    requires PArgs(args, reds, ts).Ok? && |args| < MAXARGS && ts != [] && !Peek(ts, "|)&;")
    ensures ItemsOk(items) && |args| + |ArgsOf(items)| < MAXARGS && ts == ItemsTokens(items) + PArgs(args, reds, ts).rest
    ensures PArgs(args, reds, ts).value == Wrap(Exec(args + ArgsOf(items)), reds + RedsOf(items))
    decreases |ts|, 0
  {
    hide PReds, Wrap, PArgs, ArgsOf, RedsOf, ItemsTokens;
    ArgsUnfold(args, reds, ts);
    var w, more := ts[0].text, PReds(ts[1..]);
    var a := RedirsSound(ts[1..]);
    var b := ArgsSound(args + [w], reds + more.value, more.rest);
    items := [Arg(w)] + (a + b);
    JoinItems(w, a, b);
    assert args + [w] + ArgsOf(b) == args + ([w] + ArgsOf(b));
    assert reds + RedsOf(a) + RedsOf(b) == reds + (RedsOf(a) + RedsOf(b));
  }

  lemma SimpleSound(ts: seq<Token>) returns (items: seq<Item>)
    requires !Peek(ts, "(") && PExec(ts).Ok?
    ensures CommandOk(Simple(items)) && ts == ItemsTokens(items) + PExec(ts).rest && PExec(ts).value == Applied(Exec([]), items)
  {
    hide PReds, PArgs, PExec, Wrap, Applied, ArgsOf, RedsOf, ItemsTokens;
    ExecStep(ts);
    var reds := PReds(ts);
    var a := RedirsSound(ts);
    var b := ArgsSound([], reds.value, reds.rest);
    items := a + b;
    ArgsAppend(a, b);
    OnlyReds(a);
    AppliedSimple(items);
    assert [] + ArgsOf(b) == ArgsOf(items);
  }

  lemma {:induction false} CommandSound(ts: seq<Token>) returns (c: Command)
    requires PExec(ts).Ok?
    ensures CommandOk(c) && ts == CommandTokens(c) + PExec(ts).rest && PExec(ts).value == CommandTree(c)
    decreases |ts|, 1
  {
    if Peek(ts, "(") {
      var line := LineSound(ts[1..]);
      c := BlockSound(ts, line);
    } else {
      var items := SimpleSound(ts);
      c := Simple(items);
    }
  }

  lemma BlockSound(ts: seq<Token>, line: Line) returns (c: Command)
    requires Peek(ts, "(") && PExec(ts).Ok? && LineOk(line)
    requires var p := PLine(ts[1..]); p.Ok? && ts[1..] == LineTokens(line) + p.rest && p.value == LineTree(line)
    ensures CommandOk(c) && ts == CommandTokens(c) + PExec(ts).rest && PExec(ts).value == CommandTree(c)
  {
    hide PLine, PReds, LineTokens, LineTree, LineOk, Applied, Wrap;
    var rest := PLine(ts[1..]).rest;
    assert ts[0] == Sym('(') && rest[0] == Sym(')');
    var redirs := RedirsSound(rest[1..]);
    AppliedReds(LineTree(line), redirs);
    c := Block(line, redirs);
    assert ts == [Sym('(')] + (LineTokens(line) + ([Sym(')')] + (ItemsTokens(redirs) + PReds(rest[1..]).rest)));
  }

  lemma {:induction false} PipelineSound(ts: seq<Token>) returns (p: Pipeline)
    requires PPipe(ts).Ok?
    ensures PipelineOk(p) && ts == PipelineTokens(p) + PPipe(ts).rest && PPipe(ts).value == PipelineTree(p)
    decreases |ts|, 2
  {
    hide PExec, CommandTokens, CommandTree, CommandOk;
    var c := CommandSound(ts);
    var rest := PExec(ts).rest;
    if Peek(rest, "|") {
      assert rest == [Sym('|')] + rest[1..];
      var q := PipelineSound(rest[1..]);
      p := Pipeline(c, Some(q));
      PipelineJoin(c, q, PPipe(rest[1..]).rest);
    } else {
      p := Pipeline(c, None);
    }
  }

  lemma PipelineJoin(c: Command, q: Pipeline, rest: seq<Token>)
    ensures PipelineTokens(Pipeline(c, Some(q))) + rest == CommandTokens(c) + ([Sym('|')] + (PipelineTokens(q) + rest))
  {
    hide CommandTokens;
  }

  lemma {:induction false} AmpsSound(c: Cmd<string>, ts: seq<Token>) returns (n: nat)
    ensures ts == Amps(n) + PBacks(c, ts).1 && PBacks(c, ts).0 == Backs(c, n)
    decreases |ts|
  {
    if Peek(ts, "&") {
      n := AmpsSound(Back(c), ts[1..]);
      BackInside(c, n);
      assert ts == [Sym('&')] + ts[1..];
      n := n + 1;
    } else {
      n := 0;
    }
  }

  lemma {:induction false} LineSound(ts: seq<Token>) returns (l: Line)
    requires PLine(ts).Ok?
    ensures LineOk(l) && ts == LineTokens(l) + PLine(ts).rest && PLine(ts).value == LineTree(l)
    decreases |ts|, 3
  {
    hide PPipe, PBacks, PipelineTokens, PipelineTree, PipelineOk, Backs, Amps;
    var p := PipelineSound(ts);
    var r := PPipe(ts);
    var n := AmpsSound(r.value, r.rest);
    var rest := PBacks(r.value, r.rest).1;
    if Peek(rest, ";") {
      assert rest == [Sym(';')] + rest[1..];
      var more := LineSound(rest[1..]);
      l := Line(p, n, Some(more));
      LineJoin(p, n, more, PLine(rest[1..]).rest);
    } else {
      l := Line(p, n, None);
    }
  }

  lemma LineJoin(p: Pipeline, n: nat, more: Line, rest: seq<Token>)
    ensures LineTokens(Line(p, n, Some(more))) + rest ==
            PipelineTokens(p) + (Amps(n) + ([Sym(';')] + (LineTokens(more) + rest)))
  {
    hide PipelineTokens, Amps;
  }

  // ----- the parser and the language agree -----

  /** The parser returns a tree exactly when the tokens form a line that stands for it. */
  lemma ParseIff(ts: seq<Token>, c: Cmd<string>)
    ensures PCmd(ts) == Ok(c, []) <==> Derives(ts, c)
  {
    hide PLine, LineOk, LineTokens, LineTree;
    if PCmd(ts) == Ok(c, []) {
      var l := LineSound(ts);
      assert LineTokens(l) + [] == LineTokens(l);
    }
    if Derives(ts, c) {
      var l :| LineOk(l) && LineTokens(l) == ts && LineTree(l) == c;
      LineComplete(l, []);
      assert LineTokens(l) + [] == ts;
    }
  }

  /** It panics exactly on tokens that form no line. */
  lemma PanicIff(ts: seq<Token>)
    ensures PCmd(ts) == Panic <==> forall c :: !Derives(ts, c)
  {
    hide Derives, PLine;
    forall c ensures PCmd(ts) == Ok(c, []) <==> Derives(ts, c) { ParseIff(ts, c); }
    if PCmd(ts).Ok? { assert Derives(ts, PCmd(ts).value); }
  }

  // ----- how a line spells tokens -----

  ghost predicate AllSpace(s: string) {
    forall i :: 0 <= i < |s| ==> IsSpace(s[i])
  }

  ghost predicate TokenOk(t: Token) {
    match t
    case Sym(c) => c == '+' || IsSymbol(c)
    case Word(w) => w != [] && forall i :: 0 <= i < |w| ==> IsWordChar(w[i])
  }

  ghost function Spelling(t: Token): string {
    match t
    case Sym(c) => if c == '+' then ">>" else [c]
    case Word(w) => w
  }

  /** Words and > end where they cannot go on. */
  ghost predicate Stops(t: Token, rest: string) {
    && (t.Word? && rest != [] ==> !IsWordChar(rest[0]))
    && (t == Sym('>') && rest != [] ==> rest[0] != '>')
  }

  /** White space up to n, then the token up to m. */
  ghost predicate Cut(s: string, n: nat, m: nat, t: Token) {
    n < m <= |s| && AllSpace(s[..n]) && TokenOk(t) && s[n..m] == Spelling(t) && Stops(t, s[m..])
  }

  ghost predicate Spells(s: string, ts: seq<Token>)
    decreases |ts|
  {
    if ts == [] then AllSpace(s) else exists n: nat, m: nat :: Cut(s, n, m, ts[0]) && Spells(s[m..], ts[1..])
  }

  lemma {:induction false} SkipIs(s: string, n: nat)
    requires n <= |s| && AllSpace(s[..n]) && (n < |s| ==> !IsSpace(s[n]))
    ensures Skip(s) == s[n..]
    decreases n
  {
    if n > 0 {
      assert s[..n][0] == s[0];
      assert s[1..][..n - 1] == s[..n][1..];
      SkipIs(s[1..], n - 1);
      assert s[1..][n - 1..] == s[n..];
    }
  }

  lemma FirstCut(s: string, n: nat, m: nat, t: Token)
    requires Cut(s, n, m, t)
    ensures !IsSpace(s[n]) && First(s[n..]) == (t, m - n)
  {
    var u := s[n..];
    assert u[..m - n] == Spelling(t) && u[m - n..] == s[m..];
    assert s[n] == Spelling(t)[0];
    match t
    case Sym(c) =>
      assert u[0] == Spelling(t)[0];
      if c == '+' { assert u[1] == Spelling(t)[1]; } else if |u| > 1 { assert u[1] == s[m..][0]; }
    case Word(w) =>
      assert u == w + s[m..];
      assert s[n] == w[0] && u[0] == w[0];
      if s[m..] == [] { WholeWord(w); } else { WordLenOf(w, s[m..]); }
  }

  lemma {:induction false} WholeWord(w: string)
    requires forall i :: 0 <= i < |w| ==> IsWordChar(w[i])
    ensures WordLen(w) == |w|
  {
    if w != [] { WholeWord(w[1..]); }
  }

  lemma LexUnfold(s: string)
    ensures var u := Skip(s); Lex(s) == if u == [] then [] else [First(u).0] + Lex(u[First(u).1..])
  {
    hide First, Skip;
  }

  lemma LexCut(s: string, n: nat, m: nat, t: Token)
    requires Cut(s, n, m, t)
    ensures Lex(s) == [t] + Lex(s[m..])
  {
    hide First, Skip, Lex, AllSpace, Stops, TokenOk, Spelling;
    LexUnfold(s);
    FirstCut(s, n, m, t);
    SkipIs(s, n);
    assert s[n..][m - n..] == s[m..];
  }

  /** The lexer finds the tokens that the line spells. */
  lemma {:induction false} LexComplete(s: string, ts: seq<Token>)
    requires Spells(s, ts)
    ensures Lex(s) == ts
    decreases |ts|
  {
    hide Lex, Skip, First, AllSpace, Stops, TokenOk, Spelling;
    if ts == [] {
      assert s[..|s|] == s;
      SkipIs(s, |s|);
      LexUnfold(s);
    } else {
      var n: nat, m: nat :| Cut(s, n, m, ts[0]) && Spells(s[m..], ts[1..]);
      LexCut(s, n, m, ts[0]);
      LexComplete(s[m..], ts[1..]);
      assert ts == [ts[0]] + ts[1..];
    }
  }

  lemma {:induction false} LeadingSpace(s: string) returns (n: nat)
    ensures n <= |s| && AllSpace(s[..n]) && (n < |s| ==> !IsSpace(s[n]))
    decreases |s|
  {
    if s == [] || !IsSpace(s[0]) {
      n := 0;
    } else {
      var k := LeadingSpace(s[1..]);
      n := k + 1;
      forall i | 0 <= i < n ensures IsSpace(s[..n][i]) { if i > 0 { assert s[..n][i] == s[1..][..k][i - 1]; } }
    }
  }

  lemma CutFirst(s: string, n: nat)
    requires n < |s| && AllSpace(s[..n]) && !IsSpace(s[n])
    ensures var r := First(s[n..]); n + r.1 <= |s| && Cut(s, n, n + r.1, r.0)
  {
    var u, r := s[n..], First(s[n..]);
    var m := n + r.1;
    assert s[n..m] == u[..r.1] && s[m..] == u[r.1..];
  }

  /** The line spells the tokens that the lexer finds. */
  lemma {:induction false} LexSound(s: string)
    ensures Spells(s, Lex(s))
    decreases |s|
  {
    hide Lex, Skip, First, Cut;
    var n := LeadingSpace(s);
    SkipIs(s, n);
    LexUnfold(s);
    if n == |s| {
      assert s[..n] == s;
    } else {
      CutFirst(s, n);
      var r := First(s[n..]);
      var m := n + r.1;
      LexCut(s, n, m, r.0);
      LexSound(s[m..]);
      assert Lex(s)[1..] == Lex(s[m..]) && Lex(s)[0] == r.0;
      assert Cut(s, n, m, Lex(s)[0]) && Spells(s[m..], Lex(s)[1..]);
    }
  }

  /** The line spells tokens that stand for the tree. */
  ghost predicate Means(s: string, c: Cmd<string>) {
    exists ts :: Spells(s, ts) && Derives(ts, c)
  }

  /** A line is parsed to a tree exactly when it means the tree. */
  lemma LineMeans(s: string, c: Cmd<string>)
    ensures PCmd(Lex(s)) == Ok(c, []) <==> Means(s, c)
  {
    hide Spells, Derives, Lex, PCmd;
    LexSound(s);
    ParseIff(Lex(s), c);
    if ts :| Spells(s, ts) && Derives(ts, c) {
      LexComplete(s, ts);
    }
  }

  /** A line is refused exactly when it means nothing. */
  lemma LineRefused(s: string)
    ensures PCmd(Lex(s)) == Panic <==> forall c :: !Means(s, c)
  {
    hide Means, Lex, PLine;
    forall c ensures PCmd(Lex(s)) == Ok(c, []) <==> Means(s, c) { LineMeans(s, c); }
    if PCmd(Lex(s)).Ok? { assert Means(s, PCmd(Lex(s)).value); }
  }
}
