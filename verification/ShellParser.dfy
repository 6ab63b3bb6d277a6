/** The parser of sh.c as code: it moves *ps through the buffer, builds trees whose words
    are spans of the buffer, and finally writes NULs behind the words. */
module ShellParser {
  import opened Wrappers
  import opened ShellGrammar
  import ShellSyntax

  /** A word in the buffer: q and eq of gettoken. */
  datatype Span = Span(q: nat, eq: nat)

  /** Exactly a maximal run of word characters. */
  ghost predicate WordSpan(buf: string, s: Span) {
    && s.q < s.eq <= |buf| && (forall i :: s.q <= i < s.eq ==> IsWordChar(buf[i]))
    && (s.eq < |buf| ==> !IsWordChar(buf[s.eq]))
  }

  ghost predicate SpansOk(buf: string, c: Cmd<Span>) {
    match c
    case Exec(argv) => forall i :: 0 <= i < |argv| ==> WordSpan(buf, argv[i])
    case Redir(d, file, _) => WordSpan(buf, file) && SpansOk(buf, d)
    case Pipe(l, r) => SpansOk(buf, l) && SpansOk(buf, r)
    case List(l, r) => SpansOk(buf, l) && SpansOk(buf, r)
    case Back(d) => SpansOk(buf, d)
  }

  ghost function TextOf(buf: string, s: Span): string {
    if s.q <= s.eq <= |buf| then buf[s.q..s.eq] else ""
  }

  ghost function Texts(buf: string, argv: seq<Span>): (r: seq<string>)
    ensures |r| == |argv|
  {
    seq(|argv|, i requires 0 <= i < |argv| => TextOf(buf, argv[i]))
  }

  /** The tree with each span replaced by its text. */
  ghost function Read(buf: string, c: Cmd<Span>): Cmd<string> {
    match c
    case Exec(argv) => Exec(Texts(buf, argv))
    case Redir(d, file, output) => Redir(Read(buf, d), TextOf(buf, file), output)
    case Pipe(l, r) => Pipe(Read(buf, l), Read(buf, r))
    case List(l, r) => List(Read(buf, l), Read(buf, r))
    case Back(d) => Back(Read(buf, d))
  }

  type Reds = seq<(Span, bool)>

  ghost function ReadReds(buf: string, reds: Reds): (r: seq<(string, bool)>)
    ensures |r| == |reds|
  {
    seq(|reds|, i requires 0 <= i < |reds| => (TextOf(buf, reds[i].0), reds[i].1))
  }

  ghost predicate RedsOk(buf: string, reds: Reds) {
    forall i :: 0 <= i < |reds| ==> WordSpan(buf, reds[i].0)
  }

  lemma {:induction false} ReadWrap(buf: string, c: Cmd<Span>, reds: Reds)
    requires SpansOk(buf, c) && RedsOk(buf, reds)
    ensures Read(buf, Wrap(c, reds)) == Wrap(Read(buf, c), ReadReds(buf, reds))
    ensures SpansOk(buf, Wrap(c, reds))
    decreases |reds|
  {
    if reds != [] {
      assert ReadReds(buf, reds)[1..] == ReadReds(buf, reds[1..]);
      ReadWrap(buf, Redir(c, reds[0].0, reds[0].1), reds[1..]);
    }
  }

  // ----- strings from a position -----

  /** The tokens from offset s on. */
  ghost function From(buf: string, s: nat): seq<Token>
    requires s <= |buf|
  {
    Lex(buf[s..])
  }

  lemma FromSpace(buf: string, s: nat)
    requires s < |buf| && IsSpace(buf[s])
    ensures From(buf, s) == From(buf, s + 1)
  {
    SkipsOne(buf[s..]);
    hide First, Lex, Skip;
    assert buf[s..][1..] == buf[s + 1..];
  }

  lemma SkipsOne(s: string)
    requires s != [] && IsSpace(s[0])
    ensures Lex(s) == Lex(s[1..])
  {
    hide First, WordLen;
    assert Skip(s) == Skip(s[1..]);
  }

  lemma FromEnd(buf: string)
    ensures From(buf, |buf|) == []
  {
    assert buf[|buf|..] == [];
  }

  lemma FromToken(buf: string, s: nat, t: Token, e: nat)
    requires s < e <= |buf| && !IsSpace(buf[s]) && First(buf[s..]) == (t, e - s)
    ensures From(buf, s) == [t] + From(buf, e)
  {
    hide First, Lex, Skip, WordLen;
    LexStep(buf[s..]);
    assert buf[s..][e - s..] == buf[e..];
  }

  lemma SymbolAt(buf: string, s: nat)
    requires s < |buf| && IsSymbol(buf[s])
    ensures var double := buf[s] == '>' && s + 1 < |buf| && buf[s + 1] == '>';
            From(buf, s) == [Sym(if double then '+' else buf[s])] + From(buf, if double then s + 2 else s + 1)
  {
    var double := buf[s] == '>' && s + 1 < |buf| && buf[s + 1] == '>';
    assert buf[s..][0] == buf[s] && (s + 1 < |buf| ==> buf[s..][1] == buf[s + 1]);
    FromToken(buf, s, Sym(if double then '+' else buf[s]), if double then s + 2 else s + 1);
  }

  lemma WordRun(s: string, n: nat)
    requires n <= |s| && (forall i :: 0 <= i < n ==> IsWordChar(s[i])) && (n < |s| ==> !IsWordChar(s[n]))
    ensures WordLen(s) == n
  {
  }

  lemma WordAt(buf: string, s: nat, e: nat)
    requires WordSpan(buf, Span(s, e))
    ensures From(buf, s) == [Word(buf[s..e])] + From(buf, e)
  {
    hide WordLen;
    var w := buf[s..];
    assert forall i :: 0 <= i < e - s ==> w[i] == buf[s + i];
    WordRun(w, e - s);
    assert w[..e - s] == buf[s..e];
    FromToken(buf, s, Word(buf[s..e]), e);
  }

  /** The first token, if any, starts with the character at s. */
  lemma PeekAt(buf: string, s: nat, toks: string)
    requires s <= |buf| && (s < |buf| ==> !IsSpace(buf[s])) && forall c :: c in toks ==> IsSymbol(c)
    ensures Peek(From(buf, s), toks) == (s < |buf| && buf[s] in toks)
  {
    hide From;
    if s == |buf| {
      FromEnd(buf);
    } else if IsSymbol(buf[s]) {
      SymbolAt(buf, s);
    } else {
      var e := WordEnd(buf, s);
      WordAt(buf, s, e);
    }
  }

  lemma WordEnd(buf: string, s: nat) returns (e: nat)
    requires s < |buf| && IsWordChar(buf[s])
    ensures WordSpan(buf, Span(s, e))
  {
    e := s + 1;
    while e < |buf| && IsWordChar(buf[e])
      invariant s < e <= |buf| && forall i :: s <= i < e ==> IsWordChar(buf[i])
    {
      e := e + 1;
    }
  }

  class Parser {
    const buf: string    // the line, without its final NUL
    var ps: nat          // *ps as an offset

    constructor (buf: string)
      ensures this.buf == buf && ps == 0
    {
      this.buf, ps := buf, 0;
    }

    ghost function Rest(): seq<Token>
      reads this
      requires ps <= |buf|
    {
      From(buf, ps)
    }

    /** The loop that steps over white space. */
    method SkipSpaces(s0: nat) returns (s: nat)
      requires s0 <= |buf|
      ensures s0 <= s <= |buf| && (s < |buf| ==> !IsSpace(buf[s]))
      ensures From(buf, s) == From(buf, s0)
    {
      hide From;
      s := s0;
      while s < |buf| && IsSpace(buf[s])
        invariant s0 <= s <= |buf| && From(buf, s) == From(buf, s0)
      {
        FromSpace(buf, s);
        s := s + 1;
      }
    }

    /** gettoken: 'a' for a word, '+' for >>, NUL at the end, else the symbol itself. */
    method Gettoken() returns (tok: char, span: Span)
      requires ps <= |buf|
      modifies this`ps
      ensures old(ps) <= ps <= |buf|
      ensures old(Rest()) == [] ==> tok == '\0' && Rest() == []
      ensures old(Rest()) != [] ==> old(ps) < ps && Rest() == old(Rest())[1..]
      ensures old(Rest()) != [] && old(Rest())[0].Sym? ==> tok == old(Rest())[0].c && tok != 'a' && tok != '\0'
      ensures old(Rest()) != [] && old(Rest())[0].Word? ==>
                tok == 'a' && WordSpan(buf, span) && TextOf(buf, span) == old(Rest())[0].text
    {
      hide From;
      var s := SkipSpaces(ps);
      var q := s;
      if s == |buf| {
        FromEnd(buf);
        tok := '\0';
      } else if IsSymbol(buf[s]) {
        SymbolAt(buf, s);
        tok := buf[s];
        s := s + 1;
        if tok == '>' && s < |buf| && buf[s] == '>' {
          tok := '+';
          s := s + 1;
        }
      } else {
        tok := 'a';
        while s < |buf| && !IsSpace(buf[s]) && !IsSymbol(buf[s])
          invariant q <= s <= |buf| && forall i :: q <= i < s ==> IsWordChar(buf[i])
        {
          s := s + 1;
        }
        WordAt(buf, q, s);
      }
      span := Span(q, s);
      ps := SkipSpaces(s);
    }

    /** peek */
    method Peek(toks: string) returns (r: bool)
      requires ps <= |buf| && forall c :: c in toks ==> IsSymbol(c)
      modifies this`ps
      ensures old(ps) <= ps <= |buf| && Rest() == old(Rest()) && (ps < |buf| ==> !IsSpace(buf[ps]))
      ensures r == ShellGrammar.Peek(Rest(), toks)
    {
      hide From;
      ps := SkipSpaces(ps);
      PeekAt(buf, ps, toks);
      r := ps < |buf| && buf[ps] in toks;
    }
  
    /** What a parser method may return, against the grammar's answer. */
    ghost predicate Agrees(r: Option<Cmd<Span>>, p: Parse<Cmd<string>>)
      reads this
    {
      match p
      case Panic => r.None?
      case Ok(c, rest) => r.Some? && ps <= |buf| && SpansOk(buf, r.value) && Read(buf, r.value) == c && Rest() == rest
    }

    /** parseredirs, as the list of redirections to wrap around the command. */
    method ParseRedirs() returns (r: Option<Reds>)
      requires ps <= |buf|
      modifies this`ps
      ensures old(ps) <= ps <= |buf|
      ensures match PReds(old(Rest()))
              case Panic => r.None?
              case Ok(reds, rest) => r.Some? && RedsOk(buf, r.value) && ReadReds(buf, r.value) == reds && Rest() == rest
    {
      hide From, WordSpan, TextOf;
      var reds: Reds := [];
      ThenNothing(PReds(Rest()));
      var more := Peek("<>");
      while more
        invariant old(ps) <= ps <= |buf| && RedsOk(buf, reds) && more == ShellGrammar.Peek(Rest(), "<>")
        invariant PReds(old(Rest())) == Then(ReadReds(buf, reds), PReds(Rest()))
        decreases |buf| - ps
      {
        ThenStep(ReadReds(buf, reds), Rest());
        var tok, _ := Gettoken();
        var tok2, file := Gettoken();
        if tok2 != 'a' { return None; }
        assert ReadReds(buf, reds + [(file, tok != '<')]) == ReadReds(buf, reds) + [(TextOf(buf, file), tok != '<')];
        reds := reds + [(file, tok != '<')];
        more := Peek("<>");
      }
      return Some(reds);
    }
  
    /** parseexec */
    method ParseExec() returns (r: Option<Cmd<Span>>)
      requires ps <= |buf|
      modifies this`ps
      ensures old(ps) <= ps <= |buf| && Agrees(r, PExec(old(Rest())))
      decreases |buf| - ps, 1
    {
      hide From, PReds, PArgs, Read, SpansOk, Wrap, PBlock;
      var block := Peek("(");
      if block {
        r := ParseBlock();
        return;
      }
      var reds := ParseRedirs();
      if reds.None? { return None; }
      r := ParseWords(reds.value);
    }

    /** The word loop of parseexec. */
    method ParseWords(reds0: Reds) returns (r: Option<Cmd<Span>>)
      requires ps <= |buf| && RedsOk(buf, reds0)
      modifies this`ps
      ensures old(ps) <= ps <= |buf| && Agrees(r, PArgs([], ReadReds(buf, reds0), old(Rest())))
    {
      hide From, PReds, WordSpan, TextOf, Wrap, ReadReds;
      var argv: seq<Span> := [];
      var reds := reds0;
      assert Texts(buf, argv) == [];
      while true
        invariant old(ps) <= ps <= |buf| && RedsOk(buf, reds) && (forall i :: 0 <= i < |argv| ==> WordSpan(buf, argv[i]))
        invariant PArgs([], ReadReds(buf, reds0), old(Rest())) == PArgs(Texts(buf, argv), ReadReds(buf, reds), Rest())
        decreases |buf| - ps
      {
        var stop := Peek("|)&;");
        if stop { break; }
        ghost var ts := Rest();
        var tok, span := Gettoken();
        if tok == '\0' { break; }
        if tok != 'a' { return None; }
        assert Texts(buf, argv + [span]) == Texts(buf, argv) + [TextOf(buf, span)];
        argv := argv + [span];
        if |argv| >= MAXARGS { return None; }
        var more := ParseRedirs();
        if more.None? { return None; }
        ReadRedsConcat(buf, reds, more.value);
        reds := reds + more.value;
      }
      ReadWrap(buf, Exec(argv), reds);
      return Some(Wrap(Exec(argv), reds));
    }

    /** parseblock */
    method ParseBlock() returns (r: Option<Cmd<Span>>)
      requires ps <= |buf| && ShellGrammar.Peek(Rest(), "(")
      modifies this`ps
      ensures old(ps) <= ps <= |buf| && Agrees(r, PBlock(old(Rest())))
      decreases |buf| - ps, 0
    {
      hide From, PReds, PLine, Read, SpansOk, Wrap;
      var tok, _ := Gettoken();
      r := ParseLine();
      if r.None? { return None; }
      var close := Peek(")");
      if !close { return None; }
      var tok2, _ := Gettoken();
      var reds := ParseRedirs();
      if reds.None? { return None; }
      ReadWrap(buf, r.value, reds.value);
      return Some(Wrap(r.value, reds.value));
    }

    /** parsepipe */
    method ParsePipe() returns (r: Option<Cmd<Span>>)
      requires ps <= |buf|
      modifies this`ps
      ensures old(ps) <= ps <= |buf| && Agrees(r, PPipe(old(Rest())))
      decreases |buf| - ps, 2
    {
      hide From, PExec;
      r := ParseExec();
      if r.None? { return; }
      var bar := Peek("|");
      if bar {
        var tok, _ := Gettoken();
        var right := ParsePipe();
        if right.None? { return None; }
        r := Some(Pipe(r.value, right.value));
      }
    }

    /** parseline */
    method ParseLine() returns (r: Option<Cmd<Span>>)
      requires ps <= |buf|
      modifies this`ps
      ensures old(ps) <= ps <= |buf| && Agrees(r, PLine(old(Rest())))
      decreases |buf| - ps, 3
    {
      hide From, PPipe;
      r := ParsePipe();
      if r.None? { return; }
      var cmd := r.value;
      ghost var p := PPipe(old(Rest()));
      var amp := Peek("&");
      while amp
        invariant old(ps) <= ps <= |buf| && SpansOk(buf, cmd) && amp == ShellGrammar.Peek(Rest(), "&")
        invariant PBacks(p.value, p.rest) == PBacks(Read(buf, cmd), Rest())
        decreases |buf| - ps
      {
        var tok, _ := Gettoken();
        cmd := Back(cmd);
        amp := Peek("&");
      }
      r := Some(cmd);
      var semi := Peek(";");
      if semi {
        var tok, _ := Gettoken();
        var right := ParseLine();
        if right.None? { return None; }
        r := Some(List(cmd, right.value));
      }
    }
  }

  lemma ReadRedsConcat(buf: string, a: Reds, b: Reds)
    ensures ReadReds(buf, a + b) == ReadReds(buf, a) + ReadReds(buf, b)
  {
  }

  /** Redirections already read, then the rest of them. */
  ghost function Then(done: seq<(string, bool)>, p: Parse<seq<(string, bool)>>): Parse<seq<(string, bool)>> {
    match p
    case Panic => Panic
    case Ok(reds, rest) => Ok(done + reds, rest)
  }

  lemma ThenNothing(p: Parse<seq<(string, bool)>>)
    ensures Then([], p) == p
  {
    if p.Ok? { assert [] + p.value == p.value; }
  }

  lemma ThenStep(done: seq<(string, bool)>, ts: seq<Token>)
    requires Peek(ts, "<>")
    ensures if |ts| < 2 || !ts[1].Word? then Then(done, PReds(ts)) == Panic
            else Then(done, PReds(ts)) == Then(done + [(ts[1].text, ts[0].c != '<')], PReds(ts[2..]))
  {
    hide PReds;
    RedsStep(ts);
    if |ts| >= 2 && ts[1].Word? && PReds(ts[2..]).Ok? {
      var r, more := (ts[1].text, ts[0].c != '<'), PReds(ts[2..]).value;
      assert done + ([r] + more) == (done + [r]) + more;
    }
  }

  lemma RedsStep(ts: seq<Token>)
    requires Peek(ts, "<>")
    ensures PReds(ts) == if |ts| < 2 || !ts[1].Word? then Panic
                         else Then([(ts[1].text, ts[0].c != '<')], PReds(ts[2..]))
  {
  }

  // ----- nulterminate -----

  ghost function Spans(c: Cmd<Span>): set<Span> {
    match c
    case Exec(argv) => set i | 0 <= i < |argv| :: argv[i]
    case Redir(d, file, _) => Spans(d) + {file}
    case Pipe(l, r) => Spans(l) + Spans(r)
    case List(l, r) => Spans(l) + Spans(r)
    case Back(d) => Spans(d)
  }

  lemma SpansAreWords(buf: string, c: Cmd<Span>)
    requires SpansOk(buf, c)
    ensures forall sp :: sp in Spans(c) ==> WordSpan(buf, sp)
  {
  }

  ghost predicate IsEnd(c: Cmd<Span>, i: nat) {
    exists sp :: sp in Spans(c) && sp.eq == i
  }

  /** Each position that ends a word of c becomes NUL; nothing else changes. */
  method Nulterminate(a: array<char>, c: Cmd<Span>)
    requires forall sp :: sp in Spans(c) ==> sp.eq < a.Length
    modifies a
    ensures forall i :: 0 <= i < a.Length ==> a[i] == if IsEnd(c, i) then '\0' else old(a[i])
    decreases c
  {
    match c
    case Exec(argv) =>
      var i := 0;
      while i < |argv|
        invariant 0 <= i <= |argv|
        invariant forall k :: 0 <= k < a.Length ==> a[k] == if EndsBefore(argv, i, k) then '\0' else old(a[k])
      {
        assert argv[i] in Spans(c);
        a[argv[i].eq] := '\0';
        i := i + 1;
      }
      forall k | 0 <= k < a.Length ensures EndsBefore(argv, |argv|, k) <==> IsEnd(c, k) {
        if EndsBefore(argv, |argv|, k) {
          var j :| 0 <= j < |argv| && argv[j].eq == k;
          assert argv[j] in Spans(c);
        }
      }
    case Redir(d, file, _) =>
      assert file in Spans(c) && forall sp :: sp in Spans(d) ==> sp in Spans(c);
      Nulterminate(a, d);
      a[file.eq] := '\0';
      assert forall k :: IsEnd(c, k) <==> IsEnd(d, k) || k == file.eq by { EndsRedir(c); }
    case Pipe(l, r) =>
      EndsTwo(c, l, r);
      Nulterminate(a, l);
      Nulterminate(a, r);
    case List(l, r) =>
      EndsTwo(c, l, r);
      Nulterminate(a, l);
      Nulterminate(a, r);
    case Back(d) =>
      Nulterminate(a, d);
  }

  ghost predicate EndsBefore(argv: seq<Span>, n: nat, k: nat) {
    exists j :: 0 <= j < n && j < |argv| && argv[j].eq == k
  }

  lemma EndsRedir(c: Cmd<Span>)
    requires c.Redir?
    ensures forall k :: IsEnd(c, k) <==> IsEnd(c.cmd, k) || k == c.file.eq
  {
    assert c.file in Spans(c);
    forall k | IsEnd(c.cmd, k) ensures IsEnd(c, k) {
      var sp :| sp in Spans(c.cmd) && sp.eq == k;
      assert sp in Spans(c);
    }
  }

  lemma EndsTwo(c: Cmd<Span>, l: Cmd<Span>, r: Cmd<Span>)
    requires Spans(c) == Spans(l) + Spans(r)
    ensures forall k :: IsEnd(c, k) <==> IsEnd(l, k) || IsEnd(r, k)
  {
    hide Spans, IsEnd;
    forall k ensures IsEnd(c, k) <==> IsEnd(l, k) || IsEnd(r, k) { EndOfTwo(c, l, r, k); }
  }

  lemma EndOfTwo(c: Cmd<Span>, l: Cmd<Span>, r: Cmd<Span>, k: nat)
    requires Spans(c) == Spans(l) + Spans(r)
    ensures IsEnd(c, k) <==> IsEnd(l, k) || IsEnd(r, k)
  {
    hide Spans;
    if IsEnd(l, k) {
      var sp :| sp in Spans(l) && sp.eq == k;
      assert sp in Spans(c);
    } else if IsEnd(r, k) {
      var sp :| sp in Spans(r) && sp.eq == k;
      assert sp in Spans(c);
    }
  }

  /** The C string that starts at q. */
  ghost function CStr(s: string, q: nat): string
    decreases |s| - q
  {
    if q < |s| && s[q] != '\0' then [s[q]] + CStr(s, q + 1) else ""
  }

  lemma {:induction false} CStrIs(s: string, q: nat, e: nat)
    requires q <= e < |s| && s[e] == '\0' && forall i :: q <= i < e ==> s[i] != '\0'
    ensures CStr(s, q) == s[q..e]
    decreases e - q
  {
    if q < e {
      CStrIs(s, q + 1, e);
      assert s[q..e] == [s[q]] + s[q + 1..e];
    }
  }

  /** No NUL lands inside a word, so every stored pointer reads as exactly its lexeme. */
  lemma PointersRead(buf: string, c: Cmd<Span>, s: string, sp: Span)
    requires SpansOk(buf, c) && sp in Spans(c) && |s| == |buf| + 1
    requires forall i :: 0 <= i < |buf| ==> buf[i] != '\0'
    requires forall i :: 0 <= i <= |buf| ==> s[i] == if IsEnd(c, i) || i == |buf| then '\0' else buf[i]
    ensures CStr(s, sp.q) == TextOf(buf, sp)
  {
    SpansAreWords(buf, c);
    assert WordSpan(buf, sp) && IsEnd(c, sp.eq);
    forall i | sp.q <= i < sp.eq ensures s[i] == buf[i] {
      forall other | other in Spans(c) ensures other.eq != i {
        assert WordSpan(buf, other);
      }
    }
    CStrIs(s, sp.q, sp.eq);
    assert s[sp.q..sp.eq] == buf[sp.q..sp.eq];
  }

  /** parsecmd on a NUL-terminated line: the tree of the grammar, its words in place in the
      buffer as C strings; None is a panic. */
  method Parsecmd(a: array<char>, n: nat) returns (r: Option<Cmd<Span>>)
    requires a.Length == n + 1 && a[n] == '\0' && forall i :: 0 <= i < n ==> a[i] != '\0'
    modifies a
    ensures match PCmd(Lex(old(a[..n])))
            case Panic => r.None? && a[..] == old(a[..])
            case Ok(c, _) => && r.Some? && Read(old(a[..n]), r.value) == c
                             && forall sp :: sp in Spans(r.value) ==> CStr(a[..], sp.q) == TextOf(old(a[..n]), sp)
    ensures r.Some? ==> ShellSyntax.Means(old(a[..n]), Read(old(a[..n]), r.value))
    ensures r.None? ==> forall c :: !ShellSyntax.Means(old(a[..n]), c)
  {
    hide PLine, Lex, Read, SpansOk, Spans, IsEnd, CStr, ShellSyntax.Means;
    var buf := a[..n];
    ShellSyntax.LineRefused(buf);
    var parser := new Parser(buf);
    assert buf[0..] == buf;
    r := parser.ParseLine();
    if r.None? { return; }
    var more := parser.Peek("");
    StartsEmpty(buf, parser.ps);
    if parser.ps != |buf| { return None; }
    ShellSyntax.LineMeans(buf, Read(buf, r.value));
    SpansEnd(buf, r.value);
    Nulterminate(a, r.value);
    forall sp | sp in Spans(r.value) ensures CStr(a[..], sp.q) == TextOf(buf, sp) {
      PointersRead(buf, r.value, a[..], sp);
    }
  }

  lemma SpansEnd(buf: string, c: Cmd<Span>)
    requires SpansOk(buf, c)
    ensures forall sp :: sp in Spans(c) ==> sp.eq < |buf| + 1
  {
    SpansAreWords(buf, c);
  }

  lemma StartsEmpty(buf: string, s: nat)
    requires s <= |buf| && (s < |buf| ==> !IsSpace(buf[s]))
    ensures From(buf, s) == [] <==> s == |buf|
  {
    FromEnd(buf);
    if s < |buf| { assert Skip(buf[s..]) == buf[s..]; }
  }
}
