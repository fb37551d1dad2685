/** What xv6's shell reads (xv6/user/sh.c): commands, the parser as a function of the text still to be read, and
printing with full parentheses. */
module ShellSyntax {

  const MAXARGS := 10

  /** A parsed command whose words are of type W: texts here, slices of the line in the program. */
  datatype Cmd<W> =
    | Exec(argv: seq<W>)
    | Redir(cmd: Cmd<W>, file: W, mode: int, fd: int)
    | PipeTo(left: Cmd<W>, right: Cmd<W>)
    | Sequence(left: Cmd<W>, right: Cmd<W>)
    | Back(cmd: Cmd<W>)

  const VT := 11 as char

  predicate IsBlank(c: char) {
    c == ' ' || c == '\t' || c == '\r' || c == '\n' || c == VT
  }

  predicate IsSymbol(c: char) {
    c == '<' || c == '|' || c == '>' || c == '&' || c == ';' || c == '(' || c == ')'
  }

  predicate InWord(c: char) {
    !IsBlank(c) && !IsSymbol(c)
  }

  // Tokens.

  function Skip(t: string): (u: string)
    ensures |u| <= |t| && (u != "" ==> !IsBlank(u[0]))
  {
    if t != "" && IsBlank(t[0]) then Skip(t[1..]) else t
  }

  function WordLength(t: string): (n: nat)
    ensures n <= |t|
  {
    if t != "" && InWord(t[0]) then 1 + WordLength(t[1..]) else 0
  }

  datatype Tok = Tok(kind: char, word: string, rest: string)

  const END := '\0'   // the token kinds besides the symbols themselves
  const WORD := 'a'
  const APPEND := '+'

  function TokenLength(u: string): (n: nat)
    ensures n <= |u| && (u != "" && !IsBlank(u[0]) ==> n > 0)
  {
    if u == "" then 0
    else if u[0] == '>' && |u| > 1 && u[1] == '>' then 2
    else if IsSymbol(u[0]) then 1
    else WordLength(u)
  }

  function TokenKind(u: string): (k: char) {
    if u == "" then END
    else if u[0] == '>' && |u| > 1 && u[1] == '>' then APPEND
    else if IsSymbol(u[0]) then u[0]
    else WORD
  }

  function GetToken(t: string): (k: Tok)
    ensures |k.rest| <= |t| && (k.kind != END ==> |k.rest| < |t|)
  {
    var u := Skip(t);
    var n := TokenLength(u);
    Tok(TokenKind(u), u[..n], Skip(u[n..]))
  }

  /** The next character that is not a blank is one of `toks`. */
  predicate Peek(t: string, toks: set<char>) {
    Skip(t) != "" && Skip(t)[0] in toks
  }

  // The parser.

  datatype Parse = Panic | Done(cmd: Cmd<string>, rest: string)

  const O_RDONLY := 0x000
  const O_WRONLY := 0x001
  const O_CREATE := 0x200
  const O_TRUNC := 0x400

  function Mode(kind: char): (m: int) {
    if kind == '<' then O_RDONLY else if kind == '>' then O_WRONLY + O_CREATE + O_TRUNC else O_WRONLY + O_CREATE
  }

  function Fd(kind: char): (fd: int) {
    if kind == '<' then 0 else 1
  }

  function ParseLine(t: string): (r: Parse)
    ensures r.Done? ==> |r.rest| <= |t|
    decreases |t|, 3
  {
    var p := ParsePipe(t);
    if p.Panic? then p
    else
      var b := Backs(p.cmd, p.rest);
      if !Peek(b.rest, {';'}) then Done(b.cmd, Skip(b.rest))
      else
        var l := ParseLine(GetToken(b.rest).rest);
        if l.Panic? then l else Done(Sequence(b.cmd, l.cmd), l.rest)
  }

  function Backs(c: Cmd<string>, t: string): (r: Parse)
    ensures r.Done? && |r.rest| <= |t|
    decreases |t|
  {
    if Peek(t, {'&'}) then Backs(Back(c), GetToken(t).rest) else Done(c, Skip(t))
  }

  function ParsePipe(t: string): (r: Parse)
    ensures r.Done? ==> |r.rest| <= |t|
    decreases |t|, 2
  {
    var e := ParseExec(t);
    if e.Panic? then e
    else if !Peek(e.rest, {'|'}) then Done(e.cmd, Skip(e.rest))
    else
      var p := ParsePipe(GetToken(e.rest).rest);
      if p.Panic? then p else Done(PipeTo(e.cmd, p.cmd), p.rest)
  }

  function ParseRedirs(c: Cmd<string>, t: string): (r: Parse)
    ensures r.Done? ==> |r.rest| <= |t|
    decreases |t|
  {
    if !Peek(t, {'<', '>'}) then Done(c, Skip(t))
    else
      var tok := GetToken(t);
      var f := GetToken(tok.rest);
      if f.kind != WORD then Panic
      else ParseRedirs(Redir(c, f.word, Mode(tok.kind), Fd(tok.kind)), f.rest)
  }

  function ParseBlock(t: string): (r: Parse)
    ensures r.Done? ==> |r.rest| <= |t|
    decreases |t|, 0
  {
    if !Peek(t, {'('}) then Panic
    else
      var l := ParseLine(GetToken(t).rest);
      if l.Panic? || !Peek(l.rest, {')'}) then Panic
      else ParseRedirs(l.cmd, GetToken(l.rest).rest)
  }

  /** The argument goes to the exec node, under the redirections already read. */
  function AddArg<W>(c: Cmd<W>, w: W): (r: Cmd<W>) {
    match c
    case Exec(argv) => Exec(argv + [w])
    case Redir(sub, file, mode, fd) => Redir(AddArg(sub, w), file, mode, fd)
    case _ => c
  }

  function ParseArgs(c: Cmd<string>, argc: nat, t: string): (r: Parse)
    ensures r.Done? ==> |r.rest| <= |t|
    decreases |t|
  {
    if Peek(t, {'|', ')', '&', ';'}) then Done(c, Skip(t))
    else
      var tok := GetToken(t);
      if tok.kind == END then Done(c, tok.rest)
      else if tok.kind != WORD || argc + 1 >= MAXARGS then Panic
      else
        var p := ParseRedirs(AddArg(c, tok.word), tok.rest);
        if p.Panic? then p else ParseArgs(p.cmd, argc + 1, p.rest)
  }

  function ParseExec(t: string): (r: Parse)
    ensures r.Done? ==> |r.rest| <= |t|
    decreases |t|, 1
  {
    if Peek(t, {'('}) then ParseBlock(t)
    else
      var p := ParseRedirs(Exec([]), t);
      if p.Panic? then p else ParseArgs(p.cmd, 0, p.rest)
  }

  /** The whole line must be read. */
  function ParseCmd(s: string): (r: Parse)
  {
    var l := ParseLine(s);
    if l.Done? && Skip(l.rest) == "" then Done(l.cmd, "") else Panic
  }

  // Printing.

  /** No blank (space, tab, carriage return, newline, vertical tab) and none of the seven symbols. */
  predicate WordOk(w: string) {
    w != "" && forall i :: 0 <= i < |w| ==> w[i] !in BLANKS && w[i] !in "<|>&;()"
  }

  const BLANKS := " \t\r\n\U{000B}"

  lemma WordOkIs(w: string)
    ensures WordOk(w) <==> w != "" && forall i :: 0 <= i < |w| ==> InWord(w[i])
  {
    forall i | 0 <= i < |w| ensures InWord(w[i]) <==> w[i] !in BLANKS && w[i] !in "<|>&;()" {
      InWordIs(w[i]);
    }
  }

  lemma InWordIs(c: char)
    ensures IsBlank(c) <==> c in BLANKS
    ensures IsSymbol(c) <==> c in "<|>&;()"
  {
    var signs := "<|>&;()";
    assert BLANKS[0] == ' ' && BLANKS[1] == '\t' && BLANKS[2] == '\r' && BLANKS[3] == '\n' && BLANKS[4] == VT;
    assert signs[0] == '<' && signs[1] == '|' && signs[2] == '>' && signs[3] == '&' && signs[4] == ';';
    assert signs[5] == '(' && signs[6] == ')';
  }

  predicate WordsOk(ws: seq<string>) {
    forall i :: 0 <= i < |ws| ==> WordOk(ws[i])
  }

  /** What a redirection can be: input read only, output created and truncated, output created and kept. */
  predicate RedirOk(mode: int, fd: int) {
    (mode == 0 && fd == 0) || (mode == 0x601 && fd == 1) || (mode == 0x201 && fd == 1)
  }

  lemma KindRedir(kind: char)
    requires IsRedirKind(kind)
    ensures RedirOk(Mode(kind), Fd(kind))
  {
  }

  lemma RedirKind(mode: int, fd: int) returns (kind: char)
    requires RedirOk(mode, fd)
    ensures IsRedirKind(kind) && Mode(kind) == mode && Fd(kind) == fd
  {
    kind := if mode == 0 then '<' else if mode == 0x601 then '>' else APPEND;
  }

  /** The trees that have a text: at most nine arguments, words of word characters, the three kinds of
      redirection. */
  predicate Printable(c: Cmd<string>) {
    match c
    case Exec(argv) => |argv| <= 9 && WordsOk(argv)
    case Redir(sub, file, mode, fd) => Printable(sub) && WordOk(file) && RedirOk(mode, fd)
    case PipeTo(l, r) => Printable(l) && Printable(r)
    case Sequence(l, r) => Printable(l) && Printable(r)
    case Back(sub) => Printable(sub)
  }

  predicate IsRedirKind(kind: char) {
    kind == '<' || kind == '>' || kind == APPEND
  }

  function Args(argv: seq<string>): (t: string) {
    if argv == [] then "" else [' '] + argv[0] + Args(argv[1..])
  }

  function Arrow(mode: int): (t: string) {
    if mode == 0 then "<" else if mode == 0x601 then ">" else ">>"
  }

  function Print(c: Cmd<string>): (t: string) {
    match c
    case Exec(argv) => Args(argv)
    case Redir(sub, file, mode, fd) => Enclosed(Print(sub)) + Arrow(mode) + file
    case PipeTo(l, r) => Enclosed(Print(l)) + "|" + Enclosed(Print(r))
    case Sequence(l, r) => Enclosed(Print(l)) + ";" + Enclosed(Print(r))
    case Back(sub) => Enclosed(Print(sub)) + "&"
  }

  function Enclosed(t: string): (r: string) {
    "(" + t + ")"
  }

  // Reading back, one token at a time.

  /** A symbol at the front of the text is the next token, and nothing is skipped after it. */
  lemma SymbolToken(c: char, t: string)
    requires IsSymbol(c) && c != '>' && (t != "" ==> !IsBlank(t[0]))
    ensures Skip([c] + t) == [c] + t && GetToken([c] + t) == Tok(c, [c], t)
  {
    assert ([c] + t)[1..] == t && ([c] + t)[..1] == [c];
  }

  lemma {:induction false} WordEnds(w: string, t: string)
    requires (forall i :: 0 <= i < |w| ==> InWord(w[i])) && (t == "" || !InWord(t[0]))
    ensures WordLength(w + t) == |w|
  {
    if w == "" {
      assert w + t == t;
    } else {
      assert (w + t)[1..] == w[1..] + t;
      WordEnds(w[1..], t);
    }
  }

  lemma WordToken(w: string, t: string)
    requires WordOk(w) && (t == "" || !InWord(t[0]))
    ensures Skip(w + t) == w + t && GetToken(w + t) == Tok(WORD, w, Skip(t))
    ensures GetToken([' '] + w + t) == Tok(WORD, w, Skip(t)) && Skip([' '] + w + t) == w + t
  {
    WordOkIs(w);
    WordEnds(w, t);
    var u := w + t;
    assert u[0] == w[0] && u[..|w|] == w && u[|w|..] == t;
    assert ([' '] + w + t)[1..] == u;
  }

  lemma ArrowToken(kind: char, t: string)
    requires IsRedirKind(kind) && t != "" && InWord(t[0])
    ensures var u := Arrow(Mode(kind)) + t;
            GetToken(u) == Tok(kind, Arrow(Mode(kind)), t) && Peek(u, {'<', '>'}) && Skip(u) == u
  {
    var a := Arrow(Mode(kind));
    var u := a + t;
    assert u[0] == a[0] && u[..|a|] == a && u[|a|..] == t;
    assert |a| == 1 ==> u[1] == t[0];
  }

  /** What may follow a command line inside parentheses. */
  predicate Ends(t: string) {
    t == "" || t[0] == ')'
  }

  lemma RedirsNone(c: Cmd<string>, t: string)
    requires t == "" || (!IsBlank(t[0]) && t[0] != '<' && t[0] != '>')
    ensures ParseRedirs(c, t) == Done(c, t)
  {
  }

  lemma ArgsEnd(c: Cmd<string>, argc: nat, t: string)
    requires Ends(t)
    ensures Skip(t) == t && ParseArgs(c, argc, t) == Done(c, t)
  {
  }

  /** One argument more: no redirection follows it in printed text. */
  lemma ArgsStep(done: seq<string>, w: string, rest: string)
    requires WordOk(w) && |done| + 1 < MAXARGS && (rest == "" || !InWord(rest[0]))
    requires Skip(rest) == "" || (Skip(rest)[0] != '<' && Skip(rest)[0] != '>')
    ensures ParseArgs(Exec(done), |done|, w + rest) == ParseArgs(Exec(done + [w]), |done| + 1, Skip(rest))
  {
    hide Skip, GetToken, ParseRedirs, IsBlank;
    WordToken(w, rest);
    RedirsNone(Exec(done + [w]), Skip(rest));
    WordOkIs(w);
    assert (w + rest)[0] == w[0] && InWord(w[0]);
    assert !Peek(w + rest, {'|', ')', '&', ';'});
  }

  /** The text that follows an argument: another one, or the end. */
  lemma ArgsFront(argv: seq<string>, t: string)
    requires Ends(t) && WordsOk(argv)
    ensures var rest := Args(argv) + t;
            && (rest == "" || !InWord(rest[0])) && (Skip(rest) == "" || (Skip(rest)[0] != '<' && Skip(rest)[0] != '>'))
            && (argv == [] ==> Skip(rest) == t)
            && (argv != [] ==> Skip(rest) == argv[0] + (Args(argv[1..]) + t))
  {
    hide Skip, Args;
    ArgsCons(argv, t);
    if argv != [] {
      var u := argv[0] + (Args(argv[1..]) + t);
      WordOkIs(argv[0]);
      assert u[0] == argv[0][0] && InWord(u[0]);
      BlankSkip(u);
    } else {
      TightSkip(t);
    }
  }

  lemma ArgsCons(argv: seq<string>, t: string)
    ensures Args(argv) + t == if argv == [] then t else [' '] + (argv[0] + (Args(argv[1..]) + t))
  {
    if argv != [] {
      Regroup([' '], argv[0], Args(argv[1..]), t);
    } else {
      assert "" + t == t;
    }
  }

  lemma Regroup(a: string, b: string, c: string, d: string)
    ensures a + b + c + d == a + (b + (c + d))
  {
  }

  lemma BlankSkip(u: string)
    requires u != "" && !IsBlank(u[0])
    ensures Skip([' '] + u) == u
  {
    assert ([' '] + u)[1..] == u;
  }

  lemma {:induction false} ArgsRead(done: seq<string>, argv: seq<string>, t: string)
    requires Ends(t) && WordsOk(argv) && |done| + |argv| < MAXARGS
    ensures ParseArgs(Exec(done), |done|, Skip(Args(argv) + t)) == Done(Exec(done + argv), t)
    decreases |argv|
  {
    hide ParseArgs, Skip, Args, WordOk, InWord;
    ArgsFront(argv, t);
    if argv == [] {
      assert done + argv == done;
      ArgsEnd(Exec(done), |done|, t);
    } else {
      var w := argv[0];
      ArgsFront(argv[1..], t);
      ArgsStep(done, w, Args(argv[1..]) + t);
      assert done + argv == done + [w] + argv[1..];
      ArgsRead(done + [w], argv[1..], t);
    }
  }

  /** A simple command reads back. */
  lemma ExecReads(argv: seq<string>, t: string)
    requires Ends(t) && WordsOk(argv) && |argv| < MAXARGS
    ensures ParseExec(Args(argv) + t) == Done(Exec(argv), t)
  {
    hide ParseArgs, Args, Skip, WordOk, ParseBlock, ParseRedirs;
    ArgsRead([], argv, t);
    ArgsFront(argv, t);
    assert [] + argv == argv;
    var u := Args(argv) + t;
    FrontOk(argv, t);
    RedirsSkip(Exec([]), u);
  }

  lemma FrontOk(argv: seq<string>, t: string)
    requires Ends(t) && WordsOk(argv)
    ensures !Peek(Args(argv) + t, {'('}) && !Peek(Args(argv) + t, {'<', '>'})
  {
    hide Skip;
    ArgsFront(argv, t);
    if argv != [] {
      WordOkIs(argv[0]);
    }
  }

  lemma RedirsSkip(c: Cmd<string>, t: string)
    requires !Peek(t, {'<', '>'})
    ensures ParseRedirs(c, t) == Done(c, Skip(t))
  {
  }

  // Parentheses.

  /** A text that starts with a symbol or is over: nothing to skip. */
  predicate Tight(t: string) {
    t == "" || IsSymbol(t[0])
  }

  lemma TightSkip(t: string)
    requires Tight(t)
    ensures Skip(t) == t
  {
  }

  lemma {:induction false} SkipTwice(t: string)
    ensures Skip(Skip(t)) == Skip(t)
    ensures GetToken(Skip(t)) == GetToken(t)
    ensures forall toks :: Peek(Skip(t), toks) == Peek(t, toks)
  {
  }

  /** The parser does not see leading blanks. */
  lemma RedirsAfterBlanks(c: Cmd<string>, t: string)
    ensures ParseRedirs(c, Skip(t)) == ParseRedirs(c, t)
  {
    hide Skip, GetToken;
    SkipTwice(t);
  }

  lemma ExecAfterBlanks(t: string)
    ensures ParseExec(Skip(t)) == ParseExec(t)
  {
    hide Skip, GetToken, ParseRedirs, ParseArgs, ParseLine;
    SkipTwice(t);
    RedirsAfterBlanks(Exec([]), t);
  }

  lemma LineAfterBlanks(t: string)
    ensures ParseLine(Skip(t)) == ParseLine(t)
  {
    hide Skip, GetToken, ParseExec, Backs;
    ExecAfterBlanks(t);
    PipeUnfold(t);
    PipeUnfold(Skip(t));
  }

  lemma PipeUnfold(t: string)
    ensures ParsePipe(t) == AfterExec(ParseExec(t))
  {
  }

  function AfterExec(e: Parse): (r: Parse) {
    if e.Panic? then e
    else if !Peek(e.rest, {'|'}) then Done(e.cmd, Skip(e.rest))
    else
      var p := ParsePipe(GetToken(e.rest).rest);
      if p.Panic? then p else Done(PipeTo(e.cmd, p.cmd), p.rest)
  }

  /** An enclosed command reads back, with the redirections that follow it. */
  lemma BlockReads(c: Cmd<string>, u: string, t: string)
    requires Tight(t) && ParseLine(u + ")" + t) == Done(c, ")" + t)
    ensures ParseExec(Enclosed(u) + t) == ParseRedirs(c, t)
  {
    hide ParseLine, ParseRedirs, ParseArgs, Skip, GetToken;
    var all := Enclosed(u) + t;
    assert all == "(" + (u + ")" + t);
    OpenToken(u + ")" + t);
    LineAfterBlanks(u + ")" + t);
    SymbolToken(')', t);
    assert ")" + t == [')'] + t;
    assert Peek(")" + t, {')'});
  }

  lemma OpenToken(t: string)
    ensures GetToken("(" + t).rest == Skip(t) && Peek("(" + t, {'('})
  {
    assert ("(" + t)[1..] == t;
  }

  lemma PipeReads(c: Cmd<string>, u: string, t: string)
    requires Tight(t) && ParseExec(u) == Done(c, t) && (t == "" || t[0] != '|')
    ensures ParsePipe(u) == Done(c, t)
  {
    hide ParseExec, Skip, GetToken;
    TightSkip(t);
  }

  lemma LineReads(c: Cmd<string>, u: string, t: string)
    requires Ends(t) && ParsePipe(u) == Done(c, t)
    ensures ParseLine(u) == Done(c, t)
  {
    hide ParsePipe, Skip, GetToken;
    TightSkip(t);
  }

  /** Enclosed commands on both sides of `|`. */
  lemma PipeToReads(l: Cmd<string>, r: Cmd<string>, u: string, v: string, t: string)
    requires Ends(t) && ParseExec(u) == Done(l, "|" + v) && ParsePipe(v) == Done(r, t) && v != "" && !IsBlank(v[0])
    ensures ParsePipe(u) == Done(PipeTo(l, r), t)
  {
    hide ParseExec, Skip, GetToken;
    SymbolToken('|', v);
    assert "|" + v == ['|'] + v;
    PipeUnfold(u);
  }

  lemma SequenceReads(l: Cmd<string>, r: Cmd<string>, u: string, v: string, t: string)
    requires Ends(t) && ParsePipe(u) == Done(l, ";" + v) && ParseLine(v) == Done(r, t) && v != "" && !IsBlank(v[0])
    ensures ParseLine(u) == Done(Sequence(l, r), t)
  {
    hide ParsePipe, Skip, GetToken;
    SymbolToken(';', v);
    assert ";" + v == [';'] + v;
    BacksNone(l, ";" + v);
  }

  lemma BacksNone(c: Cmd<string>, t: string)
    requires Tight(t) && (t == "" || t[0] != '&')
    ensures Backs(c, t) == Done(c, t)
  {
  }

  lemma BackReads(c: Cmd<string>, u: string, t: string)
    requires Ends(t) && ParsePipe(u) == Done(c, "&" + t)
    ensures ParseLine(u) == Done(Back(c), t)
  {
    hide ParsePipe, Skip, GetToken;
    SymbolToken('&', t);
    assert "&" + t == ['&'] + t;
    assert Backs(c, "&" + t) == Backs(Back(c), t);
    BacksNone(Back(c), t);
    TightSkip(t);
  }

  lemma RedirReads(c: Cmd<string>, kind: char, file: string, t: string)
    requires IsRedirKind(kind) && WordOk(file) && Tight(t) && (t == "" || (t[0] != '<' && t[0] != '>'))
    ensures ParseRedirs(c, Arrow(Mode(kind)) + file + t) == Done(Redir(c, file, Mode(kind), Fd(kind)), t)
  {
    hide Skip, GetToken, Arrow, Mode, Fd, IsBlank;
    var u := Arrow(Mode(kind)) + file + t;
    assert u == Arrow(Mode(kind)) + (file + t);
    WordOkIs(file);
    assert InWord((file + t)[0]) && (t == "" || !InWord(t[0]));
    ArrowToken(kind, file + t);
    WordToken(file, t);
    TightSkip(t);
    RedirsNone(Redir(c, file, Mode(kind), Fd(kind)), t);
  }

  /** Printing with full parentheses and parsing gives back the command. */
  lemma {:induction false} PrintParse(c: Cmd<string>, t: string)
    requires Printable(c) && Ends(t)
    ensures ParseLine(Print(c) + t) == Done(c, t)
    decreases c, 0
  {
    hide ParseLine, ParsePipe, ParseExec, ParseRedirs, WordOk, Enclosed, Arrow, Mode, Fd, Args;
    match c
    case Exec(argv) =>
      ExecReads(argv, t);
      PipeReads(c, Args(argv) + t, t);
      LineReads(c, Args(argv) + t, t);
    case Redir(sub, file, mode, fd) =>
      var kind := RedirKind(mode, fd);
      var tail := Arrow(mode) + file + t;
      assert Print(c) + t == Enclosed(Print(sub)) + tail;
      ArrowTight(kind, file + t);
      assert tail == Arrow(Mode(kind)) + (file + t);
      EnclosedReads(sub, tail);
      RedirReads(sub, kind, file, t);
      PipeReads(c, Print(c) + t, t);
      LineReads(c, Print(c) + t, t);
    case PipeTo(l, r) =>
      var v := Enclosed(Print(r)) + t;
      assert Print(c) + t == Enclosed(Print(l)) + ("|" + v);
      EnclosedReads(l, "|" + v);
      RedirsNone(l, "|" + v);
      EnclosedReads(r, t);
      RedirsNone(r, t);
      PipeReads(r, v, t);
      EnclosedFront(Print(r), t);
      PipeToReads(l, r, Print(c) + t, v, t);
      LineReads(c, Print(c) + t, t);
    case Sequence(l, r) =>
      var v := Enclosed(Print(r)) + t;
      assert Print(c) + t == Enclosed(Print(l)) + (";" + v);
      EnclosedReads(l, ";" + v);
      RedirsNone(l, ";" + v);
      PipeReads(l, Print(c) + t, ";" + v);
      EnclosedReads(r, t);
      RedirsNone(r, t);
      PipeReads(r, v, t);
      LineReads(r, v, t);
      EnclosedFront(Print(r), t);
      SequenceReads(l, r, Print(c) + t, v, t);
    case Back(sub) =>
      assert Print(c) + t == Enclosed(Print(sub)) + ("&" + t);
      EnclosedReads(sub, "&" + t);
      RedirsNone(sub, "&" + t);
      PipeReads(sub, Print(c) + t, "&" + t);
      BackReads(sub, Print(c) + t, t);
  }

  lemma EnclosedReads(c: Cmd<string>, t: string)
    requires Printable(c) && Tight(t)
    ensures ParseExec(Enclosed(Print(c)) + t) == ParseRedirs(c, t)
    decreases c, 1
  {
    hide ParseLine, ParseExec, ParseRedirs, Print, Printable, Enclosed;
    PrintParse(c, ")" + t);
    assert Print(c) + ")" + t == Print(c) + (")" + t);
    BlockReads(c, Print(c), t);
  }

  lemma EnclosedFront(u: string, t: string)
    ensures Enclosed(u) + t != "" && (Enclosed(u) + t)[0] == '('
  {
  }

  lemma ArrowTight(kind: char, t: string)
    ensures Tight(Arrow(Mode(kind)) + t)
  {
  }

  // What the parser can return.

  lemma {:induction false} WordLengthWord(t: string)
    ensures forall i :: 0 <= i < WordLength(t) ==> InWord(t[i])
    ensures WordLength(t) < |t| ==> !InWord(t[WordLength(t)])
  {
    if t != "" && InWord(t[0]) {
      WordLengthWord(t[1..]);
      assert forall i :: 1 <= i < |t| ==> t[i] == t[1..][i - 1];
    }
  }

  lemma TokenIsWord(t: string)
    requires GetToken(t).kind == WORD
    ensures WordOk(GetToken(t).word)
  {
    var u := Skip(t);
    WordLengthWord(u);
    WordOkIs(GetToken(t).word);
    assert forall i :: 0 <= i < WordLength(u) ==> u[..WordLength(u)][i] == u[i];
  }

  lemma ArrowKind(t: string)
    requires Peek(t, {'<', '>'})
    ensures IsRedirKind(GetToken(t).kind)
  {
  }

  lemma {:induction false} RedirsPrintable(c: Cmd<string>, t: string)
    requires Printable(c)
    ensures ParseRedirs(c, t).Done? ==>
              Printable(ParseRedirs(c, t).cmd) && ArgCount(ParseRedirs(c, t).cmd) == ArgCount(c)
    decreases |t|
  {
    hide Skip, GetToken, WordOk, Peek, Mode, Fd, RedirOk;
    if Peek(t, {'<', '>'}) {
      var tok := GetToken(t);
      var f := GetToken(tok.rest);
      if f.kind == WORD {
        ArrowKind(t);
        KindRedir(tok.kind);
        TokenIsWord(tok.rest);
        TokenShortens(t);
        RedirsPrintable(Redir(c, f.word, Mode(tok.kind), Fd(tok.kind)), f.rest);
      }
    }
  }

  lemma TokenShortens(t: string)
    requires GetToken(t).kind != END
    ensures |GetToken(t).rest| < |t| && |GetToken(GetToken(t).rest).rest| < |t|
  {
  }

  /** The arguments of the command under its redirections. */
  function ArgCount(c: Cmd<string>): (n: int) {
    match c
    case Exec(argv) => |argv|
    case Redir(sub, _, _, _) => ArgCount(sub)
    case _ => -1
  }

  lemma {:induction false} AddArgPrintable(c: Cmd<string>, w: string)
    requires Printable(c) && WordOk(w) && 0 <= ArgCount(c) < MAXARGS - 1
    ensures Printable(AddArg(c, w)) && ArgCount(AddArg(c, w)) == ArgCount(c) + 1
  {
    hide WordOk;
    if c.Redir? {
      AddArgPrintable(c.cmd, w);
    }
  }

  lemma {:induction false} ArgsPrintable(c: Cmd<string>, argc: nat, t: string)
    requires Printable(c) && ArgCount(c) == argc < MAXARGS
    ensures ParseArgs(c, argc, t).Done? ==> Printable(ParseArgs(c, argc, t).cmd)
    decreases |t|
  {
    hide Skip, GetToken, WordOk, Peek, Printable, ArgCount, ParseRedirs, AddArg;
    var tok := GetToken(t);
    if !Peek(t, {'|', ')', '&', ';'}) && tok.kind == WORD && argc + 1 < MAXARGS {
      TokenIsWord(t);
      AddArgPrintable(c, tok.word);
      RedirsPrintable(AddArg(c, tok.word), tok.rest);
      var p := ParseRedirs(AddArg(c, tok.word), tok.rest);
      if p.Done? {
        ArgsPrintable(p.cmd, argc + 1, p.rest);
      }
    }
  }

  lemma {:induction false} BacksPrintable(c: Cmd<string>, t: string)
    requires Printable(c)
    ensures Printable(Backs(c, t).cmd)
    decreases |t|
  {
    hide Skip, GetToken, Peek;
    if Peek(t, {'&'}) {
      PeekToken(t, {'&'});
      BacksPrintable(Back(c), GetToken(t).rest);
    }
  }

  lemma PeekToken(t: string, toks: set<char>)
    requires Peek(t, toks)
    ensures |GetToken(t).rest| < |t|
  {
  }

  lemma {:induction false} ExecPrintable(t: string)
    ensures ParseExec(t).Done? ==> Printable(ParseExec(t).cmd)
    decreases |t|, 1
  {
    hide Skip, GetToken, Peek, ParseArgs, ParseRedirs, ParseLine;
    if Peek(t, {'('}) {
      PeekToken(t, {'('});
      var l := ParseLine(GetToken(t).rest);
      LinePrintable(GetToken(t).rest);
      if l.Done? {
        RedirsPrintable(l.cmd, GetToken(l.rest).rest);
      }
    } else {
      RedirsPrintable(Exec([]), t);
      var p := ParseRedirs(Exec([]), t);
      if p.Done? {
        ArgsPrintable(p.cmd, 0, p.rest);
      }
    }
  }

  lemma {:induction false} PipePrintable(t: string)
    ensures ParsePipe(t).Done? ==> Printable(ParsePipe(t).cmd)
    decreases |t|, 2
  {
    hide Skip, GetToken, Peek, ParseExec;
    ExecPrintable(t);
    var e := ParseExec(t);
    if e.Done? && Peek(e.rest, {'|'}) {
      PeekToken(e.rest, {'|'});
      PipePrintable(GetToken(e.rest).rest);
    }
  }

  lemma {:induction false} LinePrintable(t: string)
    ensures ParseLine(t).Done? ==> Printable(ParseLine(t).cmd)
    decreases |t|, 3
  {
    hide Skip, GetToken, Peek, ParsePipe, Backs;
    PipePrintable(t);
    var p := ParsePipe(t);
    if p.Done? {
      BacksPrintable(p.cmd, p.rest);
      var b := Backs(p.cmd, p.rest);
      if Peek(b.rest, {';'}) {
        PeekToken(b.rest, {';'});
        LinePrintable(GetToken(b.rest).rest);
      }
    }
  }

  /** The commands that some line stands for are exactly the printable ones, and printing what was read gives
      a line that stands for the same command. */
  lemma ParsesArePrintable(c: Cmd<string>)
    ensures (exists s :: ParseCmd(s) == Done(c, "")) <==> Printable(c)
    ensures Printable(c) ==> ParseCmd(Print(c)) == Done(c, "")
  {
    hide ParseLine, Printable, Print;
    if s :| ParseCmd(s) == Done(c, "") {
      LinePrintable(s);
    }
    if Printable(c) {
      PrintParse(c, "");
      assert Print(c) + "" == Print(c);
      assert ParseCmd(Print(c)) == Done(c, "");
    }
  }
}
