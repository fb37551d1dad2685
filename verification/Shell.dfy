/** The shell's parser as the program runs it (xv6/user/sh.c): a cursor moves along the line, words are slices of
it, and once the line is read a NUL is written after every word. */
module Shell {
  import opened ShellSyntax

  datatype Slice = Slice(q: nat, eq: nat)

  /** A maximal run of word characters. */
  ghost predicate SliceOk(s: string, w: Slice) {
    && w.q <= w.eq <= |s|
    && (forall i :: w.q <= i < w.eq ==> InWord(s[i]))
    && (w.eq < |s| ==> !InWord(s[w.eq]))
  }

  ghost predicate SlicesOk(s: string, c: Cmd<Slice>) {
    match c
    case Exec(argv) => forall i :: 0 <= i < |argv| ==> SliceOk(s, argv[i])
    case Redir(sub, file, _, _) => SlicesOk(s, sub) && SliceOk(s, file)
    case PipeTo(l, r) => SlicesOk(s, l) && SlicesOk(s, r)
    case Sequence(l, r) => SlicesOk(s, l) && SlicesOk(s, r)
    case Back(sub) => SlicesOk(s, sub)
  }

  function Text(s: string, w: Slice): (t: string) {
    if w.q <= w.eq <= |s| then s[w.q..w.eq] else ""
  }

  function Texts(s: string, argv: seq<Slice>): (ts: seq<string>) {
    if argv == [] then [] else Texts(s, argv[..|argv| - 1]) + [Text(s, argv[|argv| - 1])]
  }

  /** The command with its words spelled out. */
  function Resolve(s: string, c: Cmd<Slice>): (r: Cmd<string>) {
    match c
    case Exec(argv) => Exec(Texts(s, argv))
    case Redir(sub, file, mode, fd) => Redir(Resolve(s, sub), Text(s, file), mode, fd)
    case PipeTo(l, r) => PipeTo(Resolve(s, l), Resolve(s, r))
    case Sequence(l, r) => Sequence(Resolve(s, l), Resolve(s, r))
    case Back(sub) => Back(Resolve(s, sub))
  }

  datatype Outcome = Panicked | Parsed(cmd: Cmd<Slice>, pos: nat)

  /** The program's outcome is the specified one, pointers for texts. */
  ghost predicate Agree(s: string, r: Outcome, spec: Parse) {
    match r
    case Panicked => spec.Panic?
    case Parsed(c, pos) =>
      && pos <= |s| && SlicesOk(s, c)
      && spec == Done(Resolve(s, c), s[pos..])
  }

  // Tokens.

  method SkipBlanks(s: string, p: nat) returns (pos: nat)
    requires p <= |s|
    ensures p <= pos <= |s| && s[pos..] == Skip(s[p..])
  {
    pos := p;
    while pos < |s| && IsBlank(s[pos])
      invariant p <= pos <= |s| && Skip(s[pos..]) == Skip(s[p..])
    {
      assert s[pos..][1..] == s[pos + 1..];
      pos := pos + 1;
    }
  }

  /** The loop over a word. */
  method SkipWord(s: string, p: nat) returns (pos: nat)
    requires p <= |s|
    ensures p <= pos <= |s| && pos == p + WordLength(s[p..]) && SliceOk(s, Slice(p, pos))
  {
    pos := p;
    while pos < |s| && !IsBlank(s[pos]) && !IsSymbol(s[pos])
      invariant p <= pos <= |s| && WordLength(s[p..]) == pos - p + WordLength(s[pos..])
      invariant forall i :: p <= i < pos ==> InWord(s[i])
    {
      assert s[pos..][1..] == s[pos + 1..];
      pos := pos + 1;
    }
  }

  method GetToken(s: string, p: nat) returns (kind: char, w: Slice, pos: nat)
    requires p <= |s|
    ensures p <= pos <= |s| && w.q <= w.eq <= |s|
    ensures Tok(kind, Text(s, w), s[pos..]) == ShellSyntax.GetToken(s[p..])
    ensures kind == WORD ==> SliceOk(s, w)
    ensures kind != END ==> p < pos
  {
    hide Skip, WordLength, SliceOk;
    var q := SkipBlanks(s, p);
    var eq := q;
    ghost var u := s[q..];
    if q == |s| {
      kind := END;
    } else if s[q] == '|' || s[q] == '(' || s[q] == ')' || s[q] == ';' || s[q] == '&' || s[q] == '<' {
      kind := s[q];
      eq := q + 1;
    } else if s[q] == '>' {
      kind := '>';
      eq := q + 1;
      if eq < |s| && s[eq] == '>' {
        kind := APPEND;
        eq := eq + 1;
      }
    } else {
      kind := WORD;
      eq := SkipWord(s, q);
    }
    w := Slice(q, eq);
    assert kind == TokenKind(u) && eq - q == TokenLength(u);
    assert u[..eq - q] == s[q..eq] && u[eq - q..] == s[eq..];
    pos := SkipBlanks(s, eq);
  }

  method PeekAt(s: string, p: nat, toks: set<char>) returns (pos: nat, found: bool)
    requires p <= |s|
    ensures p <= pos <= |s| && s[pos..] == Skip(s[p..]) && found == Peek(s[p..], toks)
    ensures found ==> pos < |s|
  {
    pos := SkipBlanks(s, p);
    found := pos < |s| && s[pos] in toks;
  }

  // The parser.

  lemma RedirsUnfold(c: Cmd<string>, t: string)
    ensures !Peek(t, {'<', '>'}) ==> ShellSyntax.ParseRedirs(c, t) == Done(c, Skip(t))
    ensures Peek(t, {'<', '>'}) ==>
              var tok := ShellSyntax.GetToken(Skip(t)); var f := ShellSyntax.GetToken(tok.rest);
              ShellSyntax.ParseRedirs(c, t) ==
                if f.kind != WORD then Panic
                else ShellSyntax.ParseRedirs(Redir(c, f.word, Mode(tok.kind), Fd(tok.kind)), f.rest)
  {
    SkipTwice(t);
  }

  method ParseRedirs(c: Cmd<Slice>, s: string, p: nat) returns (r: Outcome)
    requires p <= |s| && SlicesOk(s, c)
    ensures Agree(s, r, ShellSyntax.ParseRedirs(Resolve(s, c), s[p..]))
    ensures r.Parsed? ==> p <= r.pos
  {
    hide Skip, Peek, ShellSyntax.GetToken, ShellSyntax.ParseRedirs, SliceOk, Text;
    var cmd, pos := c, p;
    while true
      invariant p <= pos <= |s| && SlicesOk(s, cmd)
      invariant ShellSyntax.ParseRedirs(Resolve(s, cmd), s[pos..]) == ShellSyntax.ParseRedirs(Resolve(s, c), s[p..])
      decreases |s| - pos
    {
      RedirsUnfold(Resolve(s, cmd), s[pos..]);
      var at, more := PeekAt(s, pos, {'<', '>'});
      if !more {
        return Parsed(cmd, at);
      }
      var tok, _, p1 := GetToken(s, at);
      var kind, w, p2 := GetToken(s, p1);
      if kind != WORD {
        return Panicked;
      }
      cmd := if tok == '<' then Redir(cmd, w, O_RDONLY, 0)
             else if tok == '>' then Redir(cmd, w, O_WRONLY + O_CREATE + O_TRUNC, 1)
             else Redir(cmd, w, O_WRONLY + O_CREATE, 1);
      pos := p2;
    }
  }

  lemma BacksUnfold(c: Cmd<string>, t: string)
    ensures Peek(t, {'&'}) ==> Backs(c, t) == Backs(Back(c), ShellSyntax.GetToken(Skip(t)).rest)
    ensures !Peek(t, {'&'}) ==> Backs(c, t) == Done(c, Skip(t))
  {
    SkipTwice(t);
  }

  lemma LineUnfold(t: string)
    ensures ShellSyntax.ParseLine(t) == AfterPipe(ShellSyntax.ParsePipe(t))
  {
  }

  /** parseline once its first pipeline has been read. */
  function AfterPipe(p: Parse): (r: Parse) {
    if p.Panic? then p else AfterBacks(Backs(p.cmd, p.rest))
  }

  function AfterBacks(b: Parse): (r: Parse)
    requires b.Done?
  {
    if !Peek(b.rest, {';'}) then Done(b.cmd, Skip(b.rest))
    else
      var l := ShellSyntax.ParseLine(ShellSyntax.GetToken(b.rest).rest);
      if l.Panic? then l else Done(Sequence(b.cmd, l.cmd), l.rest)
  }

  /** The loop over `&`. */
  method ParseBacks(c: Cmd<Slice>, s: string, p: nat) returns (cmd: Cmd<Slice>, pos: nat)
    requires p <= |s| && SlicesOk(s, c)
    ensures p <= pos <= |s| && SlicesOk(s, cmd)
    ensures Backs(Resolve(s, c), s[p..]) == Done(Resolve(s, cmd), s[pos..])
  {
    hide Skip, Peek, ShellSyntax.GetToken, Backs, SliceOk, Text;
    cmd, pos := c, p;
    while true
      invariant p <= pos <= |s| && SlicesOk(s, cmd)
      invariant Backs(Resolve(s, cmd), s[pos..]) == Backs(Resolve(s, c), s[p..])
      decreases |s| - pos
    {
      BacksUnfold(Resolve(s, cmd), s[pos..]);
      var at, more := PeekAt(s, pos, {'&'});
      if !more {
        pos := at;
        return;
      }
      SkipTwice(s[pos..]);
      PeekToken(s[at..], {'&'});
      var _, _, p1 := GetToken(s, at);
      cmd := Back(cmd);
      pos := p1;
    }
  }

  method ParseLine(s: string, p: nat) returns (r: Outcome)
    requires p <= |s|
    ensures Agree(s, r, ShellSyntax.ParseLine(s[p..])) && (r.Parsed? ==> p <= r.pos)
    decreases |s| - p, 3
  {
    hide Skip, Peek, ShellSyntax.GetToken, Backs, SliceOk, Text, ShellSyntax.ParseLine, ShellSyntax.ParsePipe;
    LineUnfold(s[p..]);
    r := ParsePipe(s, p);
    if r.Panicked? {
      return;
    }
    var cmd, pos := ParseBacks(r.cmd, s, r.pos);
    var at, more := PeekAt(s, pos, {';'});
    SkipTwice(s[pos..]);
    if !more {
      return Parsed(cmd, at);
    }
    PeekToken(s[at..], {';'});
    var _, _, p1 := GetToken(s, at);
    var rest := ParseLine(s, p1);
    r := if rest.Panicked? then Panicked else Parsed(Sequence(cmd, rest.cmd), rest.pos);
  }

  method ParsePipe(s: string, p: nat) returns (r: Outcome)
    requires p <= |s|
    ensures Agree(s, r, ShellSyntax.ParsePipe(s[p..])) && (r.Parsed? ==> p <= r.pos)
    decreases |s| - p, 2
  {
    hide Skip, Peek, ShellSyntax.GetToken, SliceOk, Text, ShellSyntax.ParseExec, ShellSyntax.ParsePipe;
    PipeUnfold(s[p..]);
    r := ParseExec(s, p);
    if r.Panicked? {
      return;
    }
    var at, more := PeekAt(s, r.pos, {'|'});
    SkipTwice(s[r.pos..]);
    if !more {
      return Parsed(r.cmd, at);
    }
    PeekToken(s[at..], {'|'});
    var _, _, p1 := GetToken(s, at);
    var rest := ParsePipe(s, p1);
    r := if rest.Panicked? then Panicked else Parsed(PipeTo(r.cmd, rest.cmd), rest.pos);
  }

  lemma BlockUnfold(t: string)
    ensures Peek(t, {'('}) ==>
              var l := ShellSyntax.ParseLine(ShellSyntax.GetToken(Skip(t)).rest);
              ShellSyntax.ParseBlock(t) ==
                if l.Panic? || !Peek(l.rest, {')'}) then Panic
                else ShellSyntax.ParseRedirs(l.cmd, ShellSyntax.GetToken(Skip(l.rest)).rest)
    ensures !Peek(t, {'('}) ==> ShellSyntax.ParseBlock(t) == Panic
  {
    hide Skip, ShellSyntax.GetToken, Peek, ShellSyntax.ParseLine, ShellSyntax.ParseRedirs;
    SkipTwice(t);
    var l := ShellSyntax.ParseLine(ShellSyntax.GetToken(t).rest);
    if l.Done? {
      SkipTwice(l.rest);
    }
  }

  method ParseBlock(s: string, p: nat) returns (r: Outcome)
    requires p <= |s|
    ensures Agree(s, r, ShellSyntax.ParseBlock(s[p..])) && (r.Parsed? ==> p <= r.pos)
    decreases |s| - p, 0
  {
    hide Skip, Peek, ShellSyntax.GetToken, SliceOk, Text, ShellSyntax.ParseLine, ShellSyntax.ParseRedirs,
           ShellSyntax.ParseBlock;
    BlockUnfold(s[p..]);
    var at, open := PeekAt(s, p, {'('});
    if !open {
      return Panicked;
    }
    SkipTwice(s[p..]);
    PeekToken(s[at..], {'('});
    var _, _, p1 := GetToken(s, at);
    var line := ParseLine(s, p1);
    if line.Panicked? {
      return Panicked;
    }
    var at2, close := PeekAt(s, line.pos, {')'});
    if !close {
      return Panicked;
    }
    var _, _, p2 := GetToken(s, at2);
    r := ParseRedirs(line.cmd, s, p2);
  }

  lemma {:induction false} AddArgResolve(s: string, c: Cmd<Slice>, w: Slice)
    requires SlicesOk(s, c) && SliceOk(s, w)
    ensures SlicesOk(s, AddArg(c, w)) && Resolve(s, AddArg(c, w)) == AddArg(Resolve(s, c), Text(s, w))
  {
    hide SliceOk, Text;
    match c
    case Exec(argv) => assert (argv + [w])[..|argv|] == argv;
    case Redir(sub, file, mode, fd) => AddArgResolve(s, sub, w);
    case _ =>
  }

  lemma ArgsUnfold(c: Cmd<string>, argc: nat, t: string)
    ensures Peek(t, {'|', ')', '&', ';'}) ==> ShellSyntax.ParseArgs(c, argc, t) == Done(c, Skip(t))
    ensures !Peek(t, {'|', ')', '&', ';'}) ==>
              var tok := ShellSyntax.GetToken(Skip(t));
              var p := ShellSyntax.ParseRedirs(AddArg(c, tok.word), tok.rest);
              ShellSyntax.ParseArgs(c, argc, t) ==
                if tok.kind == END then Done(c, tok.rest)
                else if tok.kind != WORD || argc + 1 >= MAXARGS then Panic
                else if p.Panic? then p else ShellSyntax.ParseArgs(p.cmd, argc + 1, p.rest)
  {
    hide Skip, ShellSyntax.GetToken, Peek, ShellSyntax.ParseRedirs, AddArg;
    SkipTwice(t);
  }

  /** The loop over arguments. */
  method ParseArgs(c: Cmd<Slice>, s: string, p: nat) returns (r: Outcome)
    requires p <= |s| && SlicesOk(s, c)
    ensures Agree(s, r, ShellSyntax.ParseArgs(Resolve(s, c), 0, s[p..])) && (r.Parsed? ==> p <= r.pos)
  {
    hide Skip, Peek, ShellSyntax.GetToken, SliceOk, Text, ShellSyntax.ParseArgs, ShellSyntax.ParseRedirs, AddArg,
           Resolve, SlicesOk;
    var ret, argc, pos := c, 0, p;
    while true
      invariant p <= pos <= |s| && SlicesOk(s, ret)
      invariant ShellSyntax.ParseArgs(Resolve(s, ret), argc, s[pos..]) ==
                  ShellSyntax.ParseArgs(Resolve(s, c), 0, s[p..])
      decreases |s| - pos
    {
      ArgsUnfold(Resolve(s, ret), argc, s[pos..]);
      var at, stop := PeekAt(s, pos, {'|', ')', '&', ';'});
      if stop {
        return Parsed(ret, at);
      }
      var tok, w, p1 := GetToken(s, at);
      if tok == END {
        return Parsed(ret, p1);
      }
      if tok != WORD {
        return Panicked;
      }
      AddArgResolve(s, ret, w);
      argc := argc + 1;
      if argc >= MAXARGS {
        return Panicked;
      }
      r := ParseRedirs(AddArg(ret, w), s, p1);
      if r.Panicked? {
        return;
      }
      ret, pos := r.cmd, r.pos;
    }
  }

  lemma ExecUnfold(t: string)
    ensures Peek(t, {'('}) ==> ShellSyntax.ParseExec(t) == ShellSyntax.ParseBlock(Skip(t))
    ensures !Peek(t, {'('}) ==>
              var p := ShellSyntax.ParseRedirs(Exec([]), Skip(t));
              ShellSyntax.ParseExec(t) == if p.Panic? then p else ShellSyntax.ParseArgs(p.cmd, 0, p.rest)
  {
    hide Skip, ShellSyntax.GetToken, ShellSyntax.ParseRedirs, ShellSyntax.ParseArgs, Peek, ShellSyntax.ParseLine,
           ShellSyntax.ParseBlock;
    BlockUnfold(t);
    BlockUnfold(Skip(t));
    SkipTwice(t);
    RedirsAfterBlanks(Exec([]), t);
  }

  method ParseExec(s: string, p: nat) returns (r: Outcome)
    requires p <= |s|
    ensures Agree(s, r, ShellSyntax.ParseExec(s[p..])) && (r.Parsed? ==> p <= r.pos)
    decreases |s| - p, 1
  {
    hide Skip, Peek, ShellSyntax.GetToken, SliceOk, Text, ShellSyntax.ParseArgs, ShellSyntax.ParseRedirs,
         ShellSyntax.ParseBlock, ShellSyntax.ParseExec;
    ExecUnfold(s[p..]);
    var at, open := PeekAt(s, p, {'('});
    if open {
      r := ParseBlock(s, at);
      return;
    }
    var e: Cmd<Slice> := Exec([]);
    r := ParseRedirs(e, s, at);
    if r.Panicked? {
      return;
    }
    r := ParseArgs(r.cmd, s, r.pos);
  }

  // NUL-termination.

  ghost predicate EndsAt(c: Cmd<Slice>, i: nat) {
    match c
    case Exec(argv) => exists k :: 0 <= k < |argv| && argv[k].eq == i
    case Redir(sub, file, _, _) => EndsAt(sub, i) || file.eq == i
    case PipeTo(l, r) => EndsAt(l, i) || EndsAt(r, i)
    case Sequence(l, r) => EndsAt(l, i) || EndsAt(r, i)
    case Back(sub) => EndsAt(sub, i)
  }

  ghost predicate EndsBelow(c: Cmd<Slice>, n: nat) {
    match c
    case Exec(argv) => forall k :: 0 <= k < |argv| ==> argv[k].eq < n
    case Redir(sub, file, _, _) => EndsBelow(sub, n) && file.eq < n
    case PipeTo(l, r) => EndsBelow(l, n) && EndsBelow(r, n)
    case Sequence(l, r) => EndsBelow(l, n) && EndsBelow(r, n)
    case Back(sub) => EndsBelow(sub, n)
  }

  /** nulterminate: a NUL right after every word of the command, and nothing else changed. */
  method NulTerminate(c: Cmd<Slice>, buf: array<char>)
    requires EndsBelow(c, buf.Length)
    modifies buf
    ensures forall i :: 0 <= i < buf.Length ==> buf[i] == if EndsAt(c, i) then '\0' else old(buf[i])
    decreases c
  {
    match c {
      case Exec(argv) =>
        var i := 0;
        while i < |argv|
          invariant 0 <= i <= |argv|
          invariant forall j :: 0 <= j < buf.Length ==>
                      buf[j] == if EndsAt(Exec(argv[..i]), j) then '\0' else old(buf[j])
        {
          assert argv[..i + 1] == argv[..i] + [argv[i]];
          buf[argv[i].eq] := '\0';
          i := i + 1;
        }
        assert argv[..i] == argv;
      case Redir(sub, file, _, _) =>
        NulTerminate(sub, buf);
        buf[file.eq] := '\0';
      case PipeTo(l, r) =>
        NulTerminate(l, buf);
        NulTerminate(r, buf);
      case Sequence(l, r) =>
        NulTerminate(l, buf);
        NulTerminate(r, buf);
      case Back(sub) =>
        NulTerminate(sub, buf);
    }
  }

  /** The C string that starts at q. */
  function CString(b: string, q: nat): (t: string)
    decreases |b| - q
  {
    if q >= |b| || b[q] == '\0' then "" else [b[q]] + CString(b, q + 1)
  }

  function CStrings(b: string, argv: seq<Slice>): (ts: seq<string>) {
    if argv == [] then [] else CStrings(b, argv[..|argv| - 1]) + [CString(b, argv[|argv| - 1].q)]
  }

  /** The command as the program will see it: each word is the C string at its pointer. */
  function Seen(b: string, c: Cmd<Slice>): (r: Cmd<string>) {
    match c
    case Exec(argv) => Exec(CStrings(b, argv))
    case Redir(sub, file, mode, fd) => Redir(Seen(b, sub), CString(b, file.q), mode, fd)
    case PipeTo(l, r) => PipeTo(Seen(b, l), Seen(b, r))
    case Sequence(l, r) => Sequence(Seen(b, l), Seen(b, r))
    case Back(sub) => Back(Seen(b, sub))
  }

  ghost predicate NulFree(s: string) {
    forall i :: 0 <= i < |s| ==> s[i] != '\0'
  }

  /** NULs have been written after word characters only: where a slice ends, or past the text. */
  ghost predicate Terminated(s: string, b: string) {
    && |b| == |s| + 1 && b[|s|] == '\0' && NulFree(s)
    && forall i :: 0 <= i < |s| && InWord(s[i]) ==> b[i] == s[i]
  }

  lemma {:induction false} CStringIsSlice(s: string, b: string, w: Slice, q: nat)
    requires Terminated(s, b) && SliceOk(s, w) && w.q <= q <= w.eq && b[w.eq] == '\0'
    ensures CString(b, q) == s[q..w.eq]
    decreases w.eq - q
  {
    if q < w.eq {
      CStringIsSlice(s, b, w, q + 1);
      assert s[q..w.eq] == [s[q]] + s[q + 1..w.eq];
    }
  }

  lemma {:induction false} CStringsAreTexts(s: string, b: string, argv: seq<Slice>)
    requires Terminated(s, b) && forall i :: 0 <= i < |argv| ==> SliceOk(s, argv[i]) && b[argv[i].eq] == '\0'
    ensures CStrings(b, argv) == Texts(s, argv)
  {
    if argv != [] {
      var w := argv[|argv| - 1];
      CStringsAreTexts(s, b, argv[..|argv| - 1]);
      CStringIsSlice(s, b, w, w.q);
    }
  }

  /** Every word reads back as exactly its slice. */
  lemma {:induction false} SeenIsResolved(s: string, b: string, c: Cmd<Slice>)
    requires Terminated(s, b) && SlicesOk(s, c)
    requires forall i :: 0 <= i < |b| && EndsAt(c, i) ==> b[i] == '\0'
    ensures Seen(b, c) == Resolve(s, c)
  {
    hide CString, Terminated;
    match c
    case Exec(argv) =>
      assert |b| == |s| + 1 by { TerminatedSize(s, b); }
      forall i | 0 <= i < |argv| ensures b[argv[i].eq] == '\0' {
        assert SliceOk(s, argv[i]) && EndsAt(c, argv[i].eq);
      }
      CStringsAreTexts(s, b, argv);
    case Redir(sub, file, mode, fd) =>
      TerminatedSize(s, b);
      SeenIsResolved(s, b, sub);
      CStringIsSlice(s, b, file, file.q);
    case PipeTo(l, r) =>
      SeenIsResolved(s, b, l);
      SeenIsResolved(s, b, r);
    case Sequence(l, r) =>
      SeenIsResolved(s, b, l);
      SeenIsResolved(s, b, r);
    case Back(sub) => SeenIsResolved(s, b, sub);
  }

  lemma TerminatedSize(s: string, b: string)
    requires Terminated(s, b)
    ensures |b| == |s| + 1
  {
  }

  /** No word of the command ends at a word character. */
  lemma {:induction false} EndsOutside(s: string, c: Cmd<Slice>)
    requires SlicesOk(s, c)
    ensures EndsBelow(c, |s| + 1)
    ensures forall i :: 0 <= i < |s| && InWord(s[i]) ==> !EndsAt(c, i)
  {
    hide InWord;
    match c
    case Exec(argv) =>
    case Redir(sub, file, mode, fd) => EndsOutside(s, sub);
    case PipeTo(l, r) =>
      EndsOutside(s, l);
      EndsOutside(s, r);
    case Sequence(l, r) =>
      EndsOutside(s, l);
      EndsOutside(s, r);
    case Back(sub) => EndsOutside(s, sub);
  }

  /** parsecmd on a NUL-terminated line: the command's pointers, read as C strings, spell the command that
      the line stands for. */
  method ParseCmd(buf: array<char>) returns (ok: bool, cmd: Cmd<Slice>)
    requires buf.Length > 0 && buf[buf.Length - 1] == '\0' && NulFree(buf[..buf.Length - 1])
    modifies buf
    ensures ok <==> ShellSyntax.ParseCmd(old(buf[..buf.Length - 1])).Done?
    ensures ok ==> Seen(buf[..], cmd) == ShellSyntax.ParseCmd(old(buf[..buf.Length - 1])).cmd
    ensures !ok ==> buf[..] == old(buf[..])
  {
    hide ShellSyntax.ParseLine, Skip, Seen, Resolve, SlicesOk, EndsAt, EndsBelow, InWord, Peek;
    var s := buf[..buf.Length - 1];
    cmd := Exec([]);
    var r := ParseLine(s, 0);
    assert s[0..] == s;
    if r.Panicked? {
      return false, cmd;
    }
    var pos, _ := PeekAt(s, r.pos, {});
    if pos != |s| {
      return false, cmd;
    }
    ok, cmd := true, r.cmd;
    EndsOutside(s, cmd);
    NulTerminate(cmd, buf);
    SeenIsResolved(s, buf[..], cmd);
  }
}
