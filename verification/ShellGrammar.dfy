/** The language of xv6's shell (xv6/user/sh.c) as a grammar over tokens. The parser accepts a line exactly when the
line's tokens are those of a phrase of the grammar, and returns the command that the phrase stands for. */
module ShellGrammar {
  import opened ShellSyntax

  // Tokens and their layout on a line.

  datatype Token = Word(text: string) | Sign(text: string)

  /** A token with the blanks before it. */
  datatype Piece = Piece(gap: string, token: Token)

  predicate TokenOk(k: Token) {
    match k
    case Word(w) => WordOk(w)
    case Sign(x) => x == "<" || x == ">" || x == ">>" || x == "|" || x == "&" || x == ";" || x == "(" || x == ")"
  }

  predicate Gap(g: string) {
    forall i :: 0 <= i < |g| ==> g[i] in BLANKS
  }

  /** The second token can follow the first with no blank between them: two words would be one, and a sign
      `>` followed by one more would be `>>`. */
  predicate Apart(k: Token, next: Token) {
    && !(k.Word? && next.Word?)
    && !(k == Sign(">") && (next == Sign(">") || next == Sign(">>")))
  }

  predicate LayoutOk(ps: seq<Piece>) {
    && (forall i :: 0 <= i < |ps| ==> Gap(ps[i].gap) && TokenOk(ps[i].token))
    && forall i :: 0 < i < |ps| && ps[i].gap == "" ==> Apart(ps[i - 1].token, ps[i].token)
  }

  function Layout(ps: seq<Piece>, tail: string): (t: string) {
    if ps == [] then tail else ps[0].gap + (ps[0].token.text + Layout(ps[1..], tail))
  }

  function Tokens(ps: seq<Piece>): (ks: seq<Token>)
    ensures |ks| == |ps| && forall i :: 0 <= i < |ps| ==> ks[i] == ps[i].token
  {
    if ps == [] then [] else [ps[0].token] + Tokens(ps[1..])
  }

  /** The tokens that successive calls of gettoken deliver. */
  function Lex(t: string): (ks: seq<Token>)
    decreases |t|
  {
    var k := GetToken(t);
    if k.kind == END then [] else [Delivered(k)] + Lex(k.rest)
  }

  function Delivered(k: Tok): (r: Token) {
    if k.kind == WORD then Word(k.word) else Sign(k.word)
  }

  lemma {:induction false} SkipGap(g: string, t: string)
    requires Gap(g)
    ensures Skip(g + t) == Skip(t)
  {
    if g == "" {
      assert g + t == t;
    } else {
      InWordIs(g[0]);
      assert (g + t)[1..] == g[1..] + t;
      SkipGap(g[1..], t);
    }
  }

  /** A token at the front of the text, when what follows does not lengthen it. */
  lemma FrontToken(k: Token, t: string)
    requires TokenOk(k)
    requires k.Word? && t != "" ==> !InWord(t[0])
    requires k == Sign(">") && t != "" ==> t[0] != '>'
    ensures var tok := GetToken(k.text + t);
            tok.kind != END && Delivered(tok) == k && tok.rest == Skip(t) && Skip(k.text + t) == k.text + t
  {
    hide Skip, GetToken, WordOk, InWord;
    if k.Word? {
      WordToken(k.text, t);
    } else {
      SignToken(k.text, t);
    }
  }

  lemma SignToken(x: string, t: string)
    requires TokenOk(Sign(x)) && (x == ">" && t != "" ==> t[0] != '>')
    ensures Skip(x + t) == x + t
    ensures var tok := GetToken(x + t); IsSymbol(x[0]) && tok == Tok(if |x| == 2 then APPEND else x[0], x, Skip(t))
  {
    hide WordLength, WordOk, Skip;
    var u := x + t;
    assert u[0] == x[0] && u[..|x|] == x && u[|x|..] == t;
    TightSkip(u);
    assert |x| == 2 ==> u[1] == '>';
    assert |x| == 1 && t != "" ==> u[1] == t[0];
  }

  lemma LexSkip(t: string)
    ensures Lex(Skip(t)) == Lex(t)
  {
    hide Skip, GetToken;
    SkipTwice(t);
  }

  /** The first character after a token of a layout. */
  lemma LayoutFront(ps: seq<Piece>, tail: string)
    requires LayoutOk(ps) && Gap(tail) && |ps| > 0
    ensures var t := Layout(ps[1..], tail); var k := ps[0].token;
            && (k.Word? && t != "" ==> !InWord(t[0]))
            && (k == Sign(">") && t != "" ==> t[0] != '>')
  {
    hide InWord;
    var t := Layout(ps[1..], tail);
    if t != "" {
      InWordIs(t[0]);
      assert !(t[0] in BLANKS) || !InWord(t[0]) by { BlankNoWord(t[0]); }
      if |ps| > 1 {
        var next := ps[1];
        assert ps[1..][0] == next;
        var more := Layout(ps[1..][1..], tail);
        assert t == next.gap + (next.token.text + more);
        if next.gap != "" {
          assert t[0] == next.gap[0];
        } else {
          assert t == next.token.text + more;
          TokenFront(next.token);
          assert t[0] == next.token.text[0];
        }
      }
    }
  }

  lemma BlankNoWord(c: char)
    ensures c in BLANKS ==> !InWord(c) && c != '>'
  {
    InWordIs(c);
  }

  lemma TokenFront(k: Token)
    requires TokenOk(k)
    ensures k.text != ""
    ensures k.Sign? ==> !InWord(k.text[0])
    ensures k.text[0] == '>' ==> k == Sign(">") || k == Sign(">>")
  {
    if k.Word? {
      WordOkIs(k.text);
    }
  }

  lemma {:induction false} LexGap(tail: string)
    requires Gap(tail)
    ensures Lex(tail) == []
  {
    SkipGap(tail, "");
    assert tail + "" == tail;
  }

  lemma LexCons(gap: string, k: Token, t: string)
    requires Gap(gap) && TokenOk(k)
    requires k.Word? && t != "" ==> !InWord(t[0])
    requires k == Sign(">") && t != "" ==> t[0] != '>'
    ensures Lex(gap + (k.text + t)) == [k] + Lex(t)
  {
    hide Skip, GetToken, TokenOk, Gap, InWord, Delivered;
    FrontToken(k, t);
    SkipGap(gap, k.text + t);
    LexSkip(gap + (k.text + t));
    LexSkip(t);
  }

  /** However its tokens are spread over the line, the line has those tokens. */
  lemma {:induction false} LexLayout(ps: seq<Piece>, tail: string)
    requires LayoutOk(ps) && Gap(tail)
    ensures Lex(Layout(ps, tail)) == Tokens(ps)
  {
    hide Lex, TokenOk, Apart, Gap, InWord;
    if ps == [] {
      LexGap(tail);
    } else {
      LayoutFront(ps, tail);
      LexCons(ps[0].gap, ps[0].token, Layout(ps[1..], tail));
      LexLayout(ps[1..], tail);
    }
  }

  lemma {:induction false} SkipSplits(t: string) returns (gap: string)
    ensures Gap(gap) && t == gap + Skip(t)
  {
    if t != "" && IsBlank(t[0]) {
      InWordIs(t[0]);
      var g := SkipSplits(t[1..]);
      gap := [t[0]] + g;
    } else {
      gap := "";
    }
  }

  /** The next token, cut off the text. */
  lemma TokenSplits(t: string) returns (gap: string, k: Token, rest: string)
    requires Lex(t) != []
    ensures Gap(gap) && TokenOk(k) && t == gap + (k.text + rest) && Lex(t) == [k] + Lex(rest)
    ensures k.Word? && rest != "" ==> !InWord(rest[0])
    ensures k == Sign(">") && rest != "" ==> rest[0] != '>'
    ensures |rest| < |t|
  {
    hide Lex, TokenOk, InWord, Gap, GetToken, Skip, TokenLength;
    gap := SkipSplits(t);
    var u := Skip(t);
    LexUnfold(t);
    k, rest := CutToken(t);
    LexSkip(rest);
    assert u == k.text + rest;
  }

  lemma LexUnfold(t: string)
    ensures Lex(t) == [] <==> Skip(t) == ""
    ensures Lex(t) != [] ==> Lex(t) == [Delivered(GetToken(t))] + Lex(GetToken(t).rest)
  {
  }

  lemma CutToken(t: string) returns (k: Token, rest: string)
    requires Skip(t) != ""
    ensures k == Delivered(GetToken(t)) && TokenOk(k) && Skip(t) == k.text + rest && GetToken(t).rest == Skip(rest)
    ensures k.Word? && rest != "" ==> !InWord(rest[0])
    ensures k == Sign(">") && rest != "" ==> rest[0] != '>'
    ensures |rest| < |t|
  {
    hide Skip, WordOk, WordLength;
    var u := Skip(t);
    var n := TokenLength(u);
    rest := u[n..];
    assert u == u[..n] + rest;
    k := Delivered(GetToken(t));
    if k.Word? {
      WordLengthWord(u);
      TokenIsWord(t);
    } else {
      SignOk(u);
    }
  }

  lemma SignOk(u: string)
    requires u != "" && IsSymbol(u[0])
    ensures TokenOk(Sign(u[..TokenLength(u)]))
    ensures u[..TokenLength(u)] == ">" && |u| > 1 ==> u[1] != '>'
  {
  }

  lemma {:induction false} LayoutExists(t: string) returns (ps: seq<Piece>, tail: string)
    ensures LayoutOk(ps) && Gap(tail) && Layout(ps, tail) == t && Tokens(ps) == Lex(t)
    decreases |t|
  {
    hide Lex, TokenOk, Gap, InWord;
    if Lex(t) == [] {
      ps, tail := [], t;
      NoTokens(t);
    } else {
      var gap, k, rest := TokenSplits(t);
      var qs, tail' := LayoutExists(rest);
      ps, tail := [Piece(gap, k)] + qs, tail';
      assert ps[1..] == qs;
      if |qs| > 0 && qs[0].gap == "" {
        assert rest == "" + (qs[0].token.text + Layout(qs[1..], tail));
        FirstApart(k, qs[0].token, rest);
      }
    }
  }

  lemma NoTokens(t: string)
    requires Lex(t) == []
    ensures Gap(t)
  {
    var gap := SkipSplits(t);
    if Skip(t) == "" {
      assert t == gap;
    }
  }

  lemma FirstApart(k: Token, next: Token, rest: string)
    requires TokenOk(next) && next.text <= rest
    requires k.Word? && rest != "" ==> !InWord(rest[0])
    requires k == Sign(">") && rest != "" ==> rest[0] != '>'
    ensures Apart(k, next)
  {
    if next.Word? {
      WordOkIs(next.text);
    }
  }

  /** A text has given tokens exactly when it is one of their layouts. */
  lemma LexIsLayout(t: string, ks: seq<Token>)
    ensures Lex(t) == ks <==>
              exists ps, tail :: LayoutOk(ps) && Gap(tail) && Layout(ps, tail) == t && Tokens(ps) == ks
  {
    hide Lex, Layout, LayoutOk, Gap;
    var qs, rest := LayoutExists(t);
    if ps, tail :| LayoutOk(ps) && Gap(tail) && Layout(ps, tail) == t && Tokens(ps) == ks {
      LexLayout(ps, tail);
    }
  }

  // The grammar.

  datatype Item = Arg(word: string) | In(file: string) | Out(file: string) | Append(file: string)

  /** Words and redirections in any order, or a line in parentheses and redirections. */
  datatype Unit = Simple(items: seq<Item>) | Block(line: Line, redirs: seq<Item>)

  /** Units with `|` between them. */
  datatype Pipeline = One(unit: Unit) | Piped(unit: Unit, rest: Pipeline)

  /** Pipelines with `;` between them, each followed by any number of `&`. */
  datatype Line = Last(pipe: Pipeline, amps: nat) | Then(pipe: Pipeline, amps: nat, rest: Line)

  function ItemTokens(i: Item): (ks: seq<Token>) {
    match i
    case Arg(w) => [Word(w)]
    case In(f) => [Sign("<"), Word(f)]
    case Out(f) => [Sign(">"), Word(f)]
    case Append(f) => [Sign(">>"), Word(f)]
  }

  function ItemsTokens(items: seq<Item>): (ks: seq<Token>) {
    if items == [] then [] else ItemTokens(items[0]) + ItemsTokens(items[1..])
  }

  function UnitTokens(u: Unit): (ks: seq<Token>) {
    match u
    case Simple(items) => ItemsTokens(items)
    case Block(l, redirs) => [Sign("(")] + (LineTokens(l) + ([Sign(")")] + ItemsTokens(redirs)))
  }

  function PipeTokens(p: Pipeline): (ks: seq<Token>) {
    match p
    case One(u) => UnitTokens(u)
    case Piped(u, rest) => UnitTokens(u) + ([Sign("|")] + PipeTokens(rest))
  }

  function Amps(n: nat): (ks: seq<Token>) {
    if n == 0 then [] else [Sign("&")] + Amps(n - 1)
  }

  function LineTokens(l: Line): (ks: seq<Token>) {
    match l
    case Last(p, n) => PipeTokens(p) + Amps(n)
    case Then(p, n, rest) => PipeTokens(p) + (Amps(n) + ([Sign(";")] + LineTokens(rest)))
  }

  /** At most nine words in a simple command, and only redirections after parentheses. */
  predicate UnitOk(u: Unit) {
    match u
    case Simple(items) => |Words(items)| <= 9
    case Block(l, redirs) => LineOk(l) && Words(redirs) == []
  }

  predicate PipeOk(p: Pipeline) {
    UnitOk(p.unit) && (p.Piped? ==> PipeOk(p.rest))
  }

  predicate LineOk(l: Line) {
    PipeOk(l.pipe) && (l.Then? ==> LineOk(l.rest))
  }

  // What a phrase stands for.

  function Words(items: seq<Item>): (ws: seq<string>) {
    if items == [] then [] else (if items[0].Arg? then [items[0].word] else []) + Words(items[1..])
  }

  /** The redirections around a command, the last one outermost. */
  function Redirected(c: Cmd<string>, items: seq<Item>): (r: Cmd<string>)
    decreases |items|
  {
    if items == [] then c else Redirected(OneRedirected(c, items[0]), items[1..])
  }

  /** `<` opens for reading as descriptor 0; `>` creates and truncates, `>>` creates, both for writing as
      descriptor 1. */
  function OneRedirected(c: Cmd<string>, i: Item): (r: Cmd<string>) {
    match i
    case Arg(_) => c
    case In(f) => Redir(c, f, 0, 0)
    case Out(f) => Redir(c, f, 0x601, 1)
    case Append(f) => Redir(c, f, 0x201, 1)
  }

  function UnitTree(u: Unit): (c: Cmd<string>) {
    match u
    case Simple(items) => Redirected(Exec(Words(items)), items)
    case Block(l, redirs) => Redirected(LineTree(l), redirs)
  }

  function PipeTree(p: Pipeline): (c: Cmd<string>) {
    match p
    case One(u) => UnitTree(u)
    case Piped(u, rest) => PipeTo(UnitTree(u), PipeTree(rest))
  }

  function Backed(c: Cmd<string>, n: nat): (r: Cmd<string>)
    decreases n
  {
    if n == 0 then c else Backed(Back(c), n - 1)
  }

  function LineTree(l: Line): (c: Cmd<string>) {
    match l
    case Last(p, n) => Backed(PipeTree(p), n)
    case Then(p, n, rest) => Sequence(Backed(PipeTree(p), n), LineTree(rest))
  }

  // The parser reads tokens.

  function KindOf(k: Token): (c: char) {
    if k.Word? then WORD else if k.text == ">>" then APPEND else if k.text == "" then END else k.text[0]
  }

  /** One token off the front. */
  lemma FrontLex(t: string)
    ensures Lex(t) == [] <==> GetToken(t).kind == END
    ensures Lex(t) != [] ==> Lex(t)[0] == Delivered(GetToken(t)) && Lex(t)[1..] == Lex(GetToken(t).rest)
    ensures Lex(t) != [] ==> TokenOk(Lex(t)[0]) && GetToken(t).kind == KindOf(Lex(t)[0])
    ensures Lex(GetToken(t).rest) == if Lex(t) == [] then [] else Lex(t)[1..]
  {
    var u := Skip(t);
    if u != "" {
      if IsSymbol(u[0]) {
        SignOk(u);
      } else {
        TokenIsWord(t);
      }
    }
  }

  /** Peeking is looking at the next token. */
  lemma PeekLex(t: string)
    ensures var ks := Lex(t);
            && (Peek(t, {'<', '>'}) <==> ks != [] && (ks[0] == Sign("<") || ks[0] == Sign(">") || ks[0] == Sign(">>")))
            && (Peek(t, {'('}) <==> ks != [] && ks[0] == Sign("("))
            && (Peek(t, {')'}) <==> ks != [] && ks[0] == Sign(")"))
            && (Peek(t, {'|'}) <==> ks != [] && ks[0] == Sign("|"))
            && (Peek(t, {'&'}) <==> ks != [] && ks[0] == Sign("&"))
            && (Peek(t, {';'}) <==> ks != [] && ks[0] == Sign(";"))
            && (Peek(t, {'|', ')', '&', ';'}) <==>
                ks != [] && (ks[0] == Sign("|") || ks[0] == Sign(")") || ks[0] == Sign("&") || ks[0] == Sign(";")))
  {
    var u := Skip(t);
    if u != "" {
      assert u[..TokenLength(u)][0] == u[0];
    }
  }

  /** A phrase in front of other tokens, cut after its first token. */
  lemma Cut(t: string, k: Token, ks: seq<Token>)
    requires Lex(t) == [k] + ks
    ensures Lex(t) != [] && Lex(t)[0] == k && Lex(GetToken(t).rest) == ks && |GetToken(t).rest| < |t|
    ensures Delivered(GetToken(t)) == k && GetToken(t).kind == KindOf(k)
  {
    hide Lex, GetToken;
    FrontLex(t);
    assert ([k] + ks)[1..] == ks;
    TokenShorter(t);
  }

  lemma TokenShorter(t: string)
    ensures GetToken(t).kind != END ==> |GetToken(t).rest| < |t|
  {
  }

  // Phrases are read.

  predicate NoRedir(ks: seq<Token>) {
    ks == [] || (ks[0] != Sign("<") && ks[0] != Sign(">") && ks[0] != Sign(">>"))
  }

  /** What can follow a unit. */
  predicate UnitEnds(ks: seq<Token>) {
    ks == [] || ks[0] == Sign("|") || ks[0] == Sign(")") || ks[0] == Sign("&") || ks[0] == Sign(";")
  }

  ghost predicate Reads(r: Parse, c: Cmd<string>, ks: seq<Token>) {
    r.Done? && r.cmd == c && Lex(r.rest) == ks
  }

  lemma RedirStep(c: Cmd<string>, i: Item, t: string, ks: seq<Token>)
    requires !i.Arg? && Lex(t) == ItemTokens(i) + ks
    ensures var rest := GetToken(GetToken(t).rest).rest;
            Lex(rest) == ks && |rest| < |t| && ParseRedirs(c, t) == ParseRedirs(OneRedirected(c, i), rest)
  {
    hide Lex, GetToken, Peek;
    var arrow := ItemTokens(i)[0];
    assert ItemTokens(i) + ks == [arrow] + ([Word(i.file)] + ks);
    PeekLex(t);
    Cut(t, arrow, [Word(i.file)] + ks);
    Cut(GetToken(t).rest, Word(i.file), ks);
  }

  lemma ItemsCons(items: seq<Item>, ks: seq<Token>)
    requires items != []
    ensures ItemsTokens(items) + ks == ItemTokens(items[0]) + (ItemsTokens(items[1..]) + ks)
  {
  }

  lemma {:induction false} RedirsRead(c: Cmd<string>, items: seq<Item>, t: string, ks: seq<Token>)
    requires Words(items) == [] && Lex(t) == ItemsTokens(items) + ks && NoRedir(ks)
    ensures Reads(ParseRedirs(c, t), Redirected(c, items), ks)
    decreases |items|
  {
    hide Lex, GetToken, Peek, ParseRedirs, ItemTokens, OneRedirected, Skip;
    if items == [] {
      assert ItemsTokens(items) + ks == ks;
      PeekLex(t);
      RedirsSkip(c, t);
      LexSkip(t);
    } else {
      ItemsCons(items, ks);
      RedirStep(c, items[0], t, ItemsTokens(items[1..]) + ks);
      RedirsRead(OneRedirected(c, items[0]), items[1..], GetToken(GetToken(t).rest).rest, ks);
    }
  }

  /** Redirections and then arguments: one round of parseexec's loop. */
  function Round(c: Cmd<string>, argc: nat, t: string): (r: Parse) {
    var p := ParseRedirs(c, t);
    if p.Panic? then p else ParseArgs(p.cmd, argc, p.rest)
  }

  /** The command as the parser builds it, item by item. */
  function Grown(c: Cmd<string>, items: seq<Item>): (r: Cmd<string>)
    decreases |items|
  {
    if items == [] then c
    else Grown(if items[0].Arg? then AddArg(c, items[0].word) else OneRedirected(c, items[0]), items[1..])
  }

  lemma ArgStep(c: Cmd<string>, argc: nat, w: string, t: string, ks: seq<Token>)
    requires Lex(t) == [Word(w)] + ks && argc < 9
    ensures var rest := GetToken(t).rest;
            Lex(rest) == ks && |rest| < |t| && Round(c, argc, t) == Round(AddArg(c, w), argc + 1, rest)
  {
    hide Lex, GetToken, Peek, ParseRedirs, Skip, AddArg;
    Cut(t, Word(w), ks);
    PeekLex(t);
    RedirsSkip(c, t);
    SkipTwice(t);
  }

  lemma RoundEnds(c: Cmd<string>, argc: nat, t: string)
    requires UnitEnds(Lex(t))
    ensures Reads(Round(c, argc, t), c, Lex(t))
  {
    hide Lex, GetToken, Peek, ParseRedirs, Skip;
    PeekLex(t);
    RedirsSkip(c, t);
    SkipTwice(t);
    LexSkip(t);
    FrontLex(t);
  }

  lemma {:induction false} ItemsRead(c: Cmd<string>, argc: nat, items: seq<Item>, t: string, ks: seq<Token>)
    requires argc + |Words(items)| <= 9 && Lex(t) == ItemsTokens(items) + ks && UnitEnds(ks)
    ensures Reads(Round(c, argc, t), Grown(c, items), ks)
    decreases |items|
  {
    hide Lex, GetToken, Peek, ParseRedirs, ParseArgs, OneRedirected, AddArg, UnitEnds;
    if items == [] {
      assert ItemsTokens(items) + ks == ks;
      RoundEnds(c, argc, t);
    } else {
      ItemsCons(items, ks);
      var more := ItemsTokens(items[1..]) + ks;
      if items[0].Arg? {
        ArgStep(c, argc, items[0].word, t, more);
        ItemsRead(AddArg(c, items[0].word), argc + 1, items[1..], GetToken(t).rest, ks);
      } else {
        RedirStep(c, items[0], t, more);
        ItemsRead(OneRedirected(c, items[0]), argc, items[1..], GetToken(GetToken(t).rest).rest, ks);
      }
    }
  }

  lemma {:induction false} AddUnder(c: Cmd<string>, items: seq<Item>, w: string)
    ensures AddArg(Redirected(c, items), w) == Redirected(AddArg(c, w), items)
    decreases |items|
  {
    if items != [] {
      AddUnder(OneRedirected(c, items[0]), items[1..], w);
    }
  }

  lemma {:induction false} RedirectedMore(c: Cmd<string>, items: seq<Item>, i: Item)
    ensures Redirected(c, items + [i]) == OneRedirected(Redirected(c, items), i)
    decreases |items|
  {
    if items == [] {
      assert items + [i] == [i];
    } else {
      assert (items + [i])[1..] == items[1..] + [i];
      RedirectedMore(OneRedirected(c, items[0]), items[1..], i);
    }
  }

  /** Built item by item, the command has all the words in order under all the redirections in order. */
  lemma {:induction false} GrownIs(ws: seq<string>, done: seq<Item>, items: seq<Item>)
    ensures Grown(Redirected(Exec(ws), done), items) == Redirected(Exec(ws + Words(items)), done + items)
    decreases |items|
  {
    hide Redirected, OneRedirected, AddArg;
    if items == [] {
      assert ws + [] == ws && done + [] == done;
    } else {
      var c := Redirected(Exec(ws), done);
      var i := items[0];
      RedirectedMore(Exec(ws), done, i);
      assert done + [i] + items[1..] == done + items;
      if i.Arg? {
        AddUnder(Exec(ws), done, i.word);
        AddToExec(ws, i.word);
        RedirectedMore(Exec(ws + [i.word]), done, i);
        ArgKeeps(Redirected(Exec(ws + [i.word]), done), i);
        assert ws + [i.word] + Words(items[1..]) == ws + Words(items);
        GrownIs(ws + [i.word], done + [i], items[1..]);
      } else {
        assert Words(items) == Words(items[1..]);
        GrownIs(ws, done + [i], items[1..]);
      }
    }
  }

  lemma AddToExec(ws: seq<string>, w: string)
    ensures AddArg(Exec(ws), w) == Exec(ws + [w])
  {
  }

  lemma ArgKeeps(c: Cmd<string>, i: Item)
    requires i.Arg?
    ensures OneRedirected(c, i) == c
  {
  }

  lemma SimpleTree(items: seq<Item>)
    ensures Grown(Exec([]), items) == Redirected(Exec(Words(items)), items)
  {
    GrownIs([], [], items);
    assert [] + Words(items) == Words(items) && [] + items == items;
  }

  lemma UnitRead(u: Unit, t: string, ks: seq<Token>)
    requires UnitOk(u) && Lex(t) == UnitTokens(u) + ks && UnitEnds(ks)
    ensures Reads(ParseExec(t), UnitTree(u), ks)
    decreases u, 0
  {
    hide Lex, GetToken, Peek, ParseRedirs, ParseArgs, ParseLine, ItemsTokens, LineTokens, Grown, Redirected, Words;
    PeekLex(t);
    match u
    case Simple(items) =>
      SimpleStart(items, ks);
      ItemsRead(Exec([]), 0, items, t, ks);
      SimpleTree(items);
    case Block(l, redirs) =>
      var last := ItemsTokens(redirs) + ks;
      var inner := LineTokens(l) + ([Sign(")")] + last);
      assert UnitTokens(u) + ks == [Sign("(")] + inner;
      Cut(t, Sign("("), inner);
      LineRead(l, GetToken(t).rest, [Sign(")")] + last);
      var r := ParseLine(GetToken(t).rest);
      PeekLex(r.rest);
      Cut(r.rest, Sign(")"), last);
      RedirsRead(r.cmd, redirs, GetToken(r.rest).rest, ks);
  }

  lemma SimpleStart(items: seq<Item>, ks: seq<Token>)
    requires UnitEnds(ks)
    ensures var all := ItemsTokens(items) + ks; all == [] || all[0] != Sign("(")
  {
    if items != [] {
      ItemsCons(items, ks);
    }
  }

  lemma PipeRead(p: Pipeline, t: string, ks: seq<Token>)
    requires PipeOk(p) && Lex(t) == PipeTokens(p) + ks && UnitEnds(ks) && (ks == [] || ks[0] != Sign("|"))
    ensures Reads(ParsePipe(t), PipeTree(p), ks)
    decreases p, 1
  {
    hide Lex, GetToken, Peek, ParseExec, UnitTokens, UnitTree, Skip, UnitOk;
    var e := ParseExec(t);
    match p
    case One(u) =>
      UnitRead(u, t, ks);
      PeekLex(e.rest);
      LexSkip(e.rest);
    case Piped(u, rest) =>
      var more := [Sign("|")] + (PipeTokens(rest) + ks);
      assert PipeTokens(p) + ks == UnitTokens(u) + more;
      UnitRead(u, t, more);
      PeekLex(e.rest);
      Cut(e.rest, Sign("|"), PipeTokens(rest) + ks);
      PipeRead(rest, GetToken(e.rest).rest, ks);
  }

  lemma {:induction false} AmpsRead(c: Cmd<string>, n: nat, t: string, ks: seq<Token>)
    requires Lex(t) == Amps(n) + ks && (ks == [] || ks[0] != Sign("&"))
    ensures Reads(Backs(c, t), Backed(c, n), ks)
    decreases n
  {
    hide Lex, GetToken, Peek, Skip;
    PeekLex(t);
    if n == 0 {
      assert Amps(n) + ks == ks;
      LexSkip(t);
    } else {
      assert Amps(n) + ks == [Sign("&")] + (Amps(n - 1) + ks);
      Cut(t, Sign("&"), Amps(n - 1) + ks);
      AmpsRead(Back(c), n - 1, GetToken(t).rest, ks);
    }
  }

  lemma AmpsFront(n: nat, ks: seq<Token>)
    requires ks == [] || ks[0] == Sign(")") || ks[0] == Sign(";")
    ensures var all := Amps(n) + ks; UnitEnds(all) && (all == [] || all[0] != Sign("|"))
  {
  }

  lemma LineRead(l: Line, t: string, ks: seq<Token>)
    requires LineOk(l) && Lex(t) == LineTokens(l) + ks && (ks == [] || ks[0] == Sign(")"))
    ensures Reads(ParseLine(t), LineTree(l), ks)
    decreases l, 2
  {
    hide Lex, GetToken, Peek, ParsePipe, PipeTokens, PipeTree, Skip, PipeOk, Backs, Backed, Amps, UnitEnds;
    var more := if l.Last? then ks else [Sign(";")] + (LineTokens(l.rest) + ks);
    assert LineTokens(l) + ks == PipeTokens(l.pipe) + (Amps(l.amps) + more);
    AmpsFront(l.amps, more);
    PipeRead(l.pipe, t, Amps(l.amps) + more);
    var p := ParsePipe(t);
    AmpsRead(p.cmd, l.amps, p.rest, more);
    var b := Backs(p.cmd, p.rest);
    PeekLex(b.rest);
    LexSkip(b.rest);
    if l.Then? {
      Cut(b.rest, Sign(";"), LineTokens(l.rest) + ks);
      LineRead(l.rest, GetToken(b.rest).rest, ks);
    }
  }

  // What the parser reads is a phrase.

  /** Everything read is the items. */
  ghost predicate ItemsOf(t: string, items: seq<Item>, rest: string) {
    Lex(t) == ItemsTokens(items) + Lex(rest)
  }

  lemma NoItems(t: string)
    ensures ItemsOf(t, [], t) && ItemsOf(t, [], Skip(t))
  {
    hide Lex, Skip;
    LexSkip(t);
    assert ItemsTokens([]) + Lex(t) == Lex(t);
  }

  lemma ItemsOfCons(t: string, i: Item, u: string, items: seq<Item>, rest: string)
    requires Lex(t) == ItemTokens(i) + Lex(u) && ItemsOf(u, items, rest)
    ensures ItemsOf(t, [i] + items, rest)
  {
    hide Lex;
    ItemsCons([i] + items, Lex(rest));
    assert ([i] + items)[1..] == items;
  }

  /** A redirection sign and a file name make an item. */
  lemma RedirItem(c: Cmd<string>, t: string) returns (i: Item)
    requires Peek(t, {'<', '>'}) && GetToken(GetToken(t).rest).kind == WORD
    ensures !i.Arg? && Lex(t) == ItemTokens(i) + Lex(GetToken(GetToken(t).rest).rest)
    ensures var kind := GetToken(t).kind;
            OneRedirected(c, i) == Redir(c, GetToken(GetToken(t).rest).word, Mode(kind), Fd(kind))
  {
    hide Lex, GetToken, Peek, WordOk;
    PeekLex(t);
    FrontLex(t);
    FrontLex(GetToken(t).rest);
    var ks := Lex(t);
    var f := GetToken(GetToken(t).rest).word;
    i := if ks[0] == Sign("<") then In(f) else if ks[0] == Sign(">") then Out(f) else Append(f);
    assert ks == [ks[0]] + ([ks[1]] + ks[1..][1..]);
  }

  lemma {:induction false} RedirsParsed(c: Cmd<string>, t: string) returns (items: seq<Item>)
    requires ParseRedirs(c, t).Done?
    ensures Words(items) == [] && ItemsOf(t, items, ParseRedirs(c, t).rest)
    ensures ParseRedirs(c, t).cmd == Redirected(c, items)
    decreases |t|
  {
    hide Lex, GetToken, Peek, Skip, ItemsOf, OneRedirected, Mode, Fd, ItemTokens;
    if Peek(t, {'<', '>'}) {
      var tok := GetToken(t);
      var f := GetToken(tok.rest);
      var i := RedirItem(c, t);
      PeekToken(t, {'<', '>'});
      TokenShorter(tok.rest);
      var more := RedirsParsed(OneRedirected(c, i), f.rest);
      items := [i] + more;
      assert items[1..] == more;
      ItemsOfCons(t, i, f.rest, more, ParseRedirs(c, t).rest);
    } else {
      items := [];
      NoItems(t);
    }
  }

  lemma {:induction false} ItemsAppend(a: seq<Item>, b: seq<Item>)
    ensures ItemsTokens(a + b) == ItemsTokens(a) + ItemsTokens(b) && Words(a + b) == Words(a) + Words(b)
    decreases |a|
  {
    hide ItemTokens;
    if a == [] {
      assert a + b == b;
    } else {
      assert (a + b)[1..] == a[1..] + b && (a + b)[0] == a[0];
      ItemsAppend(a[1..], b);
      ItemsCons(a, ItemsTokens(b));
      assert Words(a + b) == (if a[0].Arg? then [a[0].word] else []) + (Words(a[1..]) + Words(b));
    }
  }

  lemma ItemsOfAppend(t: string, a: seq<Item>, u: string, b: seq<Item>, rest: string)
    requires ItemsOf(t, a, u) && ItemsOf(u, b, rest)
    ensures ItemsOf(t, a + b, rest)
  {
    hide Lex, ItemsTokens;
    ItemsAppend(a, b);
  }

  lemma {:induction false} GrownAppend(c: Cmd<string>, redirs: seq<Item>, items: seq<Item>)
    requires Words(redirs) == []
    ensures Grown(c, redirs + items) == Grown(Redirected(c, redirs), items)
    decreases |redirs|
  {
    hide OneRedirected;
    if redirs == [] {
      assert redirs + items == items;
    } else {
      assert (redirs + items)[1..] == redirs[1..] + items;
      GrownAppend(OneRedirected(c, redirs[0]), redirs[1..], items);
    }
  }

  lemma {:induction false} RoundParsed(c: Cmd<string>, argc: nat, t: string) returns (items: seq<Item>)
    requires Round(c, argc, t).Done? && argc <= 9
    ensures argc + |Words(items)| <= 9 && ItemsOf(t, items, Round(c, argc, t).rest)
    ensures Round(c, argc, t).cmd == Grown(c, items)
    decreases |t|
  {
    hide Lex, GetToken, Peek, Skip, ItemsOf, ParseRedirs, Grown, AddArg, Redirected, ItemTokens, ItemsTokens;
    var redirs := RedirsParsed(c, t);
    var p := ParseRedirs(c, t);
    var r := ParseArgs(p.cmd, argc, p.rest);
    var tok := GetToken(p.rest);
    var more := [];
    if Peek(p.rest, {'|', ')', '&', ';'}) || tok.kind == END {
      ArgsStop(p.cmd, argc, p.rest);
      GrownNone(p.cmd);
    } else {
      WordItem(p.cmd, argc, p.rest);
      var rest := RoundParsed(AddArg(p.cmd, tok.word), argc + 1, tok.rest);
      more := [Arg(tok.word)] + rest;
      assert more[1..] == rest;
      ItemsOfCons(p.rest, Arg(tok.word), tok.rest, rest, r.rest);
      GrownCons(p.cmd, more);
    }
    ItemsAppend(redirs, more);
    ItemsOfAppend(t, redirs, p.rest, more, r.rest);
    GrownAppend(c, redirs, more);
    items := redirs + more;
  }

  lemma GrownNone(c: Cmd<string>)
    ensures Grown(c, []) == c
  {
  }

  lemma GrownCons(c: Cmd<string>, items: seq<Item>)
    requires items != [] && items[0].Arg?
    ensures Grown(c, items) == Grown(AddArg(c, items[0].word), items[1..])
  {
  }

  lemma ArgsStop(c: Cmd<string>, argc: nat, t: string)
    requires Peek(t, {'|', ')', '&', ';'}) || GetToken(t).kind == END
    ensures var r := ParseArgs(c, argc, t); r.Done? && r.cmd == c && ItemsOf(t, [], r.rest)
  {
    hide Lex, GetToken, Peek, Skip, ItemsOf;
    NoItems(t);
    if !Peek(t, {'|', ')', '&', ';'}) {
      FrontLex(t);
      NoItems(GetToken(t).rest);
      SameLex(t, GetToken(t).rest);
    }
  }

  lemma SameLex(t: string, u: string)
    requires Lex(t) == Lex(u)
    ensures ItemsOf(t, [], u)
  {
    hide Lex;
    NoItems(t);
  }

  lemma WordItem(c: Cmd<string>, argc: nat, t: string)
    requires !Peek(t, {'|', ')', '&', ';'}) && GetToken(t).kind != END && ParseArgs(c, argc, t).Done?
    ensures var tok := GetToken(t);
            && argc + 1 <= 9 && |tok.rest| < |t| && Lex(t) == ItemTokens(Arg(tok.word)) + Lex(tok.rest)
            && ParseArgs(c, argc, t) == Round(AddArg(c, tok.word), argc + 1, tok.rest)
  {
    hide Lex, GetToken, Peek, ParseRedirs, AddArg;
    FrontLex(t);
    TokenShorter(t);
    assert Lex(t) == [Lex(t)[0]] + Lex(t)[1..];
  }

  lemma UnitParsed(t: string) returns (u: Unit)
    requires ParseExec(t).Done?
    ensures UnitOk(u) && Lex(t) == UnitTokens(u) + Lex(ParseExec(t).rest) && ParseExec(t).cmd == UnitTree(u)
    decreases |t|, 1
  {
    hide Lex, GetToken, Peek, ParseRedirs, ParseArgs, ParseLine, ItemsTokens, Words, Grown, LineTokens, Redirected;
    if Peek(t, {'('}) {
      PeekLex(t);
      FrontLex(t);
      PeekToken(t, {'('});
      var inner := GetToken(t).rest;
      var l := LineParsed(inner);
      var r := ParseLine(inner);
      PeekLex(r.rest);
      FrontLex(r.rest);
      var last := GetToken(r.rest).rest;
      var redirs := RedirsParsed(r.cmd, last);
      u := Block(l, redirs);
      BlockTokens(t, l, r.rest, redirs, ParseExec(t).rest);
    } else {
      var items := RoundParsed(Exec([]), 0, t);
      SimpleTree(items);
      u := Simple(items);
    }
  }

  lemma BlockTokens(t: string, l: Line, at: string, redirs: seq<Item>, rest: string)
    requires Lex(t) != [] && Lex(t)[0] == Sign("(") && Lex(t)[1..] == LineTokens(l) + Lex(at)
    requires Lex(at) != [] && Lex(at)[0] == Sign(")") && Lex(at)[1..] == ItemsTokens(redirs) + Lex(rest)
    ensures Lex(t) == UnitTokens(Block(l, redirs)) + Lex(rest)
  {
    hide Lex, LineTokens, ItemsTokens;
    assert Lex(at) == [Sign(")")] + (ItemsTokens(redirs) + Lex(rest));
    assert Lex(t) == [Sign("(")] + (LineTokens(l) + Lex(at));
  }

  lemma PipeParsed(t: string) returns (p: Pipeline)
    requires ParsePipe(t).Done?
    ensures PipeOk(p) && Lex(t) == PipeTokens(p) + Lex(ParsePipe(t).rest) && ParsePipe(t).cmd == PipeTree(p)
    decreases |t|, 2
  {
    hide Lex, GetToken, Peek, ParseExec, UnitTokens, UnitTree, UnitOk, Skip;
    var u := UnitParsed(t);
    var e := ParseExec(t);
    if Peek(e.rest, {'|'}) {
      PeekLex(e.rest);
      FrontLex(e.rest);
      PeekToken(e.rest, {'|'});
      var rest := PipeParsed(GetToken(e.rest).rest);
      p := Piped(u, rest);
      assert Lex(e.rest) == [Sign("|")] + (PipeTokens(rest) + Lex(ParsePipe(t).rest));
      assert Lex(t) == PipeTokens(p) + Lex(ParsePipe(t).rest);
    } else {
      LexSkip(e.rest);
      p := One(u);
    }
  }

  lemma {:induction false} AmpsParsed(c: Cmd<string>, t: string) returns (n: nat)
    ensures Lex(t) == Amps(n) + Lex(Backs(c, t).rest) && Backs(c, t).cmd == Backed(c, n)
    decreases |t|
  {
    hide Lex, GetToken, Peek, Skip;
    if Peek(t, {'&'}) {
      PeekLex(t);
      FrontLex(t);
      PeekToken(t, {'&'});
      var m := AmpsParsed(Back(c), GetToken(t).rest);
      n := m + 1;
      assert Lex(t) == [Sign("&")] + (Amps(m) + Lex(Backs(c, t).rest));
      assert Lex(t) == Amps(n) + Lex(Backs(c, t).rest);
    } else {
      LexSkip(t);
      n := 0;
    }
  }

  lemma LineParsed(t: string) returns (l: Line)
    requires ParseLine(t).Done?
    ensures LineOk(l) && Lex(t) == LineTokens(l) + Lex(ParseLine(t).rest) && ParseLine(t).cmd == LineTree(l)
    decreases |t|, 3
  {
    hide Lex, GetToken, Peek, ParsePipe, PipeTokens, PipeTree, PipeOk, Skip, Backs, Backed, Amps;
    var pipe := PipeParsed(t);
    var p := ParsePipe(t);
    var n := AmpsParsed(p.cmd, p.rest);
    var b := Backs(p.cmd, p.rest);
    if Peek(b.rest, {';'}) {
      PeekLex(b.rest);
      FrontLex(b.rest);
      PeekToken(b.rest, {';'});
      var rest := LineParsed(GetToken(b.rest).rest);
      l := Then(pipe, n, rest);
      assert Lex(b.rest) == [Sign(";")] + (LineTokens(rest) + Lex(ParseLine(t).rest));
      assert Lex(t) == LineTokens(l) + Lex(ParseLine(t).rest);
    } else {
      LexSkip(b.rest);
      l := Last(pipe, n);
      assert Lex(t) == LineTokens(l) + Lex(b.rest);
    }
  }

  /** A line is accepted with a command exactly when its tokens are those of a phrase for that command. */
  lemma Language(s: string, c: Cmd<string>)
    ensures ParseCmd(s) == Done(c, "") <==>
              exists l :: LineOk(l) && LineTokens(l) == Lex(s) && LineTree(l) == c
  {
    hide Lex, ParseLine, LineOk, LineTokens, LineTree, Skip;
    if ParseCmd(s) == Done(c, "") {
      var l := LineParsed(s);
      LexUnfold(ParseLine(s).rest);
      assert LineTokens(l) + [] == LineTokens(l);
      assert LineOk(l) && LineTokens(l) == Lex(s) && LineTree(l) == c;
    }
    if l :| LineOk(l) && LineTokens(l) == Lex(s) && LineTree(l) == c {
      assert LineTokens(l) + [] == LineTokens(l);
      LineRead(l, s, []);
      LexUnfold(ParseLine(s).rest);
    }
  }
}
