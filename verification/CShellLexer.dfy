/** The c-shell's lexer (c-shell/src/lexer.c): one scan over the line, with escapes and two kinds of quotes. */
module CShellLexer {

  const SPECIAL := 0  // the types of tokens
  const ORDINARY := 4

  datatype Token = Token(value: string, kind: int)

  predicate IsBlank(c: char) {
    c == ' ' || c == '\t' || c == '\n' || c == '\r'
  }

  predicate IsOperator(c: char) {
    c == '|' || c == '&' || c == '<' || c == '>' || c == ';'
  }

  predicate IsDelimiter(c: char) {
    IsBlank(c) || IsOperator(c)
  }

  // The scan as a function of the text still to be read.

  datatype Scan = Bad | Good(text: string, rest: string)

  function Push(t: string, s: Scan): (r: Scan) {
    if s.Bad? then Bad else Good(t + s.text, s.rest)
  }

  /** Inside double quotes: a backslash escapes a quote or a backslash and otherwise stands for itself. */
  function DoubleQuoted(s: string): (r: Scan)
    ensures r.Good? ==> |r.text| + |r.rest| < |s|
  {
    if s == "" then Bad
    else if s[0] == '"' then Good("", s[1..])
    else if s[0] != '\\' then Push([s[0]], DoubleQuoted(s[1..]))
    else if |s| == 1 then Bad
    else Push(Unescaped(s[1]), DoubleQuoted(s[2..]))
  }

  function Unescaped(c: char): (r: string) {
    if c == '"' || c == '\\' then [c] else ['\\', c]
  }

  function SingleQuoted(s: string): (r: Scan)
    ensures r.Good? ==> |r.text| + |r.rest| < |s|
  {
    if s == "" then Bad
    else if s[0] == '\'' then Good("", s[1..])
    else Push([s[0]], SingleQuoted(s[1..]))
  }

  /** A word, up to the first delimiter that is neither escaped nor quoted; it stores no more than it reads. */
  function Word(s: string): (r: Scan)
    ensures r.Good? ==> |r.text| + |r.rest| <= |s| && (r.rest == "" || IsDelimiter(r.rest[0]))
    ensures r.Good? && s != "" && !IsDelimiter(s[0]) ==> |r.rest| < |s|
    decreases |s|
  {
    if s == "" || IsDelimiter(s[0]) then Good("", s)
    else if s[0] == '\\' then (if |s| == 1 then Bad else Push([s[1]], Word(s[2..])))
    else if s[0] == '"' then
      var q := DoubleQuoted(s[1..]);
      if q.Bad? then Bad else Push(q.text, Word(q.rest))
    else if s[0] == '\'' then
      var q := SingleQuoted(s[1..]);
      if q.Bad? then Bad else Push(q.text, Word(q.rest))
    else Push([s[0]], Word(s[1..]))
  }

  datatype Lexed = SyntaxError | Tokens(tokens: seq<Token>)

  function Cons(t: Token, l: Lexed): (r: Lexed) {
    if l.SyntaxError? then l else Tokens([t] + l.tokens)
  }

  function OperatorLength(s: string): (n: nat)
    requires s != ""
    ensures 1 <= n <= |s|
  {
    if s[0] == '>' && |s| > 1 && s[1] == '>' then 2 else 1
  }

  /** Where reading goes on after a word: the code's outer loop drops the delimiter whatever it is; the grammar
      asks for dropping it only when it is a blank. */
  function AfterWord(rest: string, intended: bool): (r: string)
    ensures |r| <= |rest|
  {
    if rest == "" || (intended && IsOperator(rest[0])) then rest else rest[1..]
  }

  function Lex(s: string, intended: bool): (r: Lexed)
    decreases |s|
  {
    if s == "" then Tokens([])
    else if IsBlank(s[0]) then Lex(s[1..], intended)
    else if IsOperator(s[0]) then
      var n := OperatorLength(s);
      Cons(Token(s[..n], SPECIAL), Lex(s[n..], intended))
    else
      var w := Word(s);
      if w.Bad? then SyntaxError
      else Cons(Token(w.text, ORDINARY), Lex(AfterWord(w.rest, intended), intended))
  }

  // The program.  The text of a token goes into a buffer with room for the rest of the line and a NUL.

  /** `value[..k]` has been stored since `start`, and the rest of the word follows at i. */
  ghost predicate WordSoFar(cmd: string, start: nat, value: string, i: nat) {
    && start <= i <= |cmd| && |value| <= i - start
    && Word(cmd[start..]) == Push(value, Word(cmd[i..]))
  }

  ghost predicate QuoteSoFar(cmd: string, start: nat, i: nat, double: bool, value0: string, value: string) {
    && start <= i <= |cmd| && |value| - |value0| <= i - start && value0 <= value
    && var q := if double then DoubleQuoted(cmd[start..]) else SingleQuoted(cmd[start..]);
       var rest := if double then DoubleQuoted(cmd[i..]) else SingleQuoted(cmd[i..]);
       Push(value0, q) == Push(value, rest)
  }

  lemma QuoteStarts(cmd: string, start: nat, double: bool, value: string)
    requires start <= |cmd|
    ensures QuoteSoFar(cmd, start, start, double, value, value)
  {
  }

  lemma QuoteStep(cmd: string, start: nat, i: nat, double: bool, value0: string, value: string)
    requires QuoteSoFar(cmd, start, i, double, value0, value) && i < |cmd|
    requires cmd[i] != if double then '"' else '\''
    ensures !(double && cmd[i] == '\\') ==> QuoteSoFar(cmd, start, i + 1, double, value0, value + [cmd[i]])
    ensures double && cmd[i] == '\\' && i + 1 < |cmd| ==>
              QuoteSoFar(cmd, start, i + 2, double, value0, value + Unescaped(cmd[i + 1]))
    ensures double && cmd[i] == '\\' && i + 1 == |cmd| ==> DoubleQuoted(cmd[start..]).Bad?
  {
    hide Unescaped;
    assert cmd[i..][1..] == cmd[i + 1..];
    if double && cmd[i] == '\\' {
      if i + 1 < |cmd| {
        assert cmd[i..][2..] == cmd[i + 2..];
        PushPush(value, Unescaped(cmd[i + 1]), DoubleQuoted(cmd[i + 2..]));
        UnescapedSize(cmd[i + 1]);
      }
    } else {
      PushPush(value, [cmd[i]], if double then DoubleQuoted(cmd[i + 1..]) else SingleQuoted(cmd[i + 1..]));
    }
  }

  lemma UnescapedSize(c: char)
    ensures |Unescaped(c)| <= 2
  {
  }

  lemma QuoteEnds(cmd: string, start: nat, i: nat, double: bool, value0: string, value: string)
    requires QuoteSoFar(cmd, start, i, double, value0, value)
    requires i < |cmd| ==> cmd[i] == if double then '"' else '\''
    ensures var q := if double then DoubleQuoted(cmd[start..]) else SingleQuoted(cmd[start..]);
            && (q.Good? <==> i < |cmd|)
            && (q.Good? ==> value0 + q.text == value && q.rest == cmd[i + 1..])
  {
    assert i == |cmd| ==> cmd[i..] == "";
    assert i < |cmd| ==> cmd[i..][1..] == cmd[i + 1..];
  }

  /** The loop over a quotation, from the character after its opening quote to the one after its closing
      quote. */
  method ReadQuoted(cmd: string, start: nat, double: bool, value: array<char>, k0: nat)
    returns (ok: bool, i: nat, k: nat)
    requires start <= |cmd| && k0 + |cmd| - start <= value.Length
    modifies value
    ensures var q := if double then DoubleQuoted(cmd[start..]) else SingleQuoted(cmd[start..]);
            && ok == q.Good?
            && (ok ==> && start <= i <= |cmd| && q.rest == cmd[i..] && k - k0 < i - start
                       && k0 <= k <= value.Length && value[..k] == old(value[..k0]) + q.text)
  {
    hide QuoteSoFar, DoubleQuoted, SingleQuoted, Unescaped;
    ghost var v0 := value[..k0];
    i, k := start, k0;
    QuoteStarts(cmd, start, double, v0);
    while i < |cmd| && cmd[i] != (if double then '"' else '\'')
      invariant start <= i <= |cmd| && k0 <= k && k - k0 <= i - start
      invariant QuoteSoFar(cmd, start, i, double, v0, value[..k])
    {
      QuoteStep(cmd, start, i, double, v0, value[..k]);
      if double && cmd[i] == '\\' {
        i := i + 1;
        if i >= |cmd| {
          return false, i, k;
        }
        k := StoreEscaped(value, k, cmd[i]);
        i := i + 1;
      } else {
        k := Store(value, k, cmd[i]);
        i := i + 1;
      }
    }
    QuoteEnds(cmd, start, i, double, v0, value[..k]);
    if i >= |cmd| {
      return false, i, k;
    }
    i, ok := i + 1, true;
  }

  /** value[k++] = c */
  method Store(value: array<char>, k: nat, c: char) returns (k': nat)
    requires k < value.Length
    modifies value
    ensures k' == k + 1 && value[..k'] == old(value[..k]) + [c]
  {
    value[k] := c;
    k' := k + 1;
  }

  /** What a backslash inside double quotes stores. */
  method StoreEscaped(value: array<char>, k: nat, c: char) returns (k': nat)
    requires k + 1 < value.Length
    modifies value
    ensures k < k' <= k + 2 && value[..k'] == old(value[..k]) + Unescaped(c)
  {
    if c == '"' || c == '\\' {
      k' := Store(value, k, c);
    } else {
      k' := Store(value, k, '\\');
      k' := Store(value, k', c);
    }
  }

  lemma WordStarts(cmd: string, start: nat)
    requires start <= |cmd|
    ensures WordSoFar(cmd, start, "", start)
  {
    var w := Word(cmd[start..]);
    assert w.Good? ==> "" + w.text == w.text;
  }

  lemma PushPush(a: string, b: string, s: Scan)
    ensures Push(a, Push(b, s)) == Push(a + b, s)
  {
    if s.Good? {
      assert a + (b + s.text) == a + b + s.text;
    }
  }

  /** One turn of the word loop. */
  lemma WordStep(cmd: string, start: nat, value: string, i: nat)
    requires WordSoFar(cmd, start, value, i) && i < |cmd| && !IsDelimiter(cmd[i])
    ensures cmd[i] == '\\' && i + 1 == |cmd| ==> Word(cmd[start..]).Bad?
    ensures cmd[i] == '\\' && i + 1 < |cmd| ==> WordSoFar(cmd, start, value + [cmd[i + 1]], i + 2)
    ensures cmd[i] != '\\' && cmd[i] != '"' && cmd[i] != '\'' ==> WordSoFar(cmd, start, value + [cmd[i]], i + 1)
  {
    assert cmd[i..][1..] == cmd[i + 1..];
    if i + 1 < |cmd| {
      assert cmd[i..][2..] == cmd[i + 2..];
      PushPush(value, [cmd[i + 1]], Word(cmd[i + 2..]));
    }
    PushPush(value, [cmd[i]], Word(cmd[i + 1..]));
  }

  lemma WordQuote(cmd: string, start: nat, value: string, i: nat)
    requires WordSoFar(cmd, start, value, i) && i < |cmd| && (cmd[i] == '"' || cmd[i] == '\'')
    ensures var q := if cmd[i] == '"' then DoubleQuoted(cmd[i + 1..]) else SingleQuoted(cmd[i + 1..]);
            && (q.Bad? ==> Word(cmd[start..]).Bad?)
            && forall j {:trigger cmd[j..]} :: i < j <= |cmd| && q.Good? && q.rest == cmd[j..] && |q.text| < j - i ==>
                 WordSoFar(cmd, start, value + q.text, j)
  {
    var q := if cmd[i] == '"' then DoubleQuoted(cmd[i + 1..]) else SingleQuoted(cmd[i + 1..]);
    assert cmd[i..][1..] == cmd[i + 1..];
    if q.Good? {
      PushPush(value, q.text, Word(q.rest));
    }
  }

  lemma WordEnds(cmd: string, start: nat, value: string, i: nat)
    requires WordSoFar(cmd, start, value, i) && (i < |cmd| ==> IsDelimiter(cmd[i]))
    ensures Word(cmd[start..]) == Good(value, cmd[i..])
  {
    assert i < |cmd| ==> cmd[i..][0] == cmd[i];
    assert value + "" == value;
  }

  /** The word loop. */
  method ReadWord(cmd: string, start: nat, value: array<char>) returns (ok: bool, i: nat, k: nat)
    requires start <= |cmd| && value.Length == |cmd| - start + 1
    modifies value
    ensures ok == Word(cmd[start..]).Good?
    ensures ok ==> && start <= i <= |cmd| && k <= i - start && value[k] == '\0'
                   && Word(cmd[start..]) == Good(value[..k], cmd[i..])
  {
    hide WordSoFar, DoubleQuoted, SingleQuoted, Word;
    i, k := start, 0;
    WordStarts(cmd, start);
    assert value[..0] == "";
    while i < |cmd| && !IsDelimiter(cmd[i])
      invariant start <= i <= |cmd| && k <= i - start
      invariant WordSoFar(cmd, start, value[..k], i)
      decreases |cmd| - i
    {
      WordStep(cmd, start, value[..k], i);
      ghost var v := value[..k];
      if cmd[i] == '\\' {
        i := i + 1;
        if i >= |cmd| {
          return false, i, k;
        }
        k := Store(value, k, cmd[i]);
        i := i + 1;
      } else if cmd[i] == '"' || cmd[i] == '\'' {
        WordQuote(cmd, start, v, i);
        ok, i, k := ReadQuoted(cmd, i + 1, cmd[i] == '"', value, k);
        if !ok {
          return;
        }
      } else {
        k := Store(value, k, cmd[i]);
        i := i + 1;
      }
    }
    WordEnds(cmd, start, value[..k], i);
    ghost var v := value[..k];
    value[k] := '\0';
    assert value[..k] == v;
    ok := true;
  }

  function Append(ts: seq<Token>, l: Lexed): (r: Lexed) {
    if l.SyntaxError? then l else Tokens(ts + l.tokens)
  }

  lemma LexStep(cmd: string, i: nat, args: seq<Token>, intended: bool)
    requires i < |cmd|
    ensures IsBlank(cmd[i]) ==> Lex(cmd[i..], intended) == Lex(cmd[i + 1..], intended)
    ensures IsOperator(cmd[i]) ==>
              var n := if cmd[i] == '>' && i + 1 < |cmd| && cmd[i + 1] == '>' then 2 else 1;
              Append(args, Lex(cmd[i..], intended)) ==
                Append(args + [Token(cmd[i..i + n], SPECIAL)], Lex(cmd[i + n..], intended))
    ensures !IsDelimiter(cmd[i]) ==>
              && (Word(cmd[i..]).Bad? ==> Lex(cmd[i..], intended).SyntaxError?)
              && (Word(cmd[i..]).Good? ==>
                    Append(args, Lex(cmd[i..], intended)) ==
                    Append(args + [Token(Word(cmd[i..]).text, ORDINARY)],
                      Lex(AfterWord(Word(cmd[i..]).rest, intended), intended)))
  {
    hide Word;
    var s := cmd[i..];
    assert s[0] == cmd[i] && s[1..] == cmd[i + 1..];
    if IsOperator(cmd[i]) {
      var n := OperatorLength(s);
      assert s[..n] == cmd[i..i + n] && s[n..] == cmd[i + n..];
      AppendCons(args, Token(s[..n], SPECIAL), Lex(s[n..], intended));
    } else if !IsBlank(cmd[i]) && Word(s).Good? {
      AppendCons(args, Token(Word(s).text, ORDINARY), Lex(AfterWord(Word(s).rest, intended), intended));
    }
  }

  lemma AppendCons(ts: seq<Token>, t: Token, l: Lexed)
    ensures Append(ts, Cons(t, l)) == Append(ts + [t], l)
  {
    if l.Tokens? {
      assert ts + ([t] + l.tokens) == ts + [t] + l.tokens;
    }
  }

  /** The lexer: 0 and the tokens, or -1. */
  method Lexer(cmd: string) returns (r: Lexed)
    ensures r == Lex(cmd, false)
  {
    hide Lex, Word;
    var args: seq<Token> := [];
    var i := 0;
    LexStarts(cmd);
    while i < |cmd|
      invariant Lex(cmd, false) == Append(args, Lex(if i <= |cmd| then cmd[i..] else "", false))
    {
      i := SkipBlanks(cmd, i);
      if i >= |cmd| {
        break;
      }
      LexStep(cmd, i, args, false);
      var value := new char[|cmd| - i + 1];
      if cmd[i] == '|' || cmd[i] == '&' || cmd[i] == '<' || cmd[i] == ';' {
        value[0], value[1] := cmd[i], '\0';
        args := args + [Token(value[..1], SPECIAL)];
        assert value[..1] == cmd[i..i + 1];
      } else if cmd[i] == '>' {
        var k := 1;
        value[0] := cmd[i];
        ghost var at := i;
        if i + 1 < |cmd| && cmd[i + 1] == '>' {
          value[k] := cmd[i + 1];
          i, k := i + 1, k + 1;
        }
        value[k] := '\0';
        args := args + [Token(value[..k], SPECIAL)];
        assert value[..k] == cmd[at..i + 1];
      } else {
        var ok, e, k := ReadWord(cmd, i, value);
        if !ok {
          return SyntaxError;
        }
        args := args + [Token(value[..k], ORDINARY)];
        assert cmd[e..] == "" || cmd[e..][1..] == cmd[e + 1..];
        i := e;
      }
      i := i + 1;
    }
    assert i <= |cmd| ==> cmd[i..] == "";
    LexEnds(args);
    r := Tokens(args);
  }

  lemma LexStarts(cmd: string)
    ensures Lex(cmd, false) == Append([], Lex(cmd[0..], false))
  {
    assert cmd[0..] == cmd;
    assert Lex(cmd, false).Tokens? ==> [] + Lex(cmd, false).tokens == Lex(cmd, false).tokens;
  }

  lemma LexEnds(args: seq<Token>)
    ensures Append(args, Lex("", false)) == Tokens(args)
  {
  }

  method SkipBlanks(cmd: string, start: nat) returns (i: nat)
    requires start <= |cmd|
    ensures start <= i <= |cmd| && Lex(cmd[start..], false) == Lex(cmd[i..], false)
    ensures i < |cmd| ==> !IsBlank(cmd[i])
  {
    hide Lex;
    i := start;
    while i < |cmd| && IsBlank(cmd[i])
      invariant start <= i <= |cmd| && Lex(cmd[start..], false) == Lex(cmd[i..], false)
    {
      LexStep(cmd, i, [], false);
      i := i + 1;
    }
  }

  // How a line spells its tokens.

  /** A character inside double quotes: as it is, escaped, or with a backslash before it that stays. */
  datatype Mark = Plain(c: char) | Quoted(c: char) | Kept(c: char)

  datatype Part = Bare(c: char) | Escaped(c: char) | Double(marks: seq<Mark>) | Single(text: string)

  datatype Printed = Operator(op: string) | AWord(parts: seq<Part>)

  /** A token with the blanks before it. */
  datatype Placed = Placed(gap: string, item: Printed)

  predicate MarkOk(m: Mark) {
    if m.Quoted? then m.c == '"' || m.c == '\\' else m.c != '"' && m.c != '\\'
  }

  predicate PartOk(p: Part) {
    match p
    case Bare(c) => c !in " \t\n\r" && c !in "|&<>;" && c != '\\' && c != '"' && c != '\''
    case Escaped(_) => true
    case Double(marks) => forall i :: 0 <= i < |marks| ==> MarkOk(marks[i])
    case Single(text) => forall i :: 0 <= i < |text| ==> text[i] != '\''
  }

  predicate Printable(p: Printed) {
    match p
    case Operator(op) => op == "|" || op == "&" || op == "<" || op == ">" || op == ">>" || op == ";"
    case AWord(parts) => parts != [] && forall i :: 0 <= i < |parts| ==> PartOk(parts[i])
  }

  predicate Gap(g: string) {
    forall i :: 0 <= i < |g| ==> g[i] in " \t\n\r"
  }

  /** With no blank between them, q is read as a token of its own after p.  The code reads nothing so after a
      word; the grammar asks for operators to be. */
  predicate Apart(p: Printed, q: Printed, intended: bool) {
    && (p.AWord? ==> intended && q.Operator?)
    && (p == Operator(">") ==> q != Operator(">") && q != Operator(">>"))
  }

  predicate LayoutOk(ps: seq<Placed>, intended: bool) {
    && (forall i :: 0 <= i < |ps| ==> Gap(ps[i].gap) && Printable(ps[i].item))
    && forall i :: 0 < i < |ps| && ps[i].gap == "" ==> Apart(ps[i - 1].item, ps[i].item, intended)
  }

  function MarksText(marks: seq<Mark>): (s: string) {
    if marks == [] then ""
    else (if marks[0].Plain? then [marks[0].c] else ['\\', marks[0].c]) + MarksText(marks[1..])
  }

  function MarksValue(marks: seq<Mark>): (s: string) {
    if marks == [] then ""
    else (if marks[0].Kept? then ['\\', marks[0].c] else [marks[0].c]) + MarksValue(marks[1..])
  }

  function PartText(p: Part): (s: string) {
    match p
    case Bare(c) => [c]
    case Escaped(c) => ['\\', c]
    case Double(marks) => ['"'] + (MarksText(marks) + ['"'])
    case Single(text) => ['\''] + (text + ['\''])
  }

  function PartValue(p: Part): (s: string) {
    match p
    case Bare(c) => [c]
    case Escaped(c) => [c]
    case Double(marks) => MarksValue(marks)
    case Single(text) => text
  }

  function PartsText(parts: seq<Part>): (s: string) {
    if parts == [] then "" else PartText(parts[0]) + PartsText(parts[1..])
  }

  function PartsValue(parts: seq<Part>): (s: string) {
    if parts == [] then "" else PartValue(parts[0]) + PartsValue(parts[1..])
  }

  function Text(p: Printed): (s: string) {
    match p
    case Operator(op) => op
    case AWord(parts) => PartsText(parts)
  }

  function TokensOf(ps: seq<Placed>): (ts: seq<Token>) {
    if ps == [] then []
    else
      (match ps[0].item
       case Operator(op) => [Token(op, SPECIAL)]
       case AWord(parts) => [Token(PartsValue(parts), ORDINARY)]) + TokensOf(ps[1..])
  }

  function Print(ps: seq<Placed>, tail: string): (s: string) {
    if ps == [] then tail else ps[0].gap + (Text(ps[0].item) + Print(ps[1..], tail))
  }

  // A line is read as what it spells.

  lemma CharsAre(c: char)
    ensures IsBlank(c) <==> c in " \t\n\r"
    ensures IsOperator(c) <==> c in "|&<>;"
  {
    var blanks, operators := " \t\n\r", "|&<>;";
    assert blanks[0] == ' ' && blanks[1] == '\t' && blanks[2] == '\n' && blanks[3] == '\r';
    assert operators[0] == '|' && operators[1] == '&' && operators[2] == '<' && operators[3] == '>';
    assert operators[4] == ';';
  }

  /** What may follow a word. */
  predicate Stops(rest: string) {
    rest == "" || IsDelimiter(rest[0])
  }

  lemma WordStops(rest: string)
    requires Stops(rest)
    ensures Word(rest) == Good("", rest)
  {
  }

  lemma {:induction false} MarksRead(marks: seq<Mark>, rest: string)
    requires PartOk(Double(marks))
    ensures DoubleQuoted(MarksText(marks) + (['"'] + rest)) == Good(MarksValue(marks), rest)
  {
    hide DoubleQuoted;
    if marks == [] {
      assert MarksText(marks) + (['"'] + rest) == ['"'] + rest;
      MarksEnd(rest);
    } else {
      var more := MarksText(marks[1..]) + (['"'] + rest);
      MarksRead(marks[1..], rest);
      MarkStep(marks[0], more);
      assert MarksText(marks) + (['"'] + rest) ==
             (if marks[0].Plain? then [marks[0].c] else ['\\', marks[0].c]) + more;
    }
  }

  lemma MarksEnd(rest: string)
    ensures DoubleQuoted(['"'] + rest) == Good("", rest)
  {
    assert (['"'] + rest)[1..] == rest;
  }

  lemma MarkStep(m: Mark, t: string)
    requires MarkOk(m)
    ensures DoubleQuoted((if m.Plain? then [m.c] else ['\\', m.c]) + t) ==
              Push(if m.Kept? then ['\\', m.c] else [m.c], DoubleQuoted(t))
  {
    var s := (if m.Plain? then [m.c] else ['\\', m.c]) + t;
    assert s[0] == if m.Plain? then m.c else '\\';
    assert if m.Plain? then s[1..] == t else s[1] == m.c && s[2..] == t;
  }

  lemma {:induction false} SingleReads(v: string, rest: string)
    requires forall i :: 0 <= i < |v| ==> v[i] != '\''
    ensures SingleQuoted(v + (['\''] + rest)) == Good(v, rest)
  {
    var s := v + (['\''] + rest);
    if v == "" {
      assert s[1..] == rest;
    } else {
      SingleReads(v[1..], rest);
      assert v == [v[0]] + v[1..] && s[1..] == v[1..] + (['\''] + rest);
    }
  }

  lemma QuoteOpens(t: string)
    ensures var q := DoubleQuoted(t); q.Good? ==> Word(['"'] + t) == Push(q.text, Word(q.rest))
    ensures var q := SingleQuoted(t); q.Good? ==> Word(['\''] + t) == Push(q.text, Word(q.rest))
  {
    hide DoubleQuoted, SingleQuoted;
    assert (['"'] + t)[1..] == t && (['\''] + t)[1..] == t;
  }

  lemma PartStep(p: Part, t: string)
    requires PartOk(p)
    ensures Word(PartText(p) + t) == Push(PartValue(p), Word(t))
  {
    hide DoubleQuoted, SingleQuoted, Word;
    match p
    case Bare(c) => BareStep(c, t);
    case Escaped(c) => EscapeStep(c, t);
    case Double(marks) =>
      assert PartText(p) + t == ['"'] + (MarksText(marks) + (['"'] + t));
      MarksRead(marks, t);
      QuoteOpens(MarksText(marks) + (['"'] + t));
    case Single(v) =>
      assert PartText(p) + t == ['\''] + (v + (['\''] + t));
      SingleReads(v, t);
      QuoteOpens(v + (['\''] + t));
  }

  lemma BareStep(c: char, t: string)
    requires PartOk(Bare(c))
    ensures Word([c] + t) == Push([c], Word(t))
  {
    CharsAre(c);
    assert ([c] + t)[1..] == t;
  }

  lemma EscapeStep(c: char, t: string)
    ensures Word(['\\', c] + t) == Push([c], Word(t))
  {
    assert (['\\', c] + t)[2..] == t;
  }

  lemma {:induction false} PartsRead(parts: seq<Part>, rest: string)
    requires (forall i :: 0 <= i < |parts| ==> PartOk(parts[i])) && Stops(rest)
    ensures Word(PartsText(parts) + rest) == Good(PartsValue(parts), rest)
  {
    hide Word, PartText, PartValue, PartOk;
    if parts == [] {
      assert PartsText(parts) + rest == rest;
      WordStops(rest);
    } else {
      var more := PartsText(parts[1..]) + rest;
      assert PartsText(parts) + rest == PartText(parts[0]) + more;
      PartStep(parts[0], more);
      PartsRead(parts[1..], rest);
    }
  }

  lemma PartsFront(parts: seq<Part>)
    requires parts != [] && PartOk(parts[0])
    ensures PartsText(parts) != "" && !IsDelimiter(PartsText(parts)[0])
  {
    var p := parts[0];
    if p.Bare? {
      CharsAre(p.c);
    }
    assert PartText(p) != "" && PartsText(parts)[0] == PartText(p)[0];
  }

  lemma {:induction false} LexGap(g: string, t: string, intended: bool)
    requires Gap(g)
    ensures Lex(g + t, intended) == Lex(t, intended)
  {
    hide Word, OperatorLength;
    if g == "" {
      assert g + t == t;
    } else {
      CharsAre(g[0]);
      assert (g + t)[0] == g[0] && (g + t)[1..] == g[1..] + t;
      LexGap(g[1..], t, intended);
    }
  }

  /** What comes after a token does not change how it is read. */
  ghost predicate Follows(p: Printed, rest: string, intended: bool) {
    && (p.AWord? ==> Stops(rest) && (!intended ==> rest == "" || IsBlank(rest[0])))
    && (p == Operator(">") ==> rest == "" || rest[0] != '>')
  }

  lemma LexOne(p: Printed, rest: string, intended: bool)
    requires Printable(p) && Follows(p, rest, intended)
    ensures TokensOf([Placed("", p)]) != []
    ensures Lex(Text(p) + rest, intended) == Cons(TokensOf([Placed("", p)])[0], Lex(rest, intended))
  {
    hide Word, PartOk, PartsText, PartsValue;
    var s := Text(p) + rest;
    match p
    case Operator(op) =>
      assert s[0] == op[0] && s[..|op|] == op && s[|op|..] == rest;
      assert |op| == 1 && rest != "" ==> s[1] == rest[0];
      assert |op| == 2 ==> s[1] == op[1];
      assert OperatorLength(s) == |op|;
    case AWord(parts) =>
      PartsRead(parts, rest);
      PartsFront(parts);
      assert s[0] == PartsText(parts)[0];
      assert Lex(AfterWord(rest, intended), intended) == Lex(rest, intended);
  }

  lemma PrintFollows(ps: seq<Placed>, tail: string, intended: bool)
    requires LayoutOk(ps, intended) && Gap(tail) && ps != []
    ensures Follows(ps[0].item, Print(ps[1..], tail), intended)
  {
    hide PartOk, PartsText;
    var t := Print(ps[1..], tail);
    if t != "" {
      CharsAre(t[0]);
      assert t[0] in " \t\n\r" ==> t[0] != '>';
      if |ps| > 1 {
        var next := ps[1];
        assert ps[1..][0] == next;
        var more := Print(ps[1..][1..], tail);
        assert t == next.gap + (Text(next.item) + more);
        if next.gap != "" {
          assert t[0] == next.gap[0];
        } else {
          assert t == Text(next.item) + more;
          TextFront(next.item);
          assert t[0] == Text(next.item)[0];
        }
      }
    }
  }

  lemma TextFront(p: Printed)
    requires Printable(p)
    ensures Text(p) != "" && (p.Operator? <==> IsOperator(Text(p)[0])) && !IsBlank(Text(p)[0])
    ensures Text(p)[0] == '>' ==> p == Operator(">") || p == Operator(">>")
  {
    hide PartOk, PartsText;
    if p.AWord? {
      PartsFront(p.parts);
    }
  }

  /** Round trip: lexing spelled tokens gives back their values and types, in either reading of what follows
      a word. */
  lemma {:induction false} LexPrint(ps: seq<Placed>, tail: string, intended: bool)
    requires LayoutOk(ps, intended) && Gap(tail)
    ensures Lex(Print(ps, tail), intended) == Tokens(TokensOf(ps))
  {
    hide Lex, Text, Printable, Apart, Gap, Follows, PartsValue;
    if ps == [] {
      LexGap(tail, "", intended);
      assert tail + "" == tail;
      NoText(intended);
    } else {
      var rest := Print(ps[1..], tail);
      PrintFollows(ps, tail, intended);
      LexGap(ps[0].gap, Text(ps[0].item) + rest, intended);
      LexOne(ps[0].item, rest, intended);
      LexPrint(ps[1..], tail, intended);
      assert TokensOf(ps) == [TokensOf([Placed("", ps[0].item)])[0]] + TokensOf(ps[1..]);
    }
  }

  lemma NoText(intended: bool)
    ensures Lex("", intended) == Tokens([])
  {
  }

  // Every line that is accepted spells its tokens.

  lemma {:induction false} MarksExist(s: string) returns (marks: seq<Mark>)
    requires DoubleQuoted(s).Good?
    ensures PartOk(Double(marks)) && DoubleQuoted(s).text == MarksValue(marks)
    ensures s == MarksText(marks) + (['"'] + DoubleQuoted(s).rest)
    decreases |s|
  {
    hide DoubleQuoted, MarksText, MarksValue, MarkOk;
    var q := DoubleQuoted(s);
    if s != "" && s[0] == '"' {
      marks := [];
      NoMarks(s);
    } else {
      var m, rest := MarkExists(s);
      var more := MarksExist(rest);
      marks := [m] + more;
      MarksCons(m, more, ['"'] + q.rest);
    }
  }

  lemma NoMarks(s: string)
    requires s != "" && s[0] == '"'
    ensures DoubleQuoted(s) == Good(MarksValue([]), s[1..]) && s == MarksText([]) + (['"'] + s[1..])
  {
  }

  lemma MarkExists(s: string) returns (m: Mark, rest: string)
    requires DoubleQuoted(s).Good? && s[0] != '"'
    ensures MarkOk(m) && s == (if m.Plain? then [m.c] else ['\\', m.c]) + rest && |rest| < |s|
    ensures DoubleQuoted(s) == Push(if m.Kept? then ['\\', m.c] else [m.c], DoubleQuoted(rest))
  {
    if s[0] != '\\' {
      m, rest := Plain(s[0]), s[1..];
    } else {
      m, rest := if s[1] == '"' || s[1] == '\\' then Quoted(s[1]) else Kept(s[1]), s[2..];
    }
  }

  lemma MarksCons(m: Mark, more: seq<Mark>, rest: string)
    ensures MarksText([m] + more) + rest == (if m.Plain? then [m.c] else ['\\', m.c]) + (MarksText(more) + rest)
    ensures MarksValue([m] + more) == (if m.Kept? then ['\\', m.c] else [m.c]) + MarksValue(more)
  {
    assert ([m] + more)[1..] == more;
  }

  lemma {:induction false} SingleExists(s: string)
    requires SingleQuoted(s).Good?
    ensures var q := SingleQuoted(s); s == q.text + (['\''] + q.rest) && PartOk(Single(q.text))
  {
    if s[0] != '\'' {
      SingleExists(s[1..]);
      assert s == [s[0]] + s[1..];
    }
  }

  lemma PartExists(s: string) returns (p: Part, rest: string)
    requires s != "" && !IsDelimiter(s[0]) && Word(s).Good?
    ensures PartOk(p) && s == PartText(p) + rest && Word(s) == Push(PartValue(p), Word(rest)) && |rest| < |s|
  {
    hide DoubleQuoted, SingleQuoted;
    CharsAre(s[0]);
    assert s == [s[0]] + s[1..];
    if s[0] == '\\' {
      p, rest := Escaped(s[1]), s[2..];
      assert s == [s[0], s[1]] + s[2..];
    } else if s[0] == '"' {
      var marks := MarksExist(s[1..]);
      p, rest := Double(marks), DoubleQuoted(s[1..]).rest;
    } else if s[0] == '\'' {
      SingleExists(s[1..]);
      p, rest := Single(SingleQuoted(s[1..]).text), SingleQuoted(s[1..]).rest;
    } else {
      p, rest := Bare(s[0]), s[1..];
    }
  }

  lemma {:induction false} PartsExist(s: string) returns (parts: seq<Part>)
    requires Word(s).Good?
    ensures forall i :: 0 <= i < |parts| ==> PartOk(parts[i])
    ensures s == PartsText(parts) + Word(s).rest && Word(s).text == PartsValue(parts)
    ensures s != "" && !IsDelimiter(s[0]) ==> parts != []
    decreases |s|
  {
    hide Word, PartOk, PartText, PartValue;
    if Stops(s) {
      WordStops(s);
      parts := [];
    } else {
      var p, rest := PartExists(s);
      var more := PartsExist(rest);
      parts := [p] + more;
      assert parts[1..] == more;
    }
  }

  /** The first token of a line, cut off. */
  lemma TokenExists(s: string) returns (p: Printed, rest: string)
    requires s != "" && !IsBlank(s[0]) && Lex(s, true).Tokens?
    ensures Printable(p) && s == Text(p) + rest && Follows(p, rest, true) && |rest| < |s|
    ensures TokensOf([Placed("", p)]) != [] && Lex(rest, true).Tokens?
    ensures Lex(s, true) == Cons(TokensOf([Placed("", p)])[0], Lex(rest, true))
  {
    hide Word, PartOk, PartsText, PartsValue, Lex;
    LexUnfold(s);
    if IsOperator(s[0]) {
      var n := OperatorLength(s);
      p, rest := Operator(s[..n]), s[n..];
      assert n == 1 && rest != "" ==> rest[0] == s[1];
      assert s == s[..n] + rest;
    } else {
      var parts := PartsExist(s);
      p, rest := AWord(parts), Word(s).rest;
    }
    LexOne(p, rest, true);
  }

  lemma LexUnfold(s: string)
    requires s != "" && !IsBlank(s[0]) && Lex(s, true).Tokens?
    ensures !IsOperator(s[0]) ==> Word(s).Good? && |Word(s).rest| < |s|
  {
    hide Word;
  }

  lemma {:induction false} GapExists(s: string) returns (gap: string, rest: string)
    ensures Gap(gap) && s == gap + rest && (rest != "" ==> !IsBlank(rest[0]))
  {
    if s != "" && IsBlank(s[0]) {
      CharsAre(s[0]);
      var g, r := GapExists(s[1..]);
      gap, rest := [s[0]] + g, r;
    } else {
      gap, rest := "", s;
    }
  }

  lemma {:induction false} PrintExists(s: string) returns (ps: seq<Placed>, tail: string)
    requires Lex(s, true).Tokens?
    ensures LayoutOk(ps, true) && Gap(tail) && Print(ps, tail) == s && Lex(s, true).tokens == TokensOf(ps)
    decreases |s|
  {
    hide Lex, Text, Printable, Apart, Gap, Follows, PartsValue;
    var gap, t := GapExists(s);
    LexGap(gap, t, true);
    if t == "" {
      ps, tail := [], gap;
      NoText(true);
    } else {
      var p, rest := TokenExists(t);
      var qs, tail' := PrintExists(rest);
      ps, tail := [Placed(gap, p)] + qs, tail';
      assert ps[1..] == qs;
      assert TokensOf(ps) == [TokensOf([Placed("", p)])[0]] + TokensOf(qs);
      if qs != [] && qs[0].gap == "" {
        assert rest == "" + (Text(qs[0].item) + Print(qs[1..], tail));
        FollowsApart(p, qs[0].item, rest);
      }
    }
  }

  lemma FollowsApart(p: Printed, q: Printed, rest: string)
    requires Printable(q) && Text(q) <= rest && Follows(p, rest, true)
    ensures Apart(p, q, true)
  {
    hide PartOk, PartsText;
    TextFront(q);
  }

  /** The intended reading of a line is a list of tokens exactly when the line spells them. */
  lemma LexIsSpelling(s: string, ts: seq<Token>)
    ensures Lex(s, true) == Tokens(ts) <==>
              exists ps, tail :: LayoutOk(ps, true) && Gap(tail) && Print(ps, tail) == s && TokensOf(ps) == ts
  {
    hide Lex, LayoutOk, Gap, Print, TokensOf;
    if Lex(s, true) == Tokens(ts) {
      var qs, rest := PrintExists(s);
    }
    if ps, tail :| LayoutOk(ps, true) && Gap(tail) && Print(ps, tail) == s && TokensOf(ps) == ts {
      LexPrint(ps, tail, true);
    }
  }

  // What the code does with an operator that directly follows a word.

  /** Some word of the line is followed by an operator with no blank between. */
  predicate Glued(s: string)
    decreases |s|
  {
    if s == "" then false
    else if IsBlank(s[0]) then Glued(s[1..])
    else if IsOperator(s[0]) then Glued(s[OperatorLength(s)..])
    else
      var w := Word(s);
      w.Good? && w.rest != "" && (IsOperator(w.rest[0]) || Glued(w.rest[1..]))
  }

  /** The characters of all operators. */
  function OperatorChars(ts: seq<Token>): (n: nat) {
    if ts == [] then 0 else (if ts[0].kind == SPECIAL then |ts[0].value| else 0) + OperatorChars(ts[1..])
  }

  function Chars(l: Lexed): (n: nat) {
    if l.Tokens? then OperatorChars(l.tokens) else 0
  }

  lemma CharsCons(t: Token, l: Lexed)
    ensures l.Tokens? ==> Chars(Cons(t, l)) == (if t.kind == SPECIAL then |t.value| else 0) + Chars(l)
  {
    if l.Tokens? {
      assert ([t] + l.tokens)[1..] == l.tokens;
    }
  }

  /** An operator character counts one, however a row of `>` is divided. */
  lemma {:induction false} OperatorCounts(s: string)
    requires s != "" && IsOperator(s[0])
    ensures Lex(s, true).Tokens? <==> Lex(s[1..], true).Tokens?
    ensures Lex(s, true).Tokens? ==> Chars(Lex(s, true)) == 1 + Chars(Lex(s[1..], true))
    decreases |s|
  {
    var n := OperatorLength(s);
    CharsCons(Token(s[..n], SPECIAL), Lex(s[n..], true));
    if n == 2 {
      OperatorCounts(s[1..]);
      assert s[1..][1..] == s[2..];
    }
  }

  /** The code reads the same words and fails on the same lines; it loses operator characters exactly when
      an operator is glued to a word. */
  lemma {:induction false} GluedLoses(s: string)
    ensures Lex(s, false).Tokens? <==> Lex(s, true).Tokens?
    ensures Lex(s, true).Tokens? ==> Chars(Lex(s, false)) <= Chars(Lex(s, true))
    ensures Lex(s, true).Tokens? && Glued(s) ==> Chars(Lex(s, false)) < Chars(Lex(s, true))
    ensures !Glued(s) ==> Lex(s, false) == Lex(s, true)
    decreases |s|
  {
    hide Word;
    if s == "" {
    } else if IsBlank(s[0]) {
      GluedLoses(s[1..]);
    } else if IsOperator(s[0]) {
      var n := OperatorLength(s);
      GluedLoses(s[n..]);
      CharsCons(Token(s[..n], SPECIAL), Lex(s[n..], false));
      CharsCons(Token(s[..n], SPECIAL), Lex(s[n..], true));
    } else if Word(s).Good? {
      var rest := Word(s).rest;
      GluedAfterWord(rest);
      if rest != "" {
        GluedLoses(rest[1..]);
      }
      var t := Token(Word(s).text, ORDINARY);
      CharsCons(t, Lex(AfterWord(rest, false), false));
      CharsCons(t, Lex(AfterWord(rest, true), true));
    }
  }

  lemma GluedAfterWord(rest: string)
    ensures rest == "" || !IsOperator(rest[0]) ==> AfterWord(rest, false) == AfterWord(rest, true)
    ensures rest != "" && IsOperator(rest[0]) ==>
              && AfterWord(rest, false) == rest[1..] && AfterWord(rest, true) == rest
              && (Lex(rest, true).Tokens? <==> Lex(rest[1..], true).Tokens?)
              && (Lex(rest, true).Tokens? ==> Chars(Lex(rest, true)) == 1 + Chars(Lex(rest[1..], true)))
  {
    if rest != "" && IsOperator(rest[0]) {
      OperatorCounts(rest);
    }
  }

  /** The lexer is the intended one exactly on lines without glued operators (and on those it rejects). */
  lemma LexerAsIntended(s: string)
    ensures Lex(s, false) == Lex(s, true) <==> Lex(s, true).SyntaxError? || !Glued(s)
  {
    GluedLoses(s);
  }

  lemma OneLetter(c: char, rest: string)
    requires PartOk(Bare(c)) && Stops(rest)
    ensures Word([c] + rest) == Good([c], rest)
  {
    BareStep(c, rest);
    WordStops(rest);
  }

  /** `a|b` is read as the two words `a` and `b`. */
  lemma PipeLost()
    ensures Lex("a|b", false) == Tokens([Token("a", ORDINARY), Token("b", ORDINARY)])
    ensures Lex("a|b", true) == Tokens([Token("a", ORDINARY), Token("|", SPECIAL), Token("b", ORDINARY)])
    ensures Glued("a|b")
  {
    hide Word;
    OneLetter('a', "|b");
    OneLetter('b', "");
    assert ['a'] + "|b" == "a|b" && ['b'] + "" == "b" && "|b"[1..] == "b" && "|b"[..1] == "|";
    assert Lex("", false) == Lex("", true) == Tokens([]);
    assert forall i :: Lex("b", i) == Tokens([Token("b", ORDINARY)]);
    assert Lex("|b", true) == Tokens([Token("|", SPECIAL), Token("b", ORDINARY)]);
  }
}
