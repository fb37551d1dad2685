/** The c-shell's parser (c-shell/src/parser.c): one loop over the tokens fills a list of command nodes. */
module CShellParser {
  import opened CShellLexer

  predicate IsWord(t: Token) {
    t.kind != SPECIAL
  }

  predicate IsSeparator(t: Token) {
    t.kind == SPECIAL && (t.value == "|" || t.value == ";" || t.value == "&")
  }

  predicate IsRedirection(t: Token) {
    t.kind == SPECIAL && (t.value == "<" || t.value == ">" || t.value == ">>")
  }

  // The grammar in the parser's header.

  /** LINE -> empty | WORD ARG */
  predicate Line(ts: seq<Token>) {
    ts == [] || (IsWord(ts[0]) && Arg(ts[1..]))
  }

  /** ARG -> empty | WORD ARG | OP_LT TGT | OP_GT TGT | OP_GTGT TGT | OP_PIPE CMD | OP_SEMI CMD | OP_AMP BG,
      where TGT and CMD are WORD ARG and BG is empty | WORD ARG. */
  predicate Arg(ts: seq<Token>)
    decreases |ts|
  {
    || ts == []
    || (IsWord(ts[0]) && Arg(ts[1..]))
    || ((IsRedirection(ts[0]) || IsSeparator(ts[0])) && ts[0].value != "&" && |ts| > 1 && IsWord(ts[1]) && Arg(ts[2..]))
    || (IsSeparator(ts[0]) && ts[0].value == "&" && (|ts| == 1 || (IsWord(ts[1]) && Arg(ts[2..]))))
  }

  /** The same language, one operator at a time. */
  predicate InPlace(ts: seq<Token>, i: nat)
    requires i < |ts|
  {
    IsWord(ts[i]) || (
      && (IsRedirection(ts[i]) || IsSeparator(ts[i]))
      && i > 0 && IsWord(ts[i - 1])
      && (if i + 1 < |ts| then IsWord(ts[i + 1]) else ts[i].value == "&"))
  }

  /** What the parser checks. */
  predicate SeparatorOk(ts: seq<Token>, i: nat)
    requires i < |ts|
  {
    IsSeparator(ts[i]) ==>
      && i > 0 && !IsSeparator(ts[i - 1])
      && (ts[i].value != "&" ==> i + 1 < |ts| && IsWord(ts[i + 1]))
  }

  predicate Accepted(ts: seq<Token>) {
    forall i :: 0 <= i < |ts| ==> SeparatorOk(ts, i)
  }

  /** What it does not check: the other operators must stand between two words. */
  predicate OthersInPlace(ts: seq<Token>) {
    forall i :: 0 <= i < |ts| && !IsWord(ts[i]) && !IsSeparator(ts[i]) ==> InPlace(ts, i)
  }

  predicate InPlaceFrom(ts: seq<Token>, a: nat) {
    forall i :: a <= i < |ts| ==> InPlace(ts, i)
  }

  /** Arg(ts), after a word w, is InPlace throughout. */
  lemma {:induction false} ArgInPlace(w: Token, ts: seq<Token>)
    requires IsWord(w)
    ensures Arg(ts) <==> InPlaceFrom([w] + ts, 1)
    decreases |ts|
  {
    hide InPlaceFrom;
    var all := [w] + ts;
    InPlaceSteps(all, 1);
    InPlaceSteps(all, 2);
    if ts != [] {
      assert all[0] == w && all[1] == ts[0];
      assert |ts| > 1 ==> all[2] == ts[1];
      if IsWord(ts[0]) {
        ArgInPlace(ts[0], ts[1..]);
        HeadTail(ts);
        ShiftInPlace(w, ts, 1);
      } else if |ts| > 1 && IsWord(ts[1]) {
        ArgInPlace(ts[1], ts[2..]);
        HeadTail(ts);
        HeadTail(ts[1..]);
        assert ts[1..][1..] == ts[2..] && ts[1..][0] == ts[1];
        ShiftInPlace(ts[0], ts[1..], 1);
        ShiftInPlace(w, ts, 2);
      }
    }
  }

  lemma HeadTail(ts: seq<Token>)
    requires ts != []
    ensures ts == [ts[0]] + ts[1..]
  {
  }

  lemma InPlaceSteps(ts: seq<Token>, a: nat)
    ensures InPlaceFrom(ts, a) <==> a >= |ts| || (InPlace(ts, a) && InPlaceFrom(ts, a + 1))
  {
  }

  lemma ShiftInPlace(w: Token, ts: seq<Token>, a: nat)
    requires a >= 1
    ensures InPlaceFrom([w] + ts, a + 1) <==> InPlaceFrom(ts, a)
  {
    var all := [w] + ts;
    forall i | 1 <= i < |ts| ensures InPlace(all, i + 1) <==> InPlace(ts, i) {
      assert all[i + 1] == ts[i] && all[i] == ts[i - 1];
      assert i + 1 < |ts| ==> all[i + 2] == ts[i + 1];
    }
    if InPlaceFrom(ts, a) {
      forall i | a + 1 <= i < |all| ensures InPlace(all, i) {
        assert InPlace(ts, i - 1);
      }
    }
  }

  /** The grammar is a condition on each operator and its neighbours. */
  lemma LineInPlace(ts: seq<Token>)
    ensures Line(ts) <==> forall i :: 0 <= i < |ts| ==> InPlace(ts, i)
  {
    if ts != [] {
      assert IsWord(ts[0]) <==> InPlace(ts, 0);
      if IsWord(ts[0]) {
        assert ts == [ts[0]] + ts[1..];
        ArgInPlace(ts[0], ts[1..]);
        InPlaceSteps(ts, 0);
        assert InPlaceFrom(ts, 0) <==> forall i :: 0 <= i < |ts| ==> InPlace(ts, i);
      }
    }
  }

  /** Every line of the grammar is accepted; an accepted line is of the grammar exactly when its
      redirections stand between words. */
  lemma AcceptedOrLine(ts: seq<Token>)
    ensures Line(ts) <==> Accepted(ts) && OthersInPlace(ts)
  {
    LineInPlace(ts);
    if Accepted(ts) && OthersInPlace(ts) {
      forall i | 0 <= i < |ts| ensures InPlace(ts, i) {
        assert SeparatorOk(ts, i);
        if i > 0 {
          assert SeparatorOk(ts, i - 1);
          assert !IsWord(ts[i - 1]) && !IsSeparator(ts[i - 1]) ==> InPlace(ts, i - 1);
        }
        if i + 1 < |ts| {
          assert SeparatorOk(ts, i + 1);
          assert !IsWord(ts[i + 1]) && !IsSeparator(ts[i + 1]) ==> InPlace(ts, i + 1);
        }
      }
    }
    if forall i :: 0 <= i < |ts| ==> InPlace(ts, i) {
      forall i | 0 <= i < |ts| ensures SeparatorOk(ts, i) {
        assert InPlace(ts, i);
      }
    }
  }

  /** Without redirections the parser accepts exactly the grammar. */
  lemma AcceptsTheGrammar(ts: seq<Token>)
    requires forall i :: 0 <= i < |ts| ==> IsWord(ts[i]) || IsSeparator(ts[i])
    ensures Accepted(ts) <==> Line(ts)
  {
    AcceptedOrLine(ts);
  }

  /** A redirection with no target is accepted. */
  lemma RedirectionUnchecked()
    ensures var ts := [Token(">", SPECIAL)]; Accepted(ts) && !Line(ts)
  {
  }

  // The nodes.

  datatype Option<T> = None | Some(value: T)

  /** The fields that the parser sets; `args` are the first arg_index entries. */
  datatype Node = Node(cmd: Option<string>, args: seq<string>, piped: bool, background: bool, semi: bool)

  const Fresh := Node(None, [], false, false, false)

  /** The tokens that a node stands for: its words and its separator. */
  function NodeTokens(n: Node): (ts: seq<Token>) {
    Words(n.args)
    + (if n.piped then [Token("|", SPECIAL)] else [])
    + (if n.semi then [Token(";", SPECIAL)] else [])
    + (if n.background then [Token("&", SPECIAL)] else [])
  }

  function Words(args: seq<string>): (ts: seq<Token>) {
    seq(|args|, i requires 0 <= i < |args| => Token(args[i], ORDINARY))
  }

  function Flatten(nodes: seq<Node>): (ts: seq<Token>) {
    if nodes == [] then [] else Flatten(nodes[..|nodes| - 1]) + NodeTokens(nodes[|nodes| - 1])
  }

  /** Tokens as the nodes remember them: redirections become words. */
  function Remembered(ts: seq<Token>): (r: seq<Token>) {
    seq(|ts|, i requires 0 <= i < |ts| => if IsSeparator(ts[i]) then ts[i] else Token(ts[i].value, ORDINARY))
  }

  /** A command that has been closed by one separator. */
  predicate Closed(n: Node) {
    && n.args != [] && n.cmd == Some(n.args[0])
    && (n.piped || n.semi || n.background)
    && !(n.piped && n.semi) && !(n.piped && n.background) && !(n.semi && n.background)
  }

  predicate Open(n: Node) {
    && n.cmd == (if n.args == [] then None else Some(n.args[0]))
    && !n.piped && !n.semi && !n.background
  }

  /** Nodes after i tokens: the last is still open, and empty just after a separator. */
  predicate Parsed(ts: seq<Token>, i: nat, coms: seq<Node>)
    requires i <= |ts|
  {
    && coms != [] && (forall j :: 0 <= j < |coms| - 1 ==> Closed(coms[j])) && Open(coms[|coms| - 1])
    && (coms[|coms| - 1].args == [] <==> i == 0 || IsSeparator(ts[i - 1]))
    && Flatten(coms) == Remembered(ts[..i])
    && forall j :: 0 <= j < i ==> SeparatorOk(ts, j)
  }

  function Close(n: Node, value: string): (r: Node) {
    if value == "|" then n.(piped := true) else if value == ";" then n.(semi := true) else n.(background := true)
  }

  lemma RememberedStep(ts: seq<Token>, i: nat)
    requires i < |ts|
    ensures Remembered(ts[..i + 1]) ==
              Remembered(ts[..i]) + [if IsSeparator(ts[i]) then ts[i] else Token(ts[i].value, ORDINARY)]
  {
  }

  lemma CloseTokens(n: Node, t: Token)
    requires Open(n) && IsSeparator(t)
    ensures NodeTokens(Close(n, t.value)) == NodeTokens(n) + [t]
    ensures n.args != [] ==> Closed(Close(n, t.value))
  {
    assert NodeTokens(n) == Words(n.args);
  }

  lemma FlattenFresh(coms: seq<Node>)
    ensures Flatten(coms + [Fresh]) == Flatten(coms)
  {
    assert (coms + [Fresh])[..|coms|] == coms;
    assert NodeTokens(Fresh) == [];
  }

  lemma FlattenLast(coms: seq<Node>, n: Node)
    ensures Flatten(coms + [n]) == Flatten(coms) + NodeTokens(n)
  {
    assert (coms + [n])[..|coms|] == coms;
  }

  lemma ParsedWord(ts: seq<Token>, i: nat, coms: seq<Node>)
    requires i < |ts| && Parsed(ts, i, coms) && !IsSeparator(ts[i])
    ensures var last := coms[|coms| - 1];
            Parsed(ts, i + 1, coms[|coms| - 1 :=
              last.(cmd := if last.cmd.None? then Some(ts[i].value) else last.cmd, args := last.args + [ts[i].value])])
  {
    hide Closed;
    var init, last := coms[..|coms| - 1], coms[|coms| - 1];
    var last' := last.(cmd := if last.cmd.None? then Some(ts[i].value) else last.cmd,
      args := last.args + [ts[i].value]);
    var coms' := coms[|coms| - 1 := last'];
    assert coms == init + [last] && coms' == init + [last'];
    FlattenLast(init, last);
    FlattenLast(init, last');
    assert NodeTokens(last') == NodeTokens(last) + [Token(ts[i].value, ORDINARY)];
    RememberedStep(ts, i);
    assert SeparatorOk(ts, i);
  }

  lemma ParsedSeparator(ts: seq<Token>, i: nat, coms: seq<Node>)
    requires i < |ts| && Parsed(ts, i, coms) && IsSeparator(ts[i]) && SeparatorOk(ts, i)
    ensures var last := coms[|coms| - 1];
            Parsed(ts, i + 1, coms[|coms| - 1 := Close(last, ts[i].value)] + [Fresh])
  {
    hide Closed, Flatten, NodeTokens, Close, Remembered;
    var init, last := coms[..|coms| - 1], coms[|coms| - 1];
    var last' := Close(last, ts[i].value);
    assert coms == init + [last] && coms[|coms| - 1 := last'] == init + [last'];
    FlattenLast(init, last);
    FlattenLast(init, last');
    FlattenFresh(init + [last']);
    CloseTokens(last, ts[i]);
    RememberedStep(ts, i);
    assert Flatten(init) + (NodeTokens(last) + [ts[i]]) == Flatten(init) + NodeTokens(last) + [ts[i]];
  }

  /** A finished list: commands closed by separators, but that the last one may have none. */
  predicate Finished(nodes: seq<Node>) {
    forall j :: 0 <= j < |nodes| ==> Closed(nodes[j]) || (j == |nodes| - 1 && Open(nodes[j]) && nodes[j].args != [])
  }

  lemma ParsedEnds(ts: seq<Token>, coms: seq<Node>)
    requires Parsed(ts, |ts|, coms)
    ensures var nodes := if coms[|coms| - 1].cmd.None? then coms[..|coms| - 1] else coms;
            Finished(nodes) && Flatten(nodes) == Remembered(ts)
  {
    assert ts[..|ts|] == ts;
    var init, last := coms[..|coms| - 1], coms[|coms| - 1];
    assert coms == init + [last];
    FlattenLast(init, last);
  }

  /** parser: the nodes, or nothing for -1.  Accepts by the rule above, and flattening gives back the tokens. */
  method Parser(args: seq<Token>) returns (r: Option<seq<Node>>)
    ensures r.Some? <==> Accepted(args)
    ensures r.Some? ==> Finished(r.value) && Flatten(r.value) == Remembered(args)
  {
    hide Parsed, Closed, Open, Finished, Flatten, Remembered;
    var coms := [Fresh];
    ParsedStarts(args);
    var i := 0;
    while i < |args|
      invariant 0 <= i <= |args| && coms != [] && Parsed(args, i, coms)
    {
      var last := |coms| - 1;
      ParsedNow(args, i, coms);
      if args[i].kind == SPECIAL && (args[i].value == "|" || args[i].value == ";") {
        if i + 1 >= |args| || args[i + 1].kind == SPECIAL || coms[last].cmd.None? {
          assert !SeparatorOk(args, i);
          return None;
        }
        ParsedSeparator(args, i, coms);
        coms := coms[last := Close(coms[last], args[i].value)] + [Fresh];
      } else if args[i].kind == SPECIAL && args[i].value == "&" {
        if coms[last].cmd.None? {
          assert !SeparatorOk(args, i);
          return None;
        }
        ParsedSeparator(args, i, coms);
        coms := coms[last := coms[last].(background := true)] + [Fresh];
      } else {
        ParsedWord(args, i, coms);
        var cmd := if coms[last].cmd.None? then Some(args[i].value) else coms[last].cmd;
        coms := coms[last := coms[last].(cmd := cmd, args := coms[last].args + [args[i].value])];
      }
      i := i + 1;
    }
    ParsedEnds(args, coms);
    ParsedAll(args, coms);
    r := Some(if coms[|coms| - 1].cmd.None? then coms[..|coms| - 1] else coms);
  }

  lemma ParsedStarts(ts: seq<Token>)
    ensures Parsed(ts, 0, [Fresh])
  {
    FlattenFresh([]);
    assert [] + [Fresh] == [Fresh];
  }

  lemma ParsedNow(ts: seq<Token>, i: nat, coms: seq<Node>)
    requires i <= |ts| && Parsed(ts, i, coms)
    ensures coms != [] && (coms[|coms| - 1].cmd.None? <==> i == 0 || IsSeparator(ts[i - 1]))
  {
  }

  lemma ParsedAll(ts: seq<Token>, coms: seq<Node>)
    requires Parsed(ts, |ts|, coms)
    ensures Accepted(ts)
  {
  }
}
