/** The regular-expression matcher of grep (xv6/user/grep.c): strings are sequences of characters, whose end
stands for the terminating NUL; advancing a pointer is dropping a prefix. */
module Grep {

  // What a pattern means, independently of how it is matched.

  datatype Item = Literal(c: char) | AnyChar | Star(c: char)

  /** What is left of a pattern once a leading `^` is removed. */
  datatype Regex = Regex(items: seq<Item>, toEnd: bool)

  /** An item followed by `*` is a repetition, whatever the item; `$` is special only at the very end. */
  function Parse(re: string): (r: Regex) {
    if re == "" then Regex([], false)
    else if |re| >= 2 && re[1] == '*' then
      var rest := Parse(re[2..]);
      Regex([Star(re[0])] + rest.items, rest.toEnd)
    else if re == "$" then Regex([], true)
    else
      var rest := Parse(re[1..]);
      Regex([if re[0] == '.' then AnyChar else Literal(re[0])] + rest.items, rest.toEnd)
  }

  predicate Fits(c: char, d: char) {
    c == '.' || d == c
  }

  predicate Run(c: char, s: string) {
    forall i :: 0 <= i < |s| ==> Fits(c, s[i])
  }

  predicate Piece(item: Item, s: string) {
    match item
    case Literal(c) => s == [c]
    case AnyChar => |s| == 1
    case Star(c) => Run(c, s)
  }

  /** `cuts` divides s into one piece per item. */
  ghost predicate Division(items: seq<Item>, s: string, cuts: seq<nat>) {
    && |cuts| == |items| + 1 && cuts[0] == 0 && cuts[|items|] == |s|
    && forall i :: 0 <= i < |items| ==> PieceAt(items[i], s, cuts[i], cuts[i + 1])
  }

  ghost predicate PieceAt(item: Item, s: string, from: nat, to: nat) {
    from <= to <= |s| && Piece(item, s[from..to])
  }

  ghost predicate InLang(items: seq<Item>, s: string) {
    exists cuts: seq<nat> :: Division(items, s, cuts)
  }

  /** A prefix of the text, all of it when the pattern ends in `$`, is in the pattern's language. */
  ghost predicate HereAt(r: Regex, text: string, j: nat) {
    j <= |text| && InLang(r.items, text[..j]) && (r.toEnd ==> j == |text|)
  }

  ghost predicate Here(r: Regex, text: string) {
    exists j: nat :: HereAt(r, text, j)
  }

  /** The text is prefix, match, suffix; the prefix is empty after `^` and the suffix before `$`. */
  ghost predicate Split(re: string, text: string, i: nat, j: nat) {
    && i <= j <= |text|
    && var anchored := re != "" && re[0] == '^';
       var r := Parse(if anchored then re[1..] else re);
       InLang(r.items, text[i..j]) && (anchored ==> i == 0) && (r.toEnd ==> j == |text|)
  }

  ghost predicate Matches(re: string, text: string) {
    exists i: nat, j: nat :: Split(re, text, i, j)
  }

  // Languages, one item at a time.

  lemma EmptyLang(s: string)
    ensures InLang([], s) <==> s == ""
  {
    if s == "" {
      assert Division([], s, [0]);
    }
  }

  lemma LangCons(item: Item, items: seq<Item>, s: string, k: nat)
    requires k <= |s| && Piece(item, s[..k]) && InLang(items, s[k..])
    ensures InLang([item] + items, s)
  {
    var cuts: seq<nat> :| Division(items, s[k..], cuts);
    var all := [0] + seq(|cuts|, i requires 0 <= i < |cuts| => cuts[i] + k);
    forall i | 0 <= i < |items| + 1 ensures PieceAt(([item] + items)[i], s, all[i], all[i + 1]) {
      if i > 0 {
        assert PieceAt(items[i - 1], s[k..], cuts[i - 1], cuts[i]);
        assert s[k..][cuts[i - 1]..cuts[i]] == s[all[i]..all[i + 1]];
      } else {
        assert s[..k] == s[0..k];
      }
    }
    assert all[|items| + 1] == |s|;
    assert Division([item] + items, s, all);
  }

  lemma LangUncons(item: Item, items: seq<Item>, s: string) returns (k: nat)
    requires InLang([item] + items, s)
    ensures k <= |s| && Piece(item, s[..k]) && InLang(items, s[k..])
  {
    var all := [item] + items;
    var cuts: seq<nat> :| Division(all, s, cuts);
    k := cuts[1];
    assert PieceAt(all[0], s, cuts[0], cuts[1]);
    assert s[0..k] == s[..k];
    CutsGrow(all, s, cuts, 1);
    var rest := seq(|items| + 1, i requires 0 <= i < |items| + 1 => cuts[i + 1] - k);
    forall i | 0 <= i < |items| ensures PieceAt(items[i], s[k..], rest[i], rest[i + 1]) {
      assert PieceAt(all[i + 1], s, cuts[i + 1], cuts[i + 2]);
      assert s[cuts[i + 1]..cuts[i + 2]] == s[k..][rest[i]..rest[i + 1]];
    }
    assert Division(items, s[k..], rest);
  }

  lemma {:induction false} CutsGrow(items: seq<Item>, s: string, cuts: seq<nat>, a: nat)
    requires Division(items, s, cuts) && a <= |items|
    ensures forall b :: a <= b <= |items| ==> cuts[a] <= cuts[b]
    decreases |items| - a
  {
    if a < |items| {
      assert PieceAt(items[a], s, cuts[a], cuts[a + 1]);
      CutsGrow(items, s, cuts, a + 1);
    }
  }

  // Matching at the front of the text, one item at a time.

  lemma HereEmpty(text: string)
    ensures Here(Regex([], false), text)
    ensures Here(Regex([], true), text) <==> text == ""
  {
    EmptyLang(text[..0]);
    assert HereAt(Regex([], false), text, 0);
    if text == "" {
      assert HereAt(Regex([], true), text, 0);
    }
    if j: nat :| HereAt(Regex([], true), text, j) {
      EmptyLang(text[..j]);
    }
  }

  lemma HereCons(item: Item, r: Regex, text: string, k: nat)
    requires k <= |text| && Piece(item, text[..k]) && Here(r, text[k..])
    ensures Here(Regex([item] + r.items, r.toEnd), text)
  {
    var j: nat :| HereAt(r, text[k..], j);
    assert text[..k + j][..k] == text[..k] && text[..k + j][k..] == text[k..][..j];
    LangCons(item, r.items, text[..k + j], k);
    assert HereAt(Regex([item] + r.items, r.toEnd), text, k + j);
  }

  lemma HereUncons(item: Item, r: Regex, text: string) returns (k: nat)
    requires Here(Regex([item] + r.items, r.toEnd), text)
    ensures k <= |text| && Piece(item, text[..k]) && Here(r, text[k..])
  {
    var j: nat :| HereAt(Regex([item] + r.items, r.toEnd), text, j);
    k := LangUncons(item, r.items, text[..j]);
    assert text[..j][..k] == text[..k] && text[..j][k..] == text[k..][..j - k];
    assert HereAt(r, text[k..], j - k);
  }

  lemma HereOne(item: Item, r: Regex, text: string)
    requires !item.Star?
    ensures Here(Regex([item] + r.items, r.toEnd), text)
       <==> text != "" && (item.AnyChar? || item.c == text[0]) && Here(r, text[1..])
  {
    if text != "" && (item.AnyChar? || item.c == text[0]) && Here(r, text[1..]) {
      assert text[..1] == [text[0]];
      HereCons(item, r, text, 1);
    }
    if Here(Regex([item] + r.items, r.toEnd), text) {
      var k := HereUncons(item, r, text);
      assert k == 1 && text[..1] == [text[0]];
    }
  }

  // The program.

  /** matchhere: the whole declarative meaning at the front of the text. */
  method MatchHere(re: string, text: string) returns (found: bool)
    ensures found <==> Here(Parse(re), text)
    decreases |re|, 0
  {
    if re == "" {
      HereEmpty(text);
      return true;
    }
    if |re| >= 2 && re[1] == '*' {
      found := MatchStar(re[0], re[2..], text);
      return;
    }
    if re == "$" {
      HereEmpty(text);
      return text == "";
    }
    HereOne(if re[0] == '.' then AnyChar else Literal(re[0]), Parse(re[1..]), text);
    if text != "" && (re[0] == '.' || re[0] == text[0]) {
      found := MatchHere(re[1..], text[1..]);
      return;
    }
    found := false;
  }

  /** matchstar: any number of c's, then the rest of the pattern. */
  method MatchStar(c: char, re: string, text: string) returns (found: bool)
    ensures found <==> Here(Regex([Star(c)] + Parse(re).items, Parse(re).toEnd), text)
    decreases |re|, 1
  {
    var t := 0;
    while true
      invariant t <= |text| && Run(c, text[..t])
      invariant forall k :: 0 <= k < t ==> !Here(Parse(re), text[k..])
      decreases |text| - t
    {
      var here := MatchHere(re, text[t..]);
      if here {
        HereCons(Star(c), Parse(re), text, t);
        return true;
      }
      if t == |text| || !Fits(c, text[t]) {
        StarFails(c, Parse(re), text, t);
        return false;
      }
      t := t + 1;
    }
  }

  lemma RunStops(c: char, text: string, t: nat, k: nat)
    requires k <= |text| && Run(c, text[..k]) && (t < |text| ==> !Fits(c, text[t]))
    ensures k <= t
  {
    assert forall i :: 0 <= i < k ==> text[..k][i] == text[i];
  }

  lemma StarFails(c: char, r: Regex, text: string, t: nat)
    requires t <= |text| && forall k :: 0 <= k <= t ==> !Here(r, text[k..])
    requires t < |text| ==> !Fits(c, text[t])
    ensures !Here(Regex([Star(c)] + r.items, r.toEnd), text)
  {
    if Here(Regex([Star(c)] + r.items, r.toEnd), text) {
      var k := HereUncons(Star(c), r, text);
      RunStops(c, text, t, k);
    }
  }

  /** match: 1 exactly when the text splits as prefix, match and suffix. */
  method Match(re: string, text: string) returns (found: bool)
    ensures found <==> Matches(re, text)
  {
    if re != "" && re[0] == '^' {
      found := MatchHere(re[1..], text);
      SplitHere(re, text, 0);
      return;
    }
    var i := 0;
    while true
      invariant i <= |text| && forall k :: 0 <= k < i ==> !Here(Parse(re), text[k..])
      decreases |text| - i
    {
      var here := MatchHere(re, text[i..]);
      SplitHere(re, text, i);
      if here {
        return true;
      }
      if i == |text| {
        NoSplit(re, text);
        return false;
      }
      i := i + 1;
    }
  }

  /** Matching from position i on is a split there. */
  lemma SplitHere(re: string, text: string, i: nat)
    requires i <= |text|
    ensures var anchored := re != "" && re[0] == '^';
            (!anchored || i == 0) ==>
              (Here(Parse(if anchored then re[1..] else re), text[i..]) <==> exists j: nat :: Split(re, text, i, j))
    ensures re != "" && re[0] == '^' && i == 0 ==> (Here(Parse(re[1..]), text) <==> Matches(re, text))
    ensures !(re != "" && re[0] == '^') && Here(Parse(re), text[i..]) ==> Matches(re, text)
  {
    var anchored := re != "" && re[0] == '^';
    var r := Parse(if anchored then re[1..] else re);
    if j: nat :| HereAt(r, text[i..], j) {
      assert text[i..][..j] == text[i..i + j];
      assert !anchored || i == 0 ==> Split(re, text, i, i + j);
    }
    if j: nat :| Split(re, text, i, j) {
      assert text[i..][..j - i] == text[i..j];
      assert HereAt(r, text[i..], j - i);
    }
    assert text[0..] == text;
  }

  lemma NoSplit(re: string, text: string)
    requires !(re != "" && re[0] == '^') && forall k :: 0 <= k <= |text| ==> !Here(Parse(re), text[k..])
    ensures !Matches(re, text)
  {
    if i: nat, j: nat :| Split(re, text, i, j) {
      SplitHere(re, text, i);
    }
  }

  // What the parts of a pattern mean, seen from its text.

  function ItemText(item: Item): (t: string) {
    match item
    case Literal(c) => [c]
    case AnyChar => "."
    case Star(c) => [c, '*']
  }

  function Print(r: Regex): (re: string)
    decreases |r.items|
  {
    if r.items == [] then (if r.toEnd then "$" else "")
    else ItemText(r.items[0]) + Print(Regex(r.items[1..], r.toEnd))
  }

  /** A period is no literal; a single item is not followed by an asterisk, which would make it a repetition; a
      `$` at the very end is no literal. */
  predicate Canonical(r: Regex) {
    && (forall i :: 0 <= i < |r.items| ==> r.items[i] != Literal('.'))
    && (forall i :: 0 < i < |r.items| && (r.items[i] == Literal('*') || r.items[i] == Star('*')) ==>
          r.items[i - 1].Star?)
    && (r.items != [] && !r.toEnd ==> r.items[|r.items| - 1] != Literal('$'))
  }

  /** The one reading of a pattern: items whose text it is, and none that would be read otherwise. */
  lemma ParseIs(re: string, r: Regex)
    ensures Parse(re) == r <==> Canonical(r) && Print(r) == re
  {
    ParsePrints(re);
    if Canonical(r) {
      PrintParses(r);
    }
  }

  lemma RestPrints(item: Item, r: Regex)
    ensures Print(Regex([item] + r.items, r.toEnd)) == ItemText(item) + Print(r)
  {
    var all := Regex([item] + r.items, r.toEnd);
    assert all.items[1..] == r.items && Regex(all.items[1..], all.toEnd) == r;
  }

  /** An item may stand before the rest of a pattern. */
  predicate Joins(item: Item, r: Regex) {
    && item != Literal('.')
    && (!item.Star? && r.items != [] ==> r.items[0] != Literal('*') && r.items[0] != Star('*'))
    && (item == Literal('$') && r.items == [] ==> r.toEnd)
  }

  lemma RestGoes(item: Item, r: Regex)
    requires Canonical(Regex([item] + r.items, r.toEnd))
    ensures Canonical(r) && Joins(item, r)
  {
    var all := [item] + r.items;
    assert forall i :: 0 <= i < |r.items| ==> r.items[i] == all[i + 1];
    assert all[0] == item && all[|all| - 1] == if r.items == [] then item else r.items[|r.items| - 1];
  }

  lemma RestComes(item: Item, r: Regex)
    requires Canonical(r) && Joins(item, r)
    ensures Canonical(Regex([item] + r.items, r.toEnd))
  {
    var all := [item] + r.items;
    forall i | 0 < i < |all| && (all[i] == Literal('*') || all[i] == Star('*')) ensures all[i - 1].Star? {
      assert all[i] == r.items[i - 1];
    }
  }

  lemma PrintFront(r: Regex)
    ensures Print(r) == "" <==> r == Regex([], false)
    ensures Print(r) != "" ==>
              Print(r)[0] == if r.items == [] then '$' else Front(r.items[0])
  {
  }

  function Front(item: Item): (c: char) {
    if item.AnyChar? then '.' else item.c
  }

  lemma {:induction false} ParsePrints(re: string)
    ensures Canonical(Parse(re)) && Print(Parse(re)) == re
  {
    hide Canonical, Print;
    if re == "" || re == "$" {
      EndsOnly();
    } else if |re| >= 2 && re[1] == '*' {
      ParsePrints(re[2..]);
      RestPrints(Star(re[0]), Parse(re[2..]));
      RestComes(Star(re[0]), Parse(re[2..]));
      assert re == [re[0], re[1]] + re[2..];
    } else {
      var r := Parse(re[1..]);
      ParsePrints(re[1..]);
      var item := if re[0] == '.' then AnyChar else Literal(re[0]);
      PrintFront(r);
      RestPrints(item, r);
      RestComes(item, r);
      assert re == [re[0]] + re[1..];
    }
  }

  lemma EndsOnly()
    ensures forall e :: Canonical(Regex([], e)) && Print(Regex([], e)) == if e then "$" else ""
  {
  }

  lemma {:induction false} PrintParses(r: Regex)
    requires Canonical(r)
    ensures Parse(Print(r)) == r
    decreases |r.items|
  {
    hide Canonical, Print;
    EndsOnly();
    if r.items != [] {
      var rest := Regex(r.items[1..], r.toEnd);
      var item := r.items[0];
      assert [item] + rest.items == r.items;
      RestPrints(item, rest);
      RestGoes(item, rest);
      PrintParses(rest);
      PrintFront(rest);
      ParseUnfold(item, Print(rest));
    }
  }

  lemma ParseUnfold(item: Item, t: string)
    requires item != Literal('.') && (!item.Star? ==> t == "" || t[0] != '*') && (item == Literal('$') ==> t != "")
    ensures Parse(ItemText(item) + t) == Regex([item] + Parse(t).items, Parse(t).toEnd)
  {
    var re := ItemText(item) + t;
    if item.Star? {
      assert re[1] == '*' && re[2..] == t;
    } else {
      assert re[0] == Front(item) && re[1..] == t;
      assert |re| >= 2 ==> re[1] == t[0];
    }
  }

  predicate Plain(s: string) {
    forall i :: 0 <= i < |s| ==> s[i] !in "^.*$"
  }

  lemma {:induction false} PlainHere(re: string, text: string)
    requires Plain(re)
    ensures Here(Parse(re), text) <==> re <= text
  {
    hide Here;
    if re == "" {
      HereEmpty(text);
    } else {
      PlainParse(re);
      HereOne(Literal(re[0]), Parse(re[1..]), text);
      if text != "" {
        PlainHere(re[1..], text[1..]);
        assert text == [text[0]] + text[1..] && re == [re[0]] + re[1..];
      }
    }
  }

  lemma PlainParse(re: string)
    requires Plain(re) && re != ""
    ensures Plain(re[1..]) && re[0] != '^'
    ensures Parse(re) == Regex([Literal(re[0])] + Parse(re[1..]).items, Parse(re[1..]).toEnd)
  {
    var special := "^.*$";
    assert special[0] == '^' && special[1] == '.' && special[2] == '*' && special[3] == '$';
    assert re[0] !in special && (|re| > 1 ==> re[1] !in special);
  }

  /** A pattern without special characters is a search for a substring. */
  lemma PlainIsSearch(re: string, text: string)
    requires Plain(re)
    ensures Matches(re, text) <==> exists i :: 0 <= i <= |text| && re <= text[i..]
  {
    hide Here, Split;
    var anchored := re != "" && re[0] == '^';
    if re != "" {
      PlainParse(re);
    }
    if i :| 0 <= i <= |text| && re <= text[i..] {
      PlainHere(re, text[i..]);
      SplitHere(re, text, i);
    }
    if Matches(re, text) && forall i :: 0 <= i <= |text| ==> !(re <= text[i..]) {
      forall k | 0 <= k <= |text| ensures !Here(Parse(re), text[k..]) {
        PlainHere(re, text[k..]);
      }
      NoSplit(re, text);
    }
  }

  /** `^c*$` is the texts of c's, for a period every text. */
  lemma OnlyStar(c: char, text: string)
    ensures Matches(['^', c, '*', '$'], text) <==> c == '.' || forall i :: 0 <= i < |text| ==> text[i] == c
  {
    hide Here, Split, Matches;
    var re := ['^', c, '*', '$'];
    var end := Regex([], true);
    assert re[1..] == [c, '*', '$'] && [c, '*', '$'][2..] == "$";
    assert Parse("$") == end;
    assert Parse(re[1..]) == Regex([Star(c)] + end.items, true);
    SplitHere(re, text, 0);
    HereEmpty(text[|text|..]);
    if Here(Parse(re[1..]), text) {
      var k := HereUncons(Star(c), end, text);
      HereEmpty(text[k..]);
      assert text[..k] == text;
    }
    if c == '.' || forall i :: 0 <= i < |text| ==> text[i] == c {
      HereCons(Star(c), end, text, |text|);
    }
  }
}
