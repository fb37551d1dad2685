/** `peek -r` on a file (c-shell/src/bins.c): the file is read backwards in chunks and its lines are printed last to
first, with the part of a line that crosses a chunk boundary carried over in `rest`. */
module PeekReverse {

  // Lines of a file, defined from the front.

  predicate NoNewline(s: string) {
    forall i :: 0 <= i < |s| ==> s[i] != '\n'
  }

  function Pieces(s: string): (ps: seq<string>)
    ensures |ps| > 0
  {
    if s == "" then [""]
    else
      var rest := Pieces(s[1..]);
      if s[0] == '\n' then [""] + rest else [[s[0]] + rest[0]] + rest[1..]
  }

  /** A final newline ends the last line and starts no other. */
  function Lines(file: string): (ls: seq<string>) {
    if file == "" then [] else Pieces(Stripped(file))
  }

  function Stripped(file: string): (s: string)
    requires file != ""
  {
    if file[|file| - 1] == '\n' then file[..|file| - 1] else file
  }

  function Join(ps: seq<string>): (s: string) {
    if ps == [] then "" else if |ps| == 1 then ps[0] else ps[0] + "\n" + Join(ps[1..])
  }

  /** The pieces are the only newline-free sequence that joins to s. */
  lemma {:induction false} PiecesJoin(s: string)
    ensures Join(Pieces(s)) == s
    ensures forall i :: 0 <= i < |Pieces(s)| ==> NoNewline(Pieces(s)[i])
  {
    if s != "" {
      var rest := Pieces(s[1..]);
      PiecesJoin(s[1..]);
      assert s == [s[0]] + s[1..];
      if s[0] == '\n' {
        assert ([""] + rest)[1..] == rest;
      } else {
        var all := [[s[0]] + rest[0]] + rest[1..];
        assert all[1..] == rest[1..];
        assert Join(all) == [s[0]] + Join(rest);
        assert forall i :: 1 <= i < |all| ==> all[i] == rest[i];
      }
    }
  }

  lemma {:induction false} PiecesOfLine(line: string)
    requires NoNewline(line)
    ensures Pieces(line) == [line]
  {
    if line != "" {
      PiecesOfLine(line[1..]);
      assert line == [line[0]] + line[1..];
    }
  }

  lemma {:induction false} PiecesAppend(a: string, b: string)
    ensures Pieces(a + "\n" + b) == Pieces(a) + Pieces(b)
  {
    var s := a + "\n" + b;
    if a == "" {
      assert s[1..] == b;
    } else {
      assert s[1..] == a[1..] + "\n" + b;
      PiecesAppend(a[1..], b);
    }
  }

  lemma {:induction false} PiecesUnique(ps: seq<string>)
    requires ps != [] && forall i :: 0 <= i < |ps| ==> NoNewline(ps[i])
    ensures Pieces(Join(ps)) == ps
  {
    if |ps| == 1 {
      PiecesOfLine(ps[0]);
    } else {
      PiecesUnique(ps[1..]);
      PiecesAppend(ps[0], Join(ps[1..]));
      PiecesOfLine(ps[0]);
    }
  }

  lemma BeforeAppend(c: char, ps: seq<string>, qs: seq<string>)
    requires |ps| > 0
    ensures Before(c, ps + qs) == Before(c, ps) + qs
  {
    assert (ps + qs)[1..] == ps[1..] + qs;
  }

  /** Text put in front of s joins only the first of its pieces. */
  lemma {:induction false} PiecesPrefix(a: string, s: string)
    ensures Pieces(a + s) == Pieces(a + Pieces(s)[0]) + Pieces(s)[1..]
  {
    hide NoNewline, Join, Pieces, Before;
    var line := Pieces(s)[0];
    PiecesJoin(s);
    if a == "" {
      PiecesOfLine(line);
      assert a + s == s && a + line == line;
      assert Pieces(s) == [line] + Pieces(s)[1..];
    } else {
      PiecesPrefix(a[1..], s);
      assert (a + s)[1..] == a[1..] + s && (a + line)[1..] == a[1..] + line;
      PiecesStep(a + s);
      PiecesStep(a + line);
      BeforeAppend(a[0], Pieces(a[1..] + line), Pieces(s)[1..]);
    }
  }

  lemma PiecesStep(s: string)
    requires s != ""
    ensures Pieces(s) == Before(s[0], Pieces(s[1..]))
  {
  }

  function Before(c: char, ps: seq<string>): (r: seq<string>)
    requires |ps| > 0
  {
    if c == '\n' then [""] + ps else [[c] + ps[0]] + ps[1..]
  }

  // What is printed.

  /** printf("%s") and strncpy stop at a NUL. */
  function CString(s: string): (t: string) {
    if s == "" || s[0] == '\0' then "" else [s[0]] + CString(s[1..])
  }

  lemma {:induction false} CStringWhole(s: string)
    requires forall i :: 0 <= i < |s| ==> s[i] != '\0'
    ensures CString(s) == s
  {
    if s != "" {
      CStringWhole(s[1..]);
    }
  }

  datatype Output = Blank | Plain(text: string) | Numbered(k: int, text: string)

  function Shown(line: string, num: bool, k: int): (o: Output) {
    if line == "" then Blank else if num then Numbered(k, CString(line)) else Plain(CString(line))
  }

  function Show(ls: seq<string>, num: bool, k: int): (out: seq<Output>) {
    if ls == [] then []
    else [Shown(ls[0], num, k)] + Show(ls[1..], num, k - One(ls[0]))
  }

  function One(line: string): (n: nat) {
    if line == "" then 0 else 1
  }

  function NonEmpty(ls: seq<string>): (n: nat) {
    if ls == [] then 0 else One(ls[0]) + NonEmpty(ls[1..])
  }

  function Rev(ls: seq<string>): (r: seq<string>) {
    if ls == [] then [] else Rev(ls[1..]) + [ls[0]]
  }

  lemma {:induction false} NonEmptyAppend(a: seq<string>, b: seq<string>)
    ensures NonEmpty(a + b) == NonEmpty(a) + NonEmpty(b)
  {
    if a == [] {
      assert a + b == b;
    } else {
      assert (a + b)[1..] == a[1..] + b;
      NonEmptyAppend(a[1..], b);
    }
  }

  lemma {:induction false} ShowAppend(a: seq<string>, b: seq<string>, num: bool, k: int)
    ensures Show(a + b, num, k) == Show(a, num, k) + Show(b, num, k - NonEmpty(a))
  {
    if a == [] {
      assert a + b == b;
    } else {
      assert (a + b)[1..] == a[1..] + b;
      ShowAppend(a[1..], b, num, k - One(a[0]));
    }
  }

  lemma {:induction false} RevAppend(a: seq<string>, b: seq<string>)
    ensures Rev(a + b) == Rev(b) + Rev(a)
  {
    if a == [] {
      assert a + b == b;
    } else {
      assert (a + b)[1..] == a[1..] + b;
      RevAppend(a[1..], b);
    }
  }

  lemma {:induction false} RevNonEmpty(a: seq<string>)
    ensures NonEmpty(Rev(a)) == NonEmpty(a)
  {
    if a != [] {
      RevNonEmpty(a[1..]);
      NonEmptyAppend(Rev(a[1..]), [a[0]]);
    }
  }

  lemma {:induction false} RevAt(a: seq<string>, i: nat)
    requires i < |a|
    ensures |Rev(a)| == |a| && Rev(a)[i] == a[|a| - 1 - i]
    ensures Rev(a)[..i] == Rev(a[|a| - i..])
  {
    var m := |a| - i;
    assert a == a[..m] + a[m..];
    RevAppend(a[..m], a[m..]);
    RevLength(a);
    RevLength(a[m..]);
    assert a[..m] == a[..m - 1] + [a[m - 1]];
    RevAppend(a[..m - 1], [a[m - 1]]);
    assert Rev([a[m - 1]]) == [a[m - 1]];
  }

  lemma {:induction false} RevLength(a: seq<string>)
    ensures |Rev(a)| == |a|
  {
    if a != [] {
      RevLength(a[1..]);
    }
  }

  /** The lines printed: all of them, last to first, but for a leading empty line. */
  function PrintedLines(file: string): (ls: seq<string>) {
    var ls := Lines(file);
    Rev(if ls != [] && ls[0] == "" then ls[1..] else ls)
  }

  // The numbering pass.

  /** The lines that the first pass counts: those whose text does not start with NUL. */
  function Counted(ls: seq<string>): (n: nat) {
    if ls == [] then 0 else (if CString(ls[0]) == "" then 0 else 1) + Counted(ls[1..])
  }

  /** getline: one line from p on, with its newline. */
  method GetLine(file: string, p: nat) returns (e: nat)
    requires p < |file|
    ensures p < e <= |file| && NoNewline(file[p..e - 1]) && (file[e - 1] == '\n' || e == |file|)
  {
    e := p;
    while e < |file| && file[e] != '\n'
      invariant p <= e <= |file| && NoNewline(file[p..e])
    {
      assert file[p..e + 1] == file[p..e] + [file[e]];
      e := e + 1;
    }
    if e < |file| {
      e := e + 1;
    } else {
      assert file[p..e][..e - 1 - p] == file[p..e - 1];
    }
  }

  lemma LinesCons(file: string, e: nat)
    requires 0 < e <= |file| && NoNewline(file[..e - 1]) && (file[e - 1] == '\n' || e == |file|)
    ensures Lines(file) == [Stripped(file[..e])] + Lines(file[e..])
  {
    var head := Stripped(file[..e]);
    assert file[..e] == file[..e - 1] + [file[e - 1]];
    assert file[e - 1] == '\n' ==> head == file[..e - 1];
    PiecesOfLine(head);
    if e == |file| {
      assert file[..e] == file && file[e..] == "";
    } else {
      var tail := Stripped(file[e..]);
      assert Stripped(file) == head + "\n" + tail;
      PiecesAppend(head, tail);
    }
  }

  lemma CountedLine(line: string)
    requires line != "" && NoNewline(line[..|line| - 1])
    ensures CString(line) != "\n" && CString(line) != "" <==> CString(Stripped(line)) != ""
  {
    hide CString, NoNewline;
    CStringFirst(line);
    if |line| == 1 {
      assert line[..0] == "";
      CStringFirst(Stripped(line));
      NewlineAlone(line);
    } else {
      NotNewline(line);
      assert Stripped(line)[0] == line[0];
      CStringFirst(Stripped(line));
    }
  }

  lemma CStringFirst(s: string)
    ensures CString(s) == "" <==> s == "" || s[0] == '\0'
    ensures s != "" && s[0] != '\0' ==> CString(s)[0] == s[0]
  {
  }

  lemma NewlineAlone(line: string)
    requires |line| == 1
    ensures CString(line) == "\n" <==> line[0] == '\n'
  {
    assert line[1..] == "" && CString("") == "";
    assert line[0] != '\0' ==> CString(line) == [line[0]] + CString("") == [line[0]];
  }

  lemma NotNewline(line: string)
    requires |line| > 1 && NoNewline(line[..|line| - 1])
    ensures line[0] != '\n'
  {
    assert line[..|line| - 1][0] == line[0];
  }

  /** The pass over the file that finds the number of its last numbered line. */
  method CountLines(file: string) returns (k: nat)
    ensures k == Counted(Lines(file))
  {
    hide CString, NoNewline, Lines, Counted, CountedTo, Stripped;
    k := 0;
    var p := 0;
    CountStarts(file);
    while p < |file|
      invariant p <= |file| && CountedTo(file, p, k)
    {
      var e := GetLine(file, p);
      var line := file[p..e];
      CountSteps(file, p, e, k);
      if CString(line) != "\n" && CString(line) != "" {
        k := k + 1;
      }
      p := e;
    }
    CountEnds(file, k);
  }

  ghost predicate CountedTo(file: string, p: nat, k: nat)
    requires p <= |file|
  {
    k + Counted(Lines(file[p..])) == Counted(Lines(file))
  }

  lemma CountStarts(file: string)
    ensures CountedTo(file, 0, 0)
  {
    assert file[0..] == file;
  }

  lemma CountEnds(file: string, k: nat)
    requires CountedTo(file, |file|, k)
    ensures k == Counted(Lines(file))
  {
    assert file[|file|..] == "";
  }

  lemma CountSteps(file: string, p: nat, e: nat, k: nat)
    requires p < e <= |file| && NoNewline(file[p..e - 1]) && (file[e - 1] == '\n' || e == |file|) &&
               CountedTo(file, p, k)
    ensures CountedTo(file, e, if CString(file[p..e]) != "\n" && CString(file[p..e]) != "" then k + 1 else k)
  {
    hide CString, NoNewline, Lines, Stripped;
    var line := file[p..e];
    assert line[..|line| - 1] == file[p..e - 1];
    CountedLine(line);
    LineAt(file, p, e);
    assert [Stripped(line)][1..] == [];
  }

  lemma LineAt(file: string, p: nat, e: nat)
    requires p < e <= |file| && NoNewline(file[p..e - 1]) && (file[e - 1] == '\n' || e == |file|)
    ensures Lines(file[p..]) == [Stripped(file[p..e])] + Lines(file[e..])
    ensures Counted(Lines(file[p..])) == Counted([Stripped(file[p..e])]) + Counted(Lines(file[e..]))
  {
    hide Lines, Stripped, NoNewline;
    assert file[p..][..e - p] == file[p..e] && file[p..][..e - p - 1] == file[p..e - 1];
    assert file[p..][e - p..] == file[e..];
    LinesCons(file[p..], e - p);
  }

  // The backward scan.

  /** What the program prints for one file. */
  function Printout(file: string, num: bool): (out: seq<Output>) {
    Show(PrintedLines(file), num, if num then Counted(Lines(file)) else 0)
  }

  /** The inner loop over one buffer: prints every line that starts inside it, and leaves buffer[..prev + 1]. */
  method ScanChunk(buffer: string, last: int, num: bool, k0: int, out0: seq<Output>)
    returns (prev: int, k: int, out: seq<Output>)
    requires -1 <= last < |buffer|
    ensures -1 <= prev <= last && buffer[..prev + 1] == Pieces(buffer[..last + 1])[0]
    ensures out == out0 + Show(Rev(Pieces(buffer[..last + 1])[1..]), num, k0)
    ensures k == k0 - (if num then NonEmpty(Pieces(buffer[..last + 1])[1..]) else 0)
  {
    hide *;
    prev, k, out := last, k0, out0;
    ghost var done: seq<string> := [];
    var j := last;
    ScanStarts(buffer, last, num, k0, out0);
    while j >= 0
      invariant -1 <= j <= prev <= last && Scanned(buffer, last, num, k0, out0, j, prev, k, out, done)
    {
      if buffer[j] == '\n' {
        var line := buffer[j + 1..prev + 1];
        ScanLine(buffer, last, num, k0, out0, j, prev, k, out, done);
        out := out + [Shown(line, num, k)];
        k := if line != "" && num then k - 1 else k;
        done := [line] + done;
        prev := j - 1;
      } else {
        ScanOn(buffer, last, num, k0, out0, j, prev, k, out, done);
      }
      j := j - 1;
    }
    ScanEnds(buffer, last, num, k0, out0, prev, k, out, done);
  }

  /** Down to place j: `done` are the lines printed, and the text from j on has no newline before prev. */
  ghost predicate Scanned(buffer: string, last: int, num: bool, k0: int, out0: seq<Output>,
                          j: int, prev: int, k: int, out: seq<Output>, done: seq<string>) {
    && -1 <= j <= prev <= last < |buffer| && NoNewline(buffer[j + 1..prev + 1])
    && Pieces(buffer[..last + 1]) == Pieces(buffer[..prev + 1]) + done
    && out == out0 + Show(Rev(done), num, k0) && k == k0 - (if num then NonEmpty(done) else 0)
  }

  lemma ScanStarts(buffer: string, last: int, num: bool, k0: int, out0: seq<Output>)
    requires -1 <= last < |buffer|
    ensures Scanned(buffer, last, num, k0, out0, last, last, k0, out0, [])
  {
    hide Pieces;
    assert buffer[last + 1..last + 1] == "";
    NothingShown(num, k0);
  }

  lemma ScanOn(buffer: string, last: int, num: bool, k0: int, out0: seq<Output>, j: int, prev: int, k: int,
               out: seq<Output>, done: seq<string>)
    requires Scanned(buffer, last, num, k0, out0, j, prev, k, out, done) && j >= 0 && buffer[j] != '\n'
    ensures Scanned(buffer, last, num, k0, out0, j - 1, prev, k, out, done)
  {
    hide Pieces, Show, Rev, NonEmpty, NoNewline;
    LongerLine(buffer, j, prev);
  }

  lemma ScanLine(buffer: string, last: int, num: bool, k0: int, out0: seq<Output>, j: int, prev: int, k: int,
                 out: seq<Output>, done: seq<string>)
    requires Scanned(buffer, last, num, k0, out0, j, prev, k, out, done) && j >= 0 && buffer[j] == '\n'
    ensures var line := buffer[j + 1..prev + 1];
            Scanned(buffer, last, num, k0, out0, j - 1, j - 1, if line != "" && num then k - 1 else k,
                    out + [Shown(line, num, k)], [line] + done)
  {
    hide Pieces, Show, Rev, NonEmpty, NoNewline, CString;
    var line := buffer[j + 1..prev + 1];
    assert buffer[j..j] == "";
    NothingShown(num, k0);
    LineOff(buffer, j, prev, done, num, k0);
    assert Pieces(buffer[..j]) + [line] + done == Pieces(buffer[..j]) + ([line] + done);
    ShownPlain(line, num, k, k0 - NonEmpty(done));
  }

  lemma ShownPlain(line: string, num: bool, k: int, k': int)
    requires num ==> k == k'
    ensures Shown(line, num, k) == Shown(line, num, k')
  {
  }

  lemma ScanEnds(buffer: string, last: int, num: bool, k0: int, out0: seq<Output>, prev: int, k: int, out: seq<Output>,
                 done: seq<string>)
    requires Scanned(buffer, last, num, k0, out0, -1, prev, k, out, done)
    ensures var ps := Pieces(buffer[..last + 1]);
            && buffer[..prev + 1] == ps[0] && out == out0 + Show(Rev(ps[1..]), num, k0)
            && k == k0 - (if num then NonEmpty(ps[1..]) else 0)
  {
    hide Pieces, Show, Rev, NonEmpty, NoNewline;
    assert buffer[0..prev + 1] == buffer[..prev + 1];
    PiecesOfLine(buffer[..prev + 1]);
    assert Pieces(buffer[..last + 1])[1..] == done;
  }

  lemma NothingShown(num: bool, k: int)
    ensures NoNewline("") && Show(Rev([]), num, k) == [] && NonEmpty([]) == 0
  {
  }

  lemma LongerLine(buffer: string, j: int, prev: int)
    requires 0 <= j <= prev < |buffer| && NoNewline(buffer[j + 1..prev + 1]) && buffer[j] != '\n'
    ensures NoNewline(buffer[j..prev + 1])
  {
    assert buffer[j..prev + 1] == [buffer[j]] + buffer[j + 1..prev + 1];
  }

  lemma LineOff(buffer: string, j: int, prev: int, done: seq<string>, num: bool, k0: int)
    requires 0 <= j <= prev < |buffer| && buffer[j] == '\n' && NoNewline(buffer[j + 1..prev + 1])
    ensures Pieces(buffer[..prev + 1]) == Pieces(buffer[..j]) + [buffer[j + 1..prev + 1]]
    ensures var line := buffer[j + 1..prev + 1];
            && Show(Rev([line] + done), num, k0) == Show(Rev(done), num, k0) + [Shown(line, num, k0 - NonEmpty(done))]
            && NonEmpty([line] + done) == NonEmpty(done) + One(line)
  {
    var line := buffer[j + 1..prev + 1];
    assert buffer[..prev + 1] == buffer[..j] + "\n" + line;
    PiecesAppend(buffer[..j], line);
    PiecesOfLine(line);
    assert ([line] + done)[1..] == done;
    RevNonEmpty(done);
    ShowAppend(Rev(done), [line], num, k0);
  }

  /** One chunk more: what the file in front of it still owes. */
  lemma ChunkDone(front: string, x: string, done: seq<string>, num: bool, k0: int)
    ensures var ps := Pieces(x);
            && Pieces(front + x) + done == Pieces(front + ps[0]) + (ps[1..] + done)
            && Show(Rev(ps[1..] + done), num, k0) ==
              Show(Rev(done), num, k0) + Show(Rev(ps[1..]), num, k0 - if num then NonEmpty(done) else 0)
            && NonEmpty(ps[1..] + done) == NonEmpty(ps[1..]) + NonEmpty(done)
  {
    hide Pieces, Show, Rev, NonEmpty;
    PiecesPrefix(front, x);
    RevAppend(Pieces(x)[1..], done);
    RevNonEmpty(done);
    ShowAppend(Rev(done), Rev(Pieces(x)[1..]), num, k0);
    NonEmptyAppend(Pieces(x)[1..], done);
    if !num {
      ShowPlain(Rev(Pieces(x)[1..]), k0, k0 - NonEmpty(done));
    }
  }

  lemma {:induction false} ShowPlain(ls: seq<string>, k: int, k': int)
    ensures Show(ls, false, k) == Show(ls, false, k')
  {
    if ls != [] {
      ShowPlain(ls[1..], k - One(ls[0]), k' - One(ls[0]));
    }
  }

  /** Still to print after reading down to pos: what lies in front, with the carried-over text. */
  function Owed(file: string, pos: nat, rest: string): (s: string)
    requires 0 <= pos <= |file| && file != ""
  {
    if pos == |file| then Stripped(file) else file[..pos] + rest
  }

  ghost predicate Progress(file: string, num: bool, pos: nat, rest: string, k: int, out: seq<Output>,
                           done: seq<string>) {
    && 0 <= pos <= |file| && file != "" && NoNewline(rest) && (pos == |file| ==> rest == "")
    && Lines(file) == Pieces(Owed(file, pos, rest)) + done
    && var k0 := if num then Counted(Lines(file)) else 0;
       out == Show(Rev(done), num, k0) && k == k0 - if num then NonEmpty(done) else 0
  }

  lemma ProgressStarts(file: string, num: bool)
    requires file != ""
    ensures Progress(file, num, |file|, "", if num then Counted(Lines(file)) else 0, [], [])
  {
  }

  lemma ProgressSteps(file: string, num: bool, pos: nat, read: nat, rest: string, k: int, out: seq<Output>,
                      done: seq<string>, x: string, rest': string, k': int, out': seq<Output>)
    requires Progress(file, num, pos, rest, k, out, done) && 0 < read <= pos
    requires file[..pos - read] + x == Owed(file, pos, rest) && rest' == Pieces(x)[0]
    requires out' == out + Show(Rev(Pieces(x)[1..]), num, k)
    requires k' == k - if num then NonEmpty(Pieces(x)[1..]) else 0
    ensures Progress(file, num, pos - read, rest', k', out', Pieces(x)[1..] + done)
  {
    hide Pieces, Show, Rev, NonEmpty, NoNewline, Counted, Lines, Stripped, Join;
    ChunkDone(file[..pos - read], x, done, num, if num then Counted(Lines(file)) else 0);
    PiecesJoin(x);
  }

  /** The reverse branch on one file. */
  method PeekReverse(file: string, num: bool, chunk: nat) returns (out: seq<Output>)
    requires chunk > 0
    ensures out == Printout(file, num)
  {
    hide *;
    out := [];
    var size := |file|;
    if size == 0 {
      EmptyFile(num);
      return;
    }
    var k: int := 0;
    if num {
      k := CountLines(file);
    }
    var pos := size;
    var rest := "";
    ghost var done: seq<string> := [];
    ProgressStarts(file, num);
    while pos > 0
      invariant 0 <= pos <= size && (pos == size ==> rest == "")
      invariant Progress(file, num, pos, rest, k, out, done)
    {
      var read := if pos > chunk then chunk else pos;
      var buffer := file[pos - read..pos] + rest;
      var prev := |buffer| - 1;
      if pos == size && buffer[prev] == '\n' {
        prev := prev - 1;
      }
      ghost var x := buffer[..prev + 1];
      ChunkText(file, pos, read, rest);
      var last, k', out' := ScanChunk(buffer, prev, num, k, out);
      ProgressSteps(file, num, pos, read, rest, k, out, done, x, buffer[..last + 1], k', out');
      done := Pieces(x)[1..] + done;
      pos, rest, k, out := pos - read, buffer[..last + 1], k', out';
    }
    FirstLine(file, num, k, rest, out, done);
    if |rest| > 0 {
      out := out + [Shown(rest, num, k)];
    }
  }

  lemma EmptyFile(num: bool)
    ensures Printout("", num) == []
  {
  }

  lemma ChunkText(file: string, pos: nat, read: nat, rest: string)
    requires 0 < read <= pos <= |file| && (pos == |file| ==> rest == "")
    ensures var buffer := file[pos - read..pos] + rest; var prev := |buffer| - 1;
            file[..pos - read] + buffer[..if pos == |file| && buffer[prev] == '\n' then prev else prev + 1]
              == Owed(file, pos, rest)
  {
    var buffer := file[pos - read..pos] + rest;
    assert buffer[..|buffer|] == buffer;
    assert file[..pos] == file[..pos - read] + file[pos - read..pos];
    assert pos == |file| ==> file[..pos] == file;
  }

  /** After the last chunk the first line is left over; it is printed when it is not empty. */
  lemma FirstLine(file: string, num: bool, k: int, rest: string, out: seq<Output>, done: seq<string>)
    requires Progress(file, num, 0, rest, k, out, done)
    ensures Printout(file, num) == if rest == "" then out else out + [Shown(rest, num, k)]
  {
    hide Show, Shown, Lines, Stripped, NonEmpty, Counted, NoNewline, Rev, Pieces;
    assert file[..0] + rest == rest;
    PiecesOfLine(rest);
    RevFirst(rest, done);
    ShowOne(Rev(done), rest, num, if num then Counted(Lines(file)) else 0);
    RevNonEmpty(done);
  }

  lemma RevFirst(line: string, done: seq<string>)
    ensures ([line] + done)[0] == line && ([line] + done)[1..] == done && Rev([line] + done) == Rev(done) + [line]
  {
  }

  lemma ShowOne(ls: seq<string>, line: string, num: bool, k: int)
    ensures Show(ls + [line], num, k) == Show(ls, num, k) + [Shown(line, num, k - if num then NonEmpty(ls) else 0)]
  {
    ShowAppend(ls, [line], num, k);
  }

  // What the output amounts to.

  lemma {:induction false} ShowAt(ls: seq<string>, num: bool, k: int, i: nat)
    requires i < |ls|
    ensures |Show(ls, num, k)| == |ls| && Show(ls, num, k)[i] == Shown(ls[i], num, k - NonEmpty(ls[..i]))
  {
    ShowAppend(ls[..i], ls[i..], num, k);
    assert ls == ls[..i] + ls[i..];
    ShowLength(ls, num, k);
    ShowLength(ls[..i], num, k);
  }

  lemma {:induction false} ShowLength(ls: seq<string>, num: bool, k: int)
    ensures |Show(ls, num, k)| == |ls|
  {
    if ls != [] {
      ShowLength(ls[1..], num, k - One(ls[0]));
    }
  }

  /** The i-th output is the i-th line from the end; the only line that can be missing is a first, empty one. */
  lemma ReversesLines(file: string, num: bool, i: nat)
    requires i < |Lines(file)|
    ensures var ls := Lines(file); var out := Printout(file, num); var m := |ls| - 1 - i;
            && |out| == |ls| - (if ls[0] == "" then 1 else 0)
            && (i < |out| ==> out[i] == Shown(ls[m], num, (if num then Counted(ls) else 0) - NonEmpty(ls[m + 1..])))
  {
    hide Lines, Show, Rev, NonEmpty, Counted, Shown, CString;
    var ls := Lines(file);
    var k := if num then Counted(ls) else 0;
    var m := |ls| - 1 - i;
    var kept := if ls[0] == "" then ls[1..] else ls;
    RevLength(kept);
    ShowLength(Rev(kept), num, k);
    if i < |kept| {
      RevAt(kept, i);
      assert kept[|kept| - i..] == ls[m + 1..] && kept[|kept| - 1 - i] == ls[m];
      RevNonEmpty(ls[m + 1..]);
      ShowAt(Rev(kept), num, k, i);
    }
  }

  ghost predicate StartsWithNul(line: string) {
    line != "" && line[0] == '\0'
  }

  lemma {:induction false} CountedAll(ls: seq<string>)
    ensures Counted(ls) <= NonEmpty(ls)
    ensures Counted(ls) == NonEmpty(ls) <==> forall m :: 0 <= m < |ls| ==> !StartsWithNul(ls[m])
  {
    if ls != [] {
      CountedAll(ls[1..]);
      assert forall m :: 1 <= m < |ls| ==> ls[m] == ls[1..][m - 1];
      assert forall m :: 0 <= m < |ls| - 1 ==> ls[1..][m] == ls[m + 1];
    }
  }

  /** Each non-empty line gets its forward number, exactly when no line begins with NUL (getline's result
      then looks empty to the counting pass, but not to the backward one). */
  lemma ForwardNumbers(file: string, ls: seq<string>, out: seq<Output>, m: nat)
    requires ls == Lines(file) && out == Printout(file, true) && m < |ls| && ls[m] != ""
    ensures |ls| - 1 - m < |out|
    ensures out[|ls| - 1 - m].Numbered?
    ensures out[|ls| - 1 - m].k == NonEmpty(ls[..m + 1]) <==> forall j :: 0 <= j < |ls| ==> !StartsWithNul(ls[j])
  {
    hide Lines, Printout, NonEmpty, Counted, CString, StartsWithNul;
    ReversesLines(file, true, |ls| - 1 - m);
    assert ls == ls[..m + 1] + ls[m + 1..];
    NonEmptyAppend(ls[..m + 1], ls[m + 1..]);
    CountedAll(ls);
  }

  /** Two lines, the first one empty: only the second is printed. */
  lemma LeadingEmptyLineLost()
    ensures Lines("\na\n") == ["", "a"] && Printout("\na\n", false) == [Plain("a")]
  {
    PiecesAppend("", "a");
    PiecesOfLine("");
    PiecesOfLine("a");
    assert "\na\n"[..2] == "" + "\n" + "a" == "\na";
    assert Lines("\na\n") == [""] + ["a"];
    assert Lines("\na\n")[1..] == ["a"];
    CStringWhole("a");
    assert Rev(["a"]) == ["a"];
  }

  /** Two lines, the first one beginning with NUL: the last line gets the number 1, and the first one 0. */
  lemma NulMisnumbers()
    ensures var file := "\0x\na\n";
            Lines(file) == ["\0x", "a"] && Printout(file, true) == [Numbered(1, "a"), Numbered(0, "")]
  {
    hide Lines, Show, Counted, Rev;
    LinesOfNul();
    CountOfNul();
    ShowOfNul();
  }

  lemma LinesOfNul()
    ensures Lines("\0x\na\n") == ["\0x", "a"]
  {
    PiecesAppend("\0x", "a");
    PiecesOfLine("\0x");
    PiecesOfLine("a");
    assert "\0x\na\n"[..4] == "\0x" + "\n" + "a";
    assert ["\0x"] + ["a"] == ["\0x", "a"];
  }

  lemma CountOfNul()
    ensures Counted(["\0x", "a"]) == 1 && Rev(["\0x", "a"]) == ["a", "\0x"]
  {
    CStringFirst("\0x");
    CStringFirst("a");
    hide CString;
    assert ["\0x", "a"][1..] == ["a"] && ["a"][1..] == [];
    assert Counted(["a"]) == 1;
    assert Rev(["a"]) == ["a"];
  }

  lemma ShowOfNul()
    ensures Show(["a", "\0x"], true, 1) == [Numbered(1, "a"), Numbered(0, "")]
  {
    CStringFirst("\0x");
    CStringWhole("a");
    hide CString;
    assert ["a", "\0x"][1..] == ["\0x"] && ["\0x"][1..] == [];
    assert Show(["\0x"], true, 0) == [Numbered(0, "")];
  }
}
