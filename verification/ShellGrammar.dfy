/** What the parser of user/sh.c reads, as functions of the input still to be read, and the
    printing that it reads back. A syntax error, "too many args" included, is Bad. */
module ShellGrammar {
  const MAXARGS := 10

  datatype Mode = In | Out | Append

  datatype Tree =
    | Exec(argv: seq<string>)
    | Redir(cmd: Tree, file: string, mode: Mode)
    | Pipe(left: Tree, right: Tree)
    | List(left: Tree, right: Tree)
    | Back(cmd: Tree)

  datatype Parsed = Ok(tree: Tree, rest: string) | Bad

  predicate IsSpace(c: char) {
    c == ' ' || c == '\t' || c == '\r' || c == '\n' || c == '\U{00000b}'
  }

  predicate IsSymbol(c: char) {
    c == '<' || c == '|' || c == '>' || c == '&' || c == ';' || c == '(' || c == ')'
  }

  /** The symbols that end a simple command. */
  predicate IsEnd(c: char) {
    c == '|' || c == ')' || c == '&' || c == ';'
  }

  predicate IsPlain(c: char) {
    !IsSpace(c) && !IsSymbol(c)
  }

  /** `s` from its first character that is not white space. */
  function Trim(s: string): (r: string)
    ensures |r| <= |s| && (r != "" ==> !IsSpace(r[0])) && (s != "" && !IsSpace(s[0]) ==> r == s)
  {
    if s != "" && IsSpace(s[0]) then Trim(s[1..]) else s
  }

  /** How many characters of `s` belong to its first word. */
  function WordLength(s: string): (n: nat)
    ensures n <= |s| && (s != "" && IsPlain(s[0]) ==> n > 0)
  {
    if s == "" || !IsPlain(s[0]) then 0 else 1 + WordLength(s[1..])
  }

  predicate Starts(s: string, c: char) {
    s != "" && s[0] == c
  }

  /** After the one-character token at the start of `s`. */
  function After(s: string): (r: string)
    requires s != ""
    ensures |r| < |s|
  {
    Trim(s[1..])
  }

  /** Redirections read so far, and what follows them. */
  datatype Redirs = Files(files: seq<(string, Mode)>, rest: string) | NoFile

  /** parseredirs */
  function TakeRedirs(fs: seq<(string, Mode)>, s: string): (r: Redirs)
    ensures r.Files? ==> |r.rest| <= |s|
    decreases |s|
  {
    var t := Trim(s);
    if !Starts(t, '<') && !Starts(t, '>') then Files(fs, t)
    else
      var double := t[0] == '>' && |t| > 1 && t[1] == '>';
      var u := Trim(if double then t[2..] else t[1..]);
      var n := WordLength(u);
      if n == 0 then NoFile
      else TakeRedirs(fs + [(u[..n], if t[0] == '<' then In else if double then Append else Out)], Trim(u[n..]))
  }

  function Wrap(t: Tree, fs: seq<(string, Mode)>): (r: Tree)
    decreases |fs|
  {
    if fs == [] then t else Redir(Wrap(t, fs[..|fs| - 1]), fs[|fs| - 1].0, fs[|fs| - 1].1)
  }

  /** The loop of parseexec. */
  function TakeArgs(args: seq<string>, fs: seq<(string, Mode)>, s: string): (r: Parsed)
    ensures r.Ok? ==> |r.rest| <= |s|
    decreases |s|
  {
    var t := Trim(s);
    if t == "" || IsEnd(t[0]) then Ok(Wrap(Exec(args), fs), t)
    else
      var n := WordLength(t);
      if n == 0 || |args| + 1 >= MAXARGS then Bad
      else
        var r := TakeRedirs(fs, Trim(t[n..]));
        if r.NoFile? then Bad else TakeArgs(args + [t[..n]], r.files, r.rest)
  }

  function ParseExec(s: string): (r: Parsed)
    ensures r.Ok? ==> |r.rest| <= |s|
    decreases |s|, 0
  {
    var t := Trim(s);
    if Starts(t, '(') then
      var line := ParseLine(After(t));
      if line.Bad? || !Starts(Trim(line.rest), ')') then Bad
      else
        var r := TakeRedirs([], After(Trim(line.rest)));
        if r.NoFile? then Bad else Ok(Wrap(line.tree, r.files), r.rest)
    else
      var r := TakeRedirs([], t);
      if r.NoFile? then Bad else TakeArgs([], r.files, r.rest)
  }

  function ParsePipe(s: string): (r: Parsed)
    ensures r.Ok? ==> |r.rest| <= |s|
    decreases |s|, 1
  {
    var left := ParseExec(s);
    if left.Bad? then Bad
    else
      var t := Trim(left.rest);
      if !Starts(t, '|') then Ok(left.tree, t)
      else
        var right := ParsePipe(After(t));
        if right.Bad? then Bad else Ok(Pipe(left.tree, right.tree), right.rest)
  }

  /** The rest of parseline, after its first pipeline. */
  function LineTail(tree: Tree, s: string): (r: Parsed)
    ensures r.Ok? ==> |r.rest| <= |s|
    decreases |s|, 3
  {
    var t := Trim(s);
    if Starts(t, '&') then LineTail(Back(tree), After(t))
    else if Starts(t, ';') then
      var right := ParseLine(After(t));
      if right.Bad? then Bad else Ok(List(tree, right.tree), right.rest)
    else Ok(tree, t)
  }

  function ParseLine(s: string): (r: Parsed)
    ensures r.Ok? ==> |r.rest| <= |s|
    decreases |s|, 4
  {
    var first := ParsePipe(s);
    if first.Bad? then Bad else LineTail(first.tree, first.rest)
  }

  /** parsecmd: the whole input is one line. */
  function Parse(s: string): (r: Parsed) {
    var line := ParseLine(s);
    if line.Bad? || Trim(line.rest) != "" then Bad else Ok(line.tree, "")
  }

  // ---- printing ----

  predicate LegalWord(w: string) {
    w != "" && forall i :: 0 <= i < |w| ==> IsPlain(w[i])
  }

  /** Words a shell can read, and no more arguments than it takes. */
  predicate Legal(t: Tree) {
    match t
    case Exec(argv) => |argv| < MAXARGS && forall i :: 0 <= i < |argv| ==> LegalWord(argv[i])
    case Redir(c, f, _) => Legal(c) && LegalWord(f)
    case Pipe(l, r) => Legal(l) && Legal(r)
    case List(l, r) => Legal(l) && Legal(r)
    case Back(c) => Legal(c)
  }

  function PrintWords(ws: seq<string>): (s: string) {
    if ws == [] then "" else ws[0] + " " + PrintWords(ws[1..])
  }

  function PrintMode(m: Mode): (s: string) {
    match m
    case In => "<"
    case Out => ">"
    case Append => ">>"
  }

  /** Every command but the simplest in parentheses of its own. */
  function Print(t: Tree): (s: string) {
    match t
    case Exec(argv) => PrintWords(argv)
    case Redir(c, f, m) => "(" + Print(c) + ")" + PrintMode(m) + f + " "
    case Pipe(l, r) => "(" + Print(l) + ")|(" + Print(r) + ")"
    case List(l, r) => "(" + Print(l) + ");(" + Print(r) + ")"
    case Back(c) => "(" + Print(c) + ")&"
  }

  // ---- reading back what was printed ----

  /** What may follow a command that ends here. */
  predicate Stops(s: string) {
    s == "" || s[0] == ')'
  }

  lemma {:induction false} WordThen(w: string, s: string)
    requires (forall i :: 0 <= i < |w| ==> IsPlain(w[i])) && (s == "" || !IsPlain(s[0]))
    ensures WordLength(w + s) == |w|
  {
    if w == "" {
      assert w + s == s;
    } else {
      assert (w + s)[1..] == w[1..] + s;
      WordThen(w[1..], s);
    }
  }

  /** A word and a space are read as the word, and what follows as it stands. */
  lemma WordSpace(w: string, x: string)
    requires LegalWord(w) && (x == "" || !IsSpace(x[0]))
    ensures var s := w + " " + x;
            s[0] == w[0] && WordLength(s) == |w| && s[..|w|] == w && Trim(s[|w|..]) == x
  {
    var s := w + " " + x;
    assert s == w + (" " + x);
    WordThen(w, " " + x);
    assert s[|w|..] == " " + x;
    assert (" " + x)[1..] == x;
  }

  /** One round of parseredirs. */
  lemma TakeOne(fs: seq<(string, Mode)>, t: string, u: string)
    requires t != "" && Trim(t) == t && (t[0] == '<' || t[0] == '>')
    requires u == Trim(if t[0] == '>' && |t| > 1 && t[1] == '>' then t[2..] else t[1..])
    ensures var n := WordLength(u);
            var m := if t[0] == '<' then In else if |t| > 1 && t[1] == '>' then Append else Out;
            TakeRedirs(fs, t) == if n == 0 then NoFile else TakeRedirs(fs + [(u[..n], m)], Trim(u[n..]))
  {
    hide Trim, WordLength, IsSpace;
  }

  lemma NoRedir(fs: seq<(string, Mode)>, x: string)
    requires Stops(x)
    ensures TakeRedirs(fs, x) == Files(fs, x)
  {
  }

  lemma OneRedir(f: string, m: Mode, x: string)
    requires LegalWord(f) && Stops(x)
    ensures TakeRedirs([], PrintMode(m) + f + " " + x) == Files([(f, m)], x)
  {
    hide TakeRedirs, WordLength;
    var y := f + " " + x;
    var s := PrintMode(m) + f + " " + x;
    assert s == PrintMode(m) + y;
    WordSpace(f, x);
    assert IsPlain(y[0]);
    assert (if m == Append then s[2..] else s[1..]) == y;
    TakeOne([], s, y);
    NoRedir([(f, m)], x);
    assert [] + [(f, m)] == [(f, m)];
  }

  /** One word of a simple command. */
  lemma OneArg(args: seq<string>, w: string, x: string)
    requires |args| + 1 < MAXARGS && LegalWord(w) && (x == "" || IsEnd(x[0]) || IsPlain(x[0]))
    ensures TakeArgs(args, [], w + " " + x) == TakeArgs(args + [w], [], x)
  {
    WordSpace(w, x);
    assert IsPlain(w[0]);
    assert TakeRedirs([], x) == Files([], x);
  }

  lemma ArgsEnd(args: seq<string>, rest: string)
    requires Stops(rest)
    ensures TakeArgs(args, [], rest) == Ok(Exec(args), rest)
  {
  }

  lemma {:induction false} ArgsBack(args: seq<string>, ws: seq<string>, rest: string)
    requires |args| + |ws| < MAXARGS && (forall i :: 0 <= i < |ws| ==> LegalWord(ws[i])) && Stops(rest)
    ensures TakeArgs(args, [], PrintWords(ws) + rest) == Ok(Exec(args + ws), rest)
    decreases |ws|
  {
    hide TakeArgs, TakeRedirs, LegalWord;
    if ws == [] {
      assert PrintWords(ws) + rest == rest && args + ws == args;
      ArgsEnd(args, rest);
    } else {
      var x := PrintWords(ws[1..]) + rest;
      WordsStart(ws[1..], rest);
      OneArg(args, ws[0], x);
      assert PrintWords(ws) + rest == ws[0] + " " + x;
      ArgsBack(args + [ws[0]], ws[1..], rest);
      assert args + [ws[0]] + ws[1..] == args + ws;
    }
  }

  lemma WordsStart(ws: seq<string>, rest: string)
    requires (forall i :: 0 <= i < |ws| ==> LegalWord(ws[i])) && Stops(rest)
    ensures var s := PrintWords(ws) + rest; s == "" || s[0] == ')' || IsPlain(s[0])
  {
    if ws != [] { assert (PrintWords(ws) + rest)[0] == ws[0][0]; }
  }

  lemma PrintStart(t: Tree, x: string)
    requires Legal(t)
    ensures Trim(Print(t) + (")" + x)) == Print(t) + (")" + x)
  {
    var s := Print(t) + (")" + x);
    if t.Exec? {
      WordsStart(t.argv, ")" + x);
    } else {
      assert s[0] == '(';
    }
  }

  /** What may follow a block that takes no redirection. */
  predicate Follows(x: string) {
    x == "" || IsEnd(x[0])
  }

  /** A block, up to its redirections. */
  lemma BlockOpen(t: Tree, x: string)
    requires Legal(t) && (x == "" || !IsSpace(x[0])) && ParseLine(Print(t) + (")" + x)) == Ok(t, ")" + x)
    ensures var r := TakeRedirs([], x);
            ParseExec("(" + Print(t) + ")" + x) == if r.NoFile? then Bad else Ok(Wrap(t, r.files), r.rest)
  {
    hide TakeRedirs, ParseLine, Print, Legal, Wrap;
    var s := "(" + Print(t) + ")" + x;
    assert s[1..] == Print(t) + (")" + x);
    PrintStart(t, x);
    assert (")" + x)[1..] == x;
  }

  lemma Block(t: Tree, x: string)
    requires Legal(t) && Follows(x) && ParseLine(Print(t) + (")" + x)) == Ok(t, ")" + x)
    ensures ParseExec("(" + Print(t) + ")" + x) == Ok(t, x)
  {
    hide ParseExec, ParseLine, Print, Legal;
    BlockOpen(t, x);
    assert TakeRedirs([], x) == Files([], x);
  }

  lemma BlockRedir(t: Tree, f: string, m: Mode, x: string)
    requires Legal(t) && LegalWord(f) && Stops(x)
    requires ParseLine(Print(t) + (")" + (PrintMode(m) + f + " " + x))) == Ok(t, ")" + (PrintMode(m) + f + " " + x))
    ensures ParseExec("(" + Print(t) + ")" + (PrintMode(m) + f + " " + x)) == Ok(Redir(t, f, m), x)
  {
    hide ParseExec, ParseLine, Print, Legal, TakeRedirs;
    var y := PrintMode(m) + f + " " + x;
    assert y[0] == '<' || y[0] == '>';
    BlockOpen(t, y);
    OneRedir(f, m, x);
    WrapOne(t, f, m);
  }

  lemma WrapOne(t: Tree, f: string, m: Mode)
    ensures Wrap(t, [(f, m)]) == Redir(t, f, m)
  {
    var fs := [(f, m)];
    assert fs[..|fs| - 1] == [];
  }

  /** After a pipeline that ends here the line is over. */
  lemma LineEnds(s: string, t: Tree, x: string)
    requires Stops(x) && ParsePipe(s) == Ok(t, x)
    ensures ParseLine(s) == Ok(t, x)
  {
  }

  lemma PipeEnds(s: string, t: Tree, x: string)
    requires (x == "" || (IsEnd(x[0]) && x[0] != '|')) && ParseExec(s) == Ok(t, x)
    ensures ParsePipe(s) == Ok(t, x)
  {
  }

  /** Every legal command reads back as itself. */
  lemma {:induction false} ReadsBack(t: Tree, x: string)
    requires Legal(t) && Stops(x)
    ensures ParseLine(Print(t) + x) == Ok(t, x)
    decreases t
  {
    hide ParseExec, ParsePipe, ParseLine, LineTail, TakeArgs, TakeRedirs, Print;
    match t
    case Exec(argv) => ExecBack(argv, x);
    case Redir(c, f, m) =>
      var y := PrintMode(m) + f + " " + x;
      ReadsBack(c, ")" + y);
      BlockRedir(c, f, m, x);
      RedirShape(c, f, m, x);
      PipeEnds("(" + Print(c) + ")" + y, t, x);
      LineEnds("(" + Print(c) + ")" + y, t, x);
    case Pipe(l, r) =>
      var y := "(" + Print(r) + ")" + x;
      ReadsBack(r, ")" + x);
      Block(r, x);
      PipeEnds(y, r, x);
      ReadsBack(l, ")" + ("|" + y));
      Block(l, "|" + y);
      PipeJoins("(" + Print(l) + ")" + ("|" + y), l, y, r, x);
      PipeShape(l, r, x);
      LineEnds("(" + Print(l) + ")" + ("|" + y), t, x);
    case List(l, r) =>
      var y := "(" + Print(r) + ")" + x;
      ReadsBack(r, ")" + x);
      Block(r, x);
      PipeEnds(y, r, x);
      LineEnds(y, r, x);
      ReadsBack(l, ")" + (";" + y));
      Block(l, ";" + y);
      PipeEnds("(" + Print(l) + ")" + (";" + y), l, ";" + y);
      ListJoins("(" + Print(l) + ")" + (";" + y), l, y, r, x);
      ListShape(l, r, x);
    case Back(c) =>
      ReadsBack(c, ")" + ("&" + x));
      Block(c, "&" + x);
      PipeEnds("(" + Print(c) + ")" + ("&" + x), c, "&" + x);
      BackEnds("(" + Print(c) + ")" + ("&" + x), c, x);
      BackShape(c, x);
  }

  lemma ExecBack(argv: seq<string>, x: string)
    requires Legal(Exec(argv)) && Stops(x)
    ensures ParseLine(Print(Exec(argv)) + x) == Ok(Exec(argv), x)
  {
    var s := PrintWords(argv) + x;
    WordsStart(argv, x);
    assert TakeRedirs([], s) == Files([], s);
    ArgsBack([], argv, x);
    assert [] + argv == argv;
    assert ParseExec(s) == Ok(Exec(argv), x);
    PipeEnds(s, Exec(argv), x);
    LineEnds(s, Exec(argv), x);
  }

  lemma PipeJoins(s: string, l: Tree, y: string, r: Tree, x: string)
    requires ParseExec(s) == Ok(l, "|" + y) && y != "" && !IsSpace(y[0]) && ParsePipe(y) == Ok(r, x)
    ensures ParsePipe(s) == Ok(Pipe(l, r), x)
  {
    assert ("|" + y)[1..] == y;
  }

  lemma ListJoins(s: string, l: Tree, y: string, r: Tree, x: string)
    requires ParsePipe(s) == Ok(l, ";" + y) && y != "" && !IsSpace(y[0]) && ParseLine(y) == Ok(r, x)
    ensures ParseLine(s) == Ok(List(l, r), x)
  {
    assert (";" + y)[1..] == y;
  }

  lemma BackEnds(s: string, c: Tree, x: string)
    requires ParsePipe(s) == Ok(c, "&" + x) && Stops(x)
    ensures ParseLine(s) == Ok(Back(c), x)
  {
    assert ("&" + x)[1..] == x;
    assert LineTail(Back(c), x) == Ok(Back(c), x);
  }

  lemma RedirShape(c: Tree, f: string, m: Mode, x: string)
    ensures Print(Redir(c, f, m)) + x == "(" + Print(c) + ")" + (PrintMode(m) + f + " " + x)
  {
  }

  lemma PipeShape(l: Tree, r: Tree, x: string)
    ensures Print(Pipe(l, r)) + x == "(" + Print(l) + ")" + ("|" + ("(" + Print(r) + ")" + x))
  {
  }

  lemma ListShape(l: Tree, r: Tree, x: string)
    ensures Print(List(l, r)) + x == "(" + Print(l) + ")" + (";" + ("(" + Print(r) + ")" + x))
  {
  }

  lemma BackShape(c: Tree, x: string)
    ensures Print(Back(c)) + x == "(" + Print(c) + ")" + ("&" + x)
  {
  }

  lemma RoundTrip(t: Tree)
    requires Legal(t)
    ensures Parse(Print(t)) == Ok(t, "")
  {
    ReadsBack(t, "");
    assert Print(t) + "" == Print(t);
  }

  // ---- what is read is legal ----

  lemma {:induction false} WordIsLegal(s: string)
    ensures WordLength(s) > 0 ==> LegalWord(s[..WordLength(s)])
    decreases |s|
  {
    if WordLength(s) > 0 {
      WordIsLegal(s[1..]);
      var w := s[..WordLength(s)];
      assert w == [s[0]] + s[1..][..WordLength(s[1..])];
    }
  }

  predicate LegalFiles(fs: seq<(string, Mode)>) {
    forall i :: 0 <= i < |fs| ==> LegalWord(fs[i].0)
  }

  lemma {:induction false} RedirsLegal(fs: seq<(string, Mode)>, s: string)
    requires LegalFiles(fs)
    ensures TakeRedirs(fs, s).Files? ==> LegalFiles(TakeRedirs(fs, s).files)
    decreases |s|
  {
    hide LegalWord, Trim;
    var t := Trim(s);
    if Starts(t, '<') || Starts(t, '>') {
      var double := t[0] == '>' && |t| > 1 && t[1] == '>';
      var u := Trim(if double then t[2..] else t[1..]);
      var n := WordLength(u);
      WordIsLegal(u);
      if n > 0 {
        var m := if t[0] == '<' then In else if double then Append else Out;
        RedirsLegal(fs + [(u[..n], m)], Trim(u[n..]));
      }
    }
  }

  lemma {:induction false} WrapLegal(t: Tree, fs: seq<(string, Mode)>)
    requires Legal(t) && LegalFiles(fs)
    ensures Legal(Wrap(t, fs))
    decreases |fs|
  {
    if fs != [] { WrapLegal(t, fs[..|fs| - 1]); }
  }

  lemma {:induction false} ArgsLegal(args: seq<string>, fs: seq<(string, Mode)>, s: string)
    requires Legal(Exec(args)) && LegalFiles(fs)
    ensures TakeArgs(args, fs, s).Ok? ==> Legal(TakeArgs(args, fs, s).tree)
    decreases |s|
  {
    hide LegalWord, Trim, TakeRedirs, LegalFiles, Wrap;
    var t := Trim(s);
    if t == "" || IsEnd(t[0]) {
      WrapLegal(Exec(args), fs);
    } else {
      var n := WordLength(t);
      WordIsLegal(t);
      if n > 0 && |args| + 1 < MAXARGS {
        RedirsLegal(fs, Trim(t[n..]));
        var r := TakeRedirs(fs, Trim(t[n..]));
        if r.Files? { ArgsLegal(args + [t[..n]], r.files, r.rest); }
      }
    }
  }

  lemma {:induction false} ExecLegal(s: string)
    ensures ParseExec(s).Ok? ==> Legal(ParseExec(s).tree)
    decreases |s|, 0
  {
    hide Trim, TakeRedirs, TakeArgs, LegalFiles, Wrap, Legal;
    var t := Trim(s);
    assert LegalFiles([]) && Legal(Exec([])) by { NoWords(); }
    if Starts(t, '(') {
      LineLegal(After(t));
      var line := ParseLine(After(t));
      if line.Ok? && Starts(Trim(line.rest), ')') {
        RedirsLegal([], After(Trim(line.rest)));
        var r := TakeRedirs([], After(Trim(line.rest)));
        if r.Files? { WrapLegal(line.tree, r.files); }
      }
    } else {
      RedirsLegal([], t);
      var r := TakeRedirs([], t);
      if r.Files? { ArgsLegal([], r.files, r.rest); }
    }
  }

  lemma NoWords()
    ensures LegalFiles([]) && Legal(Exec([]))
  {
  }

  lemma {:induction false} PipeLegal(s: string)
    ensures ParsePipe(s).Ok? ==> Legal(ParsePipe(s).tree)
    decreases |s|, 1
  {
    ExecLegal(s);
    var left := ParseExec(s);
    if left.Ok? && Starts(Trim(left.rest), '|') { PipeLegal(After(Trim(left.rest))); }
  }

  lemma {:induction false} TailLegal(tree: Tree, s: string)
    requires Legal(tree)
    ensures LineTail(tree, s).Ok? ==> Legal(LineTail(tree, s).tree)
    decreases |s|, 3
  {
    var t := Trim(s);
    if Starts(t, '&') {
      TailLegal(Back(tree), After(t));
    } else if Starts(t, ';') {
      LineLegal(After(t));
    }
  }

  lemma {:induction false} LineLegal(s: string)
    ensures ParseLine(s).Ok? ==> Legal(ParseLine(s).tree)
    decreases |s|, 4
  {
    PipeLegal(s);
    var first := ParsePipe(s);
    if first.Ok? { TailLegal(first.tree, first.rest); }
  }

  /** What is accepted is legal, so the accepted inputs are those that mean the same as some printing. */
  lemma AcceptedIsLegal(s: string)
    ensures Parse(s).Ok? ==> Legal(Parse(s).tree) && Parse(Print(Parse(s).tree)) == Parse(s)
  {
    hide ParseLine, Print, Legal;
    LineLegal(s);
    if Parse(s).Ok? { RoundTrip(Parse(s).tree); }
  }

  /** A tree is the meaning of some input exactly when it is legal. */
  lemma Expressible(t: Tree)
    ensures Legal(t) <==> exists s :: Parse(s) == Ok(t, "")
  {
    hide Parse, Print, Legal;
    if Legal(t) { RoundTrip(t); }
    forall s | Parse(s) == Ok(t, "") ensures Legal(t) { AcceptedIsLegal(s); }
  }
}
