/** The parser of user/sh.c sees its input as tokens only: white space between tokens, the newline that ends a line
    included, does not change what is read. And several redirections of one command nest in the order written. */
module ShellTokens {
  import opened ShellGrammar

  datatype Token = Word(w: string) | Symbol(c: char) | Double

  /** The first token of `t`, and its length; `>>` is one token. */
  function First(t: string): (r: (Token, nat))
    requires t != "" && !IsSpace(t[0])
    ensures 0 < r.1 <= |t|
  {
    if t[0] == '>' && |t| > 1 && t[1] == '>' then (Double, 2)
    else if IsSymbol(t[0]) then (Symbol(t[0]), 1)
    else (Word(t[..WordLength(t)]), WordLength(t))
  }

  function Tokens(s: string): (ts: seq<Token>)
    decreases |s|
  {
    var t := Trim(s);
    if t == "" then [] else [First(t).0] + Tokens(t[First(t).1..])
  }

  predicate Same(s: string, t: string) {
    Tokens(s) == Tokens(t)
  }

  lemma TrimTwice(s: string)
    ensures Trim(Trim(s)) == Trim(s) && Tokens(Trim(s)) == Tokens(s)
  {
  }

  /** Inputs with the same tokens begin alike and go on alike. */
  lemma Alike(s: string, t: string)
    requires Same(s, t)
    ensures var a, b := Trim(s), Trim(t);
            && (a == "" <==> b == "")
            && (a != "" ==> a[0] == b[0] && First(a).0 == First(b).0 && Same(a[First(a).1..], b[First(b).1..]))
  {
    hide WordLength;
    var a, b := Trim(s), Trim(t);
    if a != "" && b != "" {
      var x, y := First(a), First(b);
      assert x.0 == Tokens(s)[0] && y.0 == Tokens(t)[0];
      assert Tokens(a[x.1..]) == Tokens(s)[1..] && Tokens(b[y.1..]) == Tokens(t)[1..];
      assert x.0.Word? ==> x.0.w[0] == a[0];
      assert y.0.Word? ==> y.0.w[0] == b[0];
    }
  }

  /** What follows a one-character token. */
  lemma AlikeAfter(s: string, t: string, c: char)
    requires Same(s, t) && Starts(Trim(s), c) && IsSymbol(c) && c != '>'
    ensures Starts(Trim(t), c) && Same(After(Trim(s)), After(Trim(t)))
  {
    hide Tokens;
    Alike(s, t);
    TrimTwice(Trim(s)[1..]);
    TrimTwice(Trim(t)[1..]);
  }

  predicate AlikeRedirs(x: Redirs, y: Redirs) {
    if x.Files? && y.Files? then x.files == y.files && Same(x.rest, y.rest) else x.NoFile? && y.NoFile?
  }

  predicate AlikeParsed(x: Parsed, y: Parsed) {
    if x.Ok? && y.Ok? then x.tree == y.tree && Same(x.rest, y.rest) else x.Bad? && y.Bad?
  }

  lemma {:induction false} RedirsAlike(fs: seq<(string, Mode)>, s: string, t: string)
    requires Same(s, t)
    ensures AlikeRedirs(TakeRedirs(fs, s), TakeRedirs(fs, t))
    decreases |s|
  {
    hide Tokens, WordLength, Trim;
    Alike(s, t);
    TrimTwice(s);
    TrimTwice(t);
    var a, b := Trim(s), Trim(t);
    if Starts(a, '<') || Starts(a, '>') {
      var u, v := Trim(a[First(a).1..]), Trim(b[First(b).1..]);
      WordAlike(a[First(a).1..], b[First(b).1..]);
      var n, k := WordLength(u), WordLength(v);
      if n > 0 {
        var m := if a[0] == '<' then In else if First(a).0.Double? then Append else Out;
        TrimTwice(u[n..]);
        TrimTwice(v[k..]);
        RedirsAlike(fs + [(u[..n], m)], Trim(u[n..]), Trim(v[k..]));
      }
    }
  }

  /** The word that comes next, if it is a word, and what follows. */
  lemma WordAlike(s: string, t: string)
    requires Same(s, t)
    ensures var u, v := Trim(s), Trim(t); var n, k := WordLength(u), WordLength(v);
            (n > 0 <==> k > 0) && (n > 0 ==> u[..n] == v[..k] && Same(u[n..], v[k..]))
  {
    hide Tokens;
    Alike(s, t);
  }

  lemma {:induction false} ArgsAlike(args: seq<string>, fs: seq<(string, Mode)>, s: string, t: string)
    requires Same(s, t)
    ensures AlikeParsed(TakeArgs(args, fs, s), TakeArgs(args, fs, t))
    decreases |s|
  {
    hide Tokens, WordLength, Trim, TakeRedirs, First;
    Alike(s, t);
    TrimTwice(s);
    TrimTwice(t);
    WordAlike(s, t);
    var a, b := Trim(s), Trim(t);
    var n, k := WordLength(a), WordLength(b);
    if a != "" && !IsEnd(a[0]) && n > 0 && |args| + 1 < MAXARGS {
      TrimTwice(a[n..]);
      TrimTwice(b[k..]);
      RedirsAlike(fs, Trim(a[n..]), Trim(b[k..]));
      var x, y := TakeRedirs(fs, Trim(a[n..])), TakeRedirs(fs, Trim(b[k..]));
      if x.Files? { ArgsAlike(args + [a[..n]], x.files, x.rest, y.rest); }
    }
  }

  lemma {:induction false} ExecAlike(s: string, t: string)
    requires Same(s, t)
    ensures AlikeParsed(ParseExec(s), ParseExec(t))
    decreases |s|, 0
  {
    hide Tokens, WordLength, Trim, TakeRedirs, First, TakeArgs;
    Alike(s, t);
    TrimTwice(s);
    TrimTwice(t);
    var a, b := Trim(s), Trim(t);
    if Starts(a, '(') {
      AlikeAfter(s, t, '(');
      LineAlike(After(a), After(b));
      var x, y := ParseLine(After(a)), ParseLine(After(b));
      if x.Ok? {
        Alike(x.rest, y.rest);
        if Starts(Trim(x.rest), ')') {
          AlikeAfter(x.rest, y.rest, ')');
          RedirsAlike([], After(Trim(x.rest)), After(Trim(y.rest)));
        }
      }
    } else {
      RedirsAlike([], a, b);
      var x, y := TakeRedirs([], a), TakeRedirs([], b);
      if x.Files? { ArgsAlike([], x.files, x.rest, y.rest); }
    }
  }

  lemma {:induction false} PipeAlike(s: string, t: string)
    requires Same(s, t)
    ensures AlikeParsed(ParsePipe(s), ParsePipe(t))
    decreases |s|, 1
  {
    hide Tokens, WordLength, Trim, First, ParseExec;
    ExecAlike(s, t);
    var x, y := ParseExec(s), ParseExec(t);
    if x.Ok? {
      Alike(x.rest, y.rest);
      TrimTwice(x.rest);
      TrimTwice(y.rest);
      if Starts(Trim(x.rest), '|') {
        AlikeAfter(x.rest, y.rest, '|');
        PipeAlike(After(Trim(x.rest)), After(Trim(y.rest)));
      }
    }
  }

  lemma {:induction false} TailAlike(tree: Tree, s: string, t: string)
    requires Same(s, t)
    ensures AlikeParsed(LineTail(tree, s), LineTail(tree, t))
    decreases |s|, 3
  {
    hide Tokens, WordLength, Trim, First, ParseExec, ParsePipe;
    Alike(s, t);
    TrimTwice(s);
    TrimTwice(t);
    if Starts(Trim(s), '&') {
      AlikeAfter(s, t, '&');
      TailAlike(Back(tree), After(Trim(s)), After(Trim(t)));
    } else if Starts(Trim(s), ';') {
      AlikeAfter(s, t, ';');
      LineAlike(After(Trim(s)), After(Trim(t)));
    }
  }

  lemma {:induction false} LineAlike(s: string, t: string)
    requires Same(s, t)
    ensures AlikeParsed(ParseLine(s), ParseLine(t))
    decreases |s|, 4
  {
    hide Tokens, WordLength, Trim, First, ParseExec, ParsePipe, LineTail;
    PipeAlike(s, t);
    var x, y := ParsePipe(s), ParsePipe(t);
    if x.Ok? { TailAlike(x.tree, x.rest, y.rest); }
  }

  /** The parse depends on the tokens alone. */
  lemma ParseAlike(s: string, t: string)
    requires Same(s, t)
    ensures Parse(s) == Parse(t)
  {
    hide Tokens, WordLength, Trim, First, ParseLine;
    LineAlike(s, t);
    var x, y := ParseLine(s), ParseLine(t);
    if x.Ok? { Alike(x.rest, y.rest); }
  }

  // ---- white space ----

  predicate White(w: string) {
    forall i :: 0 <= i < |w| ==> IsSpace(w[i])
  }

  /** No token goes from `a` over into `x`. */
  predicate Cut(a: string, x: string) {
    a == "" || x == "" ||
    var l, f := a[|a| - 1], x[0];
    (!IsPlain(l) || !IsPlain(f)) && !(l == '>' && f == '>')
  }

  lemma {:induction false} TrimPlus(a: string, x: string)
    ensures Trim(a + x) == if Trim(a) == "" then Trim(x) else Trim(a) + x
    ensures Trim(a) != "" ==> Trim(a)[|Trim(a)| - 1] == a[|a| - 1]
  {
    if a == "" {
      assert a + x == x;
    } else if IsSpace(a[0]) {
      assert (a + x)[1..] == a[1..] + x;
      TrimPlus(a[1..], x);
    }
  }

  lemma {:induction false} WordPlus(t: string, x: string)
    requires t != "" && (x == "" || !IsPlain(t[|t| - 1]) || !IsPlain(x[0]))
    ensures WordLength(t + x) == WordLength(t)
  {
    if IsPlain(t[0]) {
      assert (t + x)[1..] == t[1..] + x;
      if |t| > 1 { WordPlus(t[1..], x); } else { assert t[1..] + x == x; }
    }
  }

  lemma FirstPlus(t: string, x: string)
    requires t != "" && !IsSpace(t[0]) && Cut(t, x)
    ensures First(t + x) == First(t)
  {
    if !IsSymbol(t[0]) {
      WordPlus(t, x);
      assert (t + x)[..WordLength(t)] == t[..WordLength(t)];
    }
  }

  lemma {:induction false} TokensPlus(a: string, x: string, y: string)
    requires Cut(a, x) && Cut(a, y) && Same(x, y)
    ensures Same(a + x, a + y)
    decreases |a|
  {
    hide Trim, First;
    TrimPlus(a, x);
    TrimPlus(a, y);
    var t := Trim(a);
    if t == "" {
      assert Tokens(a + x) == Tokens(x) && Tokens(a + y) == Tokens(y);
    } else {
      var n := First(t).1;
      FirstPlus(t, x);
      FirstPlus(t, y);
      assert (t + x)[n..] == t[n..] + x && (t + y)[n..] == t[n..] + y;
      TokensPlus(t[n..], x, y);
    }
  }

  lemma WhiteTokens(w: string, b: string)
    requires White(w)
    ensures Same(w + b, b)
  {
    TrimPlus(w, b);
    NoneLeft(w);
  }

  lemma {:induction false} NoneLeft(w: string)
    requires White(w)
    ensures Trim(w) == ""
  {
    if w != "" { NoneLeft(w[1..]); }
  }

  /** White space may be added wherever no token is cut, and what white space it is does not matter: so too the newline
      at the end of a line. */
  lemma WhiteSpaceIgnored(a: string, w: string, v: string, b: string)
    requires White(w) && White(v) && (w == "" || v == "" ==> Cut(a, b))
    ensures Parse(a + (w + b)) == Parse(a + (v + b))
  {
    hide Parse, Tokens;
    WhiteTokens(w, b);
    WhiteTokens(v, b);
    assert w == "" ==> w + b == b;
    assert v == "" ==> v + b == b;
    TokensPlus(a, w + b, v + b);
    ParseAlike(a + (w + b), a + (v + b));
  }

  lemma NewlineIgnored(line: string)
    ensures Parse(line + "\n") == Parse(line)
  {
    hide Parse;
    WhiteSpaceIgnored(line, "\n", "", "");
    assert "\n" + "" == "\n" && "" + "" == "";
    assert line + "" == line;
  }

  // ---- several redirections ----

  function PrintRedirs(fs: seq<(string, Mode)>): (s: string) {
    if fs == [] then "" else PrintMode(fs[0].1) + fs[0].0 + " " + PrintRedirs(fs[1..])
  }

  /** The command inside all redirections, and these from the inside out. */
  function Core(t: Tree): (c: Tree) {
    if t.Redir? then Core(t.cmd) else t
  }

  function Layers(t: Tree): (fs: seq<(string, Mode)>) {
    if t.Redir? then Layers(t.cmd) + [(t.file, t.mode)] else []
  }

  lemma {:induction false} WrapLayers(t: Tree, fs: seq<(string, Mode)>)
    requires !t.Redir?
    ensures Core(Wrap(t, fs)) == t && Layers(Wrap(t, fs)) == fs
    decreases |fs|
  {
    if fs != [] {
      WrapLayers(t, fs[..|fs| - 1]);
      assert fs == fs[..|fs| - 1] + [fs[|fs| - 1]];
    }
  }

  lemma {:induction false} RedirsBack(had: seq<(string, Mode)>, fs: seq<(string, Mode)>)
    requires LegalFiles(fs)
    ensures TakeRedirs(had, PrintRedirs(fs)) == Files(had + fs, "")
    decreases |fs|
  {
    hide TakeRedirs, WordLength, Trim;
    if fs == [] {
      assert had + fs == had;
      NoRedir(had, "");
    } else {
      OneMore(had, fs[0].0, fs[0].1, fs[1..]);
      RedirsBack(had + [fs[0]], fs[1..]);
      assert had + [fs[0]] + fs[1..] == had + fs;
    }
  }

  lemma {:induction false} OneMore(had: seq<(string, Mode)>, f: string, m: Mode, fs: seq<(string, Mode)>)
    requires LegalWord(f)
    ensures TakeRedirs(had, PrintMode(m) + f + " " + PrintRedirs(fs)) == TakeRedirs(had + [(f, m)], PrintRedirs(fs))
  {
    hide TakeRedirs, WordLength, PrintRedirs;
    var x := PrintRedirs(fs);
    var s, y := PrintMode(m) + f + " " + x, f + " " + x;
    RedirsStart(fs);
    WordSpace(f, x);
    assert s == PrintMode(m) + y && IsPlain(y[0]);
    ModeThen(m, y);
    TakeOne(had, s, y);
  }

  lemma ModeThen(m: Mode, y: string)
    ensures var s := PrintMode(m) + y;
            match m
            case In => s[0] == '<' && s[1..] == y
            case Out => s[0] == '>' && s[1..] == y
            case Append => s[0] == '>' && s[1] == '>' && s[2..] == y
  {
    match m
    case In => assert (PrintMode(m) + y)[1..] == y;
    case Out => assert (PrintMode(m) + y)[1..] == y;
    case Append => assert (PrintMode(m) + y)[2..] == y;
  }

  lemma RedirsStart(fs: seq<(string, Mode)>)
    ensures var s := PrintRedirs(fs); s == "" || s[0] == '<' || s[0] == '>'
  {
  }

  /** A word before other words or before redirections. */
  lemma ArgThen(args: seq<string>, w: string, fs: seq<(string, Mode)>)
    requires |args| + 1 < MAXARGS && LegalWord(w) && LegalFiles(fs)
    ensures TakeArgs(args, [], w + " " + PrintRedirs(fs)) == Ok(Wrap(Exec(args + [w]), fs), "")
  {
    hide WordLength, TakeRedirs, PrintRedirs;
    RedirsStart(fs);
    WordSpace(w, PrintRedirs(fs));
    RedirsBack([], fs);
    assert [] + fs == fs;
    assert IsPlain(w[0]);
    assert TakeArgs(args + [w], fs, "") == Ok(Wrap(Exec(args + [w]), fs), "");
  }

  lemma {:induction false} ArgsThen(args: seq<string>, ws: seq<string>, fs: seq<(string, Mode)>)
    requires ws != [] && |args| + |ws| < MAXARGS && (forall i :: 0 <= i < |ws| ==> LegalWord(ws[i])) && LegalFiles(fs)
    ensures TakeArgs(args, [], PrintWords(ws) + PrintRedirs(fs)) == Ok(Wrap(Exec(args + ws), fs), "")
    decreases |ws|
  {
    hide TakeArgs, TakeRedirs, LegalWord, PrintRedirs, Wrap, LegalFiles;
    var x := PrintWords(ws[1..]) + PrintRedirs(fs);
    assert PrintWords(ws) + PrintRedirs(fs) == ws[0] + " " + x;
    if |ws| == 1 {
      assert x == PrintRedirs(fs) && args + ws == args + [ws[0]];
      ArgThen(args, ws[0], fs);
    } else {
      assert IsPlain(x[0]) by { PlainStart(ws[1], ws[1..], PrintRedirs(fs)); }
      OneArg(args, ws[0], x);
      ArgsThen(args + [ws[0]], ws[1..], fs);
      assert args + [ws[0]] + ws[1..] == args + ws;
    }
  }

  lemma PlainStart(w: string, ws: seq<string>, y: string)
    requires ws != [] && ws[0] == w && LegalWord(w)
    ensures |PrintWords(ws) + y| > 0 && IsPlain((PrintWords(ws) + y)[0])
  {
  }

  /** A command with redirections after it: the first is the innermost, and so the last to take effect. */
  lemma RedirsNest(argv: seq<string>, fs: seq<(string, Mode)>)
    requires Legal(Exec(argv)) && LegalFiles(fs)
    ensures var r := Parse(PrintWords(argv) + PrintRedirs(fs));
            r.Ok? && Core(r.tree) == Exec(argv) && Layers(r.tree) == fs
  {
    hide Wrap, Core, Layers, LegalFiles, PrintRedirs;
    var s := PrintWords(argv) + PrintRedirs(fs);
    WrapLayers(Exec(argv), fs);
    ExecOf(argv, fs);
    PipeEnds(s, Wrap(Exec(argv), fs), "");
    LineEnds(s, Wrap(Exec(argv), fs), "");
  }

  lemma ExecOf(argv: seq<string>, fs: seq<(string, Mode)>)
    requires Legal(Exec(argv)) && LegalFiles(fs)
    ensures ParseExec(PrintWords(argv) + PrintRedirs(fs)) == Ok(Wrap(Exec(argv), fs), "")
  {
    hide PrintRedirs, LegalFiles, WordLength;
    var s := PrintWords(argv) + PrintRedirs(fs);
    RedirsStart(fs);
    if argv == [] {
      assert s == PrintRedirs(fs);
      RedirsBack([], fs);
      assert [] + fs == fs;
    } else {
      PlainStart(argv[0], argv, PrintRedirs(fs));
      assert TakeRedirs([], s) == Files([], s);
      ArgsThen([], argv, fs);
      assert [] + argv == argv;
    }
  }
}
