/** The parser of user/sh.c over positions in its buffer, and nulterminate. The commands of
    parseexec and parseblock get their redirections around them in the order read. */
module ShellParser {
  import G = ShellGrammar
  import opened ShellGrammar
  import opened Collections

  const NUL := '\0'

  /** A word: from argv or file up to eargv or efile. */
  datatype Span = Span(lo: nat, hi: nat)

  datatype Cmd =
    | ExecCmd(argv: seq<Span>)
    | RedirCmd(cmd: Cmd, file: Span, mode: Mode)
    | PipeCmd(left: Cmd, right: Cmd)
    | ListCmd(left: Cmd, right: Cmd)
    | BackCmd(cmd: Cmd)

  /** A whole word of `s`: plain characters, and none after them. */
  predicate WordAt(s: string, w: Span) {
    && w.lo < w.hi <= |s| && (forall i :: w.lo <= i < w.hi ==> IsPlain(s[i]))
    && (w.hi == |s| || !IsPlain(s[w.hi]))
  }

  predicate AllWords(s: string, ws: seq<Span>) {
    forall i :: 0 <= i < |ws| ==> WordAt(s, ws[i])
  }

  predicate Sound(s: string, c: Cmd) {
    match c
    case ExecCmd(argv) => AllWords(s, argv)
    case RedirCmd(d, f, _) => Sound(s, d) && WordAt(s, f)
    case PipeCmd(l, r) => Sound(s, l) && Sound(s, r)
    case ListCmd(l, r) => Sound(s, l) && Sound(s, r)
    case BackCmd(d) => Sound(s, d)
  }

  function Text(s: string, w: Span): (t: string)
    requires WordAt(s, w)
  {
    s[w.lo..w.hi]
  }

  function Texts(s: string, ws: seq<Span>): (ts: seq<string>)
    requires AllWords(s, ws)
    ensures |ts| == |ws| && forall i :: 0 <= i < |ws| ==> ts[i] == Text(s, ws[i])
  {
    seq(|ws|, i requires 0 <= i < |ws| => Text(s, ws[i]))
  }

  /** The command with its words written out. */
  function TreeOf(s: string, c: Cmd): (t: Tree)
    requires Sound(s, c)
  {
    match c
    case ExecCmd(argv) => Exec(Texts(s, argv))
    case RedirCmd(d, f, m) => Redir(TreeOf(s, d), Text(s, f), m)
    case PipeCmd(l, r) => Pipe(TreeOf(s, l), TreeOf(s, r))
    case ListCmd(l, r) => List(TreeOf(s, l), TreeOf(s, r))
    case BackCmd(d) => Back(TreeOf(s, d))
  }

  // ---- tokens ----

  datatype Token = Nothing | Symbol(c: char) | Double | Word

  method SkipSpace(s: string, i: nat) returns (j: nat)
    requires i <= |s|
    ensures i <= j <= |s| && s[j..] == Trim(s[i..])
  {
    j := i;
    while j < |s| && IsSpace(s[j])
      invariant i <= j <= |s| && Trim(s[j..]) == Trim(s[i..])
    {
      assert s[j..][1..] == s[j + 1..];
      j := j + 1;
    }
  }

  method Peek(s: string, i: nat, toks: string) returns (b: bool, j: nat)
    requires i <= |s|
    ensures i <= j <= |s| && s[j..] == Trim(s[i..]) && (b <==> j < |s| && s[j] in toks)
  {
    j := SkipSpace(s, i);
    b := j < |s| && s[j] in toks;
  }

  /** gettoken: the kind of token, where it begins and ends, and where the next begins. */
  method GetToken(s: string, i: nat) returns (k: Token, q: nat, eq: nat, j: nat)
    requires i <= |s|
    ensures i <= q <= eq <= j <= |s| && s[q..] == Trim(s[i..]) && s[j..] == Trim(s[eq..])
    ensures k == if q == |s| then Nothing else if s[q] == '>' && q + 1 < |s| && s[q + 1] == '>' then Double
                 else if IsSymbol(s[q]) then Symbol(s[q]) else Word
    ensures eq == q + match k case Nothing => 0 case Symbol(_) => 1 case Double => 2 case Word => WordLength(s[q..])
    ensures k.Word? ==> WordAt(s, Span(q, eq))
  {
    q := SkipSpace(s, i);
    eq := q;
    if q == |s| {
      k := Nothing;
    } else if s[q] == '>' {
      k, eq := Symbol('>'), q + 1;
      if eq < |s| && s[eq] == '>' { k, eq := Double, eq + 1; }
    } else if IsSymbol(s[q]) {
      k, eq := Symbol(s[q]), q + 1;
    } else {
      k := Word;
      while eq < |s| && !IsSpace(s[eq]) && !IsSymbol(s[eq])
        invariant q <= eq <= |s| && (forall n :: q <= n < eq ==> IsPlain(s[n]))
          && WordLength(s[q..]) == eq - q + WordLength(s[eq..])
      {
        assert s[eq..][1..] == s[eq + 1..];
        eq := eq + 1;
      }
    }
    j := SkipSpace(s, eq);
  }

  // ---- redirections ----

  predicate AllFiles(s: string, fs: seq<(Span, Mode)>) {
    forall i :: 0 <= i < |fs| ==> WordAt(s, fs[i].0)
  }

  function FileTexts(s: string, fs: seq<(Span, Mode)>): (ts: seq<(string, Mode)>)
    requires AllFiles(s, fs)
    ensures |ts| == |fs| && forall i :: 0 <= i < |fs| ==> ts[i] == (Text(s, fs[i].0), fs[i].1)
  {
    seq(|fs|, i requires 0 <= i < |fs| => (Text(s, fs[i].0), fs[i].1))
  }

  function WrapCmd(c: Cmd, fs: seq<(Span, Mode)>): (r: Cmd)
    decreases |fs|
  {
    if fs == [] then c else RedirCmd(WrapCmd(c, fs[..|fs| - 1]), fs[|fs| - 1].0, fs[|fs| - 1].1)
  }

  lemma {:induction false} WrapSound(s: string, c: Cmd, fs: seq<(Span, Mode)>)
    requires Sound(s, c) && AllFiles(s, fs)
    ensures Sound(s, WrapCmd(c, fs)) && TreeOf(s, WrapCmd(c, fs)) == Wrap(TreeOf(s, c), FileTexts(s, fs))
    decreases |fs|
  {
    if fs != [] {
      var n := |fs| - 1;
      WrapSound(s, c, fs[..n]);
      assert FileTexts(s, fs)[..n] == FileTexts(s, fs[..n]);
    }
  }

  /** The redirections read are those of the grammar. */
  predicate SameFiles(s: string, g: Redirs, fs: Option<seq<(Span, Mode)>>, j: nat) {
    if g.NoFile? then fs.None?
    else fs.Some? && j <= |s| && AllFiles(s, fs.value) && FileTexts(s, fs.value) == g.files && s[j..] == g.rest
  }

  lemma TrimTwice(s: string)
    ensures Trim(Trim(s)) == Trim(s)
  {
  }

  lemma SamePlace(s: string, a: nat, b: nat)
    requires a <= |s| && b <= |s| && s[a..] == s[b..]
    ensures a == b
  {
    assert |s[a..]| == |s[b..]|;
  }

  lemma TrimFirst(fs: seq<(string, Mode)>, s: string)
    ensures TakeRedirs(fs, Trim(s)) == TakeRedirs(fs, s)
  {
    TrimTwice(s);
  }

  lemma NoMore(fs: seq<(string, Mode)>, s: string)
    requires Trim(s) == s && !Starts(s, '<') && !Starts(s, '>')
    ensures TakeRedirs(fs, s) == Files(fs, s)
  {
  }

  lemma Slices(s: string, q: nat, n: nat)
    requires q + n <= |s|
    ensures s[q..][..n] == s[q..q + n] && s[q..][n..] == s[q + n..]
  {
  }

  /** One redirection: its operator up to `eq`, and its word from `q` on. */
  lemma OneMore(s: string, fs: seq<(string, Mode)>, at: nat, eq: nat, q: nat)
    requires at < |s| && Trim(s[at..]) == s[at..] && (s[at] == '<' || s[at] == '>')
    requires eq == (if s[at] == '>' && at + 1 < |s| && s[at + 1] == '>' then at + 2 else at + 1)
    requires eq <= q <= |s| && s[q..] == Trim(s[eq..])
    ensures var n := WordLength(s[q..]);
            var m := if s[at] == '<' then In else if eq == at + 2 then Append else Out;
            TakeRedirs(fs, s[at..]) == if n == 0 then NoFile else TakeRedirs(fs + [(s[q..q + n], m)], Trim(s[q + n..]))
  {
    hide TakeRedirs, Trim, WordLength, IsSpace;
    var t := s[at..];
    assert (if eq == at + 2 then t[2..] else t[1..]) == s[eq..];
    TakeOne(fs, t, s[q..]);
    Slices(s, q, WordLength(s[q..]));
  }

  method ParseRedirs(s: string, i: nat, fs0: seq<(Span, Mode)>) returns (fs: Option<seq<(Span, Mode)>>, j: nat)
    requires i <= |s| && AllFiles(s, fs0)
    ensures i <= j <= |s| && SameFiles(s, TakeRedirs(FileTexts(s, fs0), s[i..]), fs, j)
  {
    hide TakeRedirs, WordAt, Trim, WordLength, IsSpace;
    ghost var g := TakeRedirs(FileTexts(s, fs0), s[i..]);
    var more, got := false, fs0;
    more, j := Peek(s, i, "<>");
    TrimFirst(FileTexts(s, got), s[i..]);
    TrimTwice(s[i..]);
    while more
      invariant i <= j <= |s| && AllFiles(s, got) && (more <==> j < |s| && s[j] in "<>")
      invariant Trim(s[j..]) == s[j..] && TakeRedirs(FileTexts(s, got), s[j..]) == g
      decreases |s| - j
    {
      var k, q, eq, j1 := GetToken(s, j);
      SamePlace(s, q, j);
      var k2, q2, eq2, j2 := GetToken(s, j1);
      TrimTwice(s[eq..]);
      OneMore(s, FileTexts(s, got), j, eq, q2);
      if !k2.Word? {
        NotWord(s, q2);
        return None, j2;
      }
      IsWord(s, q2, eq2);
      var mode := if k == Symbol('<') then In else if k.Double? then Append else Out;
      ghost var was := got;
      got := got + [(Span(q2, eq2), mode)];
      assert FileTexts(s, got) == FileTexts(s, was) + [(s[q2..eq2], mode)];
      more, j := Peek(s, j2, "<>");
      TrimTwice(s[eq2..]);
      TrimTwice(s[j2..]);
    }
    NoMore(FileTexts(s, got), s[j..]);
    fs := Some(got);
  }

  lemma NotWord(s: string, q: nat)
    requires q <= |s| && (q == |s| || IsSymbol(s[q]))
    ensures WordLength(s[q..]) == 0
  {
  }

  lemma IsWord(s: string, q: nat, eq: nat)
    requires WordAt(s, Span(q, eq))
    ensures WordLength(s[q..]) > 0 && Text(s, Span(q, eq)) == s[q..eq]
  {
    assert IsPlain(s[q..][0]);
  }

  // ---- commands ----

  /** The command read is that of the grammar, with its words in the buffer. */
  predicate Same(s: string, g: Parsed, r: Option<Cmd>, j: nat) {
    if g.Bad? then r.None?
    else r.Some? && j <= |s| && s[j..] == g.rest && Sound(s, r.value) && TreeOf(s, r.value) == g.tree
  }

  lemma TrimArgs(args: seq<string>, fs: seq<(string, Mode)>, s: string)
    ensures TakeArgs(args, fs, Trim(s)) == TakeArgs(args, fs, s)
  {
    TrimTwice(s);
  }

  lemma ArgsStop(args: seq<string>, fs: seq<(string, Mode)>, t: string)
    requires Trim(t) == t && (t == "" || IsEnd(t[0]))
    ensures TakeArgs(args, fs, t) == Ok(Wrap(Exec(args), fs), t)
  {
  }

  /** One round of the loop of parseexec: a word, or a syntax error. */
  lemma ArgsStep(args: seq<string>, fs: seq<(string, Mode)>, t: string)
    requires t != "" && Trim(t) == t && !IsEnd(t[0])
    ensures var n := WordLength(t);
            var r := TakeRedirs(fs, Trim(t[n..]));
            TakeArgs(args, fs, t) ==
              if n == 0 || |args| + 1 >= MAXARGS || r.NoFile? then Bad else TakeArgs(args + [t[..n]], r.files, r.rest)
  {
    hide Trim, WordLength, IsSpace, TakeRedirs, Wrap;
  }

  method ParseArgs(s: string, i: nat, fs0: seq<(Span, Mode)>) returns (r: Option<Cmd>, j: nat)
    requires i <= |s| && AllFiles(s, fs0)
    ensures i <= j <= |s| && Same(s, TakeArgs([], FileTexts(s, fs0), s[i..]), r, j)
  {
    hide TakeRedirs, TakeArgs, WordAt, Trim, WordLength, IsSpace, Wrap;
    ghost var g := TakeArgs([], FileTexts(s, fs0), s[i..]);
    var argv: seq<Span>, fs := [], fs0;
    j := i;
    assert Texts(s, argv) == [];
    while true
      invariant i <= j <= |s| && AllWords(s, argv) && AllFiles(s, fs)
      invariant TakeArgs(Texts(s, argv), FileTexts(s, fs), s[j..]) == g
      decreases |s| - j
    {
      TrimArgs(Texts(s, argv), FileTexts(s, fs), s[j..]);
      TrimTwice(s[j..]);
      var stop;
      stop, j := Peek(s, j, "|)&;");
      if stop { break; }
      var k, q, eq, j1 := GetToken(s, j);
      SamePlace(s, q, j);
      if k.Nothing? { break; }
      ArgsStep(Texts(s, argv), FileTexts(s, fs), s[j..]);
      if !k.Word? {
        NotWord(s, j);
        return None, j1;
      }
      IsWord(s, q, eq);
      ghost var was := argv;
      argv := argv + [Span(q, eq)];
      assert Texts(s, argv) == Texts(s, was) + [s[q..eq]];
      assert s[q..][..eq - q] == s[q..eq] && s[q..][eq - q..] == s[eq..];
      if |argv| >= MAXARGS { return None, j1; }
      TrimFirst(FileTexts(s, fs), s[eq..]);
      var more;
      more, j := ParseRedirs(s, j1, fs);
      if more.None? { return None, j; }
      fs := more.value;
    }
    ArgsStop(Texts(s, argv), FileTexts(s, fs), s[j..]);
    WrapSound(s, ExecCmd(argv), fs);
    r := Some(WrapCmd(ExecCmd(argv), fs));
  }

  lemma ExecIs(t: string)
    requires Trim(t) == t && !Starts(t, '(')
    ensures var r := TakeRedirs([], t);
            G.ParseExec(t) == if r.NoFile? then Bad else TakeArgs([], r.files, r.rest)
  {
    hide TakeRedirs, TakeArgs, Trim;
  }

  lemma TrimExec(s: string)
    ensures G.ParseExec(Trim(s)) == G.ParseExec(s)
  {
    TrimTwice(s);
  }

  lemma BlockIs(t: string)
    requires Trim(t) == t && Starts(t, '(')
    ensures var line := G.ParseLine(Trim(t[1..]));
            G.ParseExec(t) ==
              if line.Bad? || !Starts(Trim(line.rest), ')') then Bad
              else var r := TakeRedirs([], Trim(Trim(line.rest)[1..]));
                   if r.NoFile? then Bad else Ok(Wrap(line.tree, r.files), r.rest)
  {
    hide TakeRedirs, TakeArgs, Trim, G.ParseLine, Wrap;
  }

  method ParseExec(s: string, i: nat) returns (r: Option<Cmd>, j: nat)
    requires i <= |s|
    ensures i <= j <= |s| && Same(s, G.ParseExec(s[i..]), r, j)
    decreases |s| - i, 1
  {
    hide TakeRedirs, TakeArgs, Trim, G.ParseExec, G.ParseLine, Wrap, Sound;
    TrimExec(s[i..]);
    TrimTwice(s[i..]);
    var block;
    block, j := Peek(s, i, "(");
    if block {
      r, j := ParseBlock(s, j);
      return;
    }
    ExecIs(s[j..]);
    assert FileTexts(s, []) == [];
    var fs;
    fs, j := ParseRedirs(s, j, []);
    if fs.None? { return None, j; }
    r, j := ParseArgs(s, j, fs.value);
  }

  method ParseBlock(s: string, i: nat) returns (r: Option<Cmd>, j: nat)
    requires i < |s| && Trim(s[i..]) == s[i..] && s[i] == '('
    ensures i <= j <= |s| && Same(s, G.ParseExec(s[i..]), r, j)
    decreases |s| - i, 0
  {
    hide TakeRedirs, Trim, G.ParseExec, G.ParseLine, Wrap, Sound, WordLength, IsSpace;
    BlockIs(s[i..]);
    j := Eat(s, i);
    r, j := ParseLine(s, j);
    if r.None? { return; }
    TrimTwice(s[j..]);
    var close;
    close, j := Peek(s, j, ")");
    if !close { return None, j; }
    j := Eat(s, j);
    assert FileTexts(s, []) == [];
    var fs;
    fs, j := ParseRedirs(s, j, []);
    if fs.None? { return None, j; }
    WrapSound(s, r.value, fs.value);
    r := Some(WrapCmd(r.value, fs.value));
  }

  lemma PipeIs(s: string)
    ensures var left := G.ParseExec(s);
            G.ParsePipe(s) ==
              if left.Bad? then Bad
              else if !Starts(Trim(left.rest), '|') then Ok(left.tree, Trim(left.rest))
              else var right := G.ParsePipe(Trim(Trim(left.rest)[1..]));
                   if right.Bad? then Bad else Ok(Pipe(left.tree, right.tree), right.rest)
  {
    hide Trim, G.ParseExec;
  }

  method ParsePipe(s: string, i: nat) returns (r: Option<Cmd>, j: nat)
    requires i <= |s|
    ensures i <= j <= |s| && Same(s, G.ParsePipe(s[i..]), r, j)
    decreases |s| - i, 2
  {
    hide Trim, G.ParseExec, G.ParsePipe, WordLength, IsSpace;
    PipeIs(s[i..]);
    r, j := ParseExec(s, i);
    if r.None? { return; }
    TrimTwice(s[j..]);
    var more;
    more, j := Peek(s, j, "|");
    if more {
      j := Eat(s, j);
      var right;
      right, j := ParsePipe(s, j);
      if right.None? { return None, j; }
      r := Some(PipeCmd(r.value, right.value));
    }
  }

  lemma TailIs(tree: Tree, s: string)
    ensures G.LineTail(tree, s) ==
              var t := Trim(s);
              if Starts(t, '&') then G.LineTail(Back(tree), Trim(t[1..]))
              else if Starts(t, ';') then
                var right := G.ParseLine(Trim(t[1..]));
                if right.Bad? then Bad else Ok(List(tree, right.tree), right.rest)
              else Ok(tree, t)
  {
    hide Trim, G.ParseLine;
  }

  lemma LineIs(s: string)
    ensures G.ParseLine(s) == if G.ParsePipe(s).Bad? then Bad else G.LineTail(G.ParsePipe(s).tree, G.ParsePipe(s).rest)
  {
    hide G.ParsePipe, G.LineTail;
  }

  lemma TrimTail(tree: Tree, s: string)
    ensures G.LineTail(tree, Trim(s)) == G.LineTail(tree, s)
  {
    hide Trim;
    TrimTwice(s);
    TailIs(tree, s);
    TailIs(tree, Trim(s));
  }

  /** gettoken of a symbol that peek has seen. */
  method Eat(s: string, i: nat) returns (j: nat)
    requires i < |s| && Trim(s[i..]) == s[i..] && IsSymbol(s[i]) && s[i] != '>'
    ensures i < j <= |s| && s[j..] == Trim(s[i..][1..]) && Trim(s[j..]) == s[j..]
  {
    hide Trim, WordLength, IsSpace;
    var k, q, eq;
    k, q, eq, j := GetToken(s, i);
    SamePlace(s, q, i);
    assert s[i..][1..] == s[i + 1..];
    TrimTwice(s[i + 1..]);
  }

  method ParseLine(s: string, i: nat) returns (r: Option<Cmd>, j: nat)
    requires i <= |s|
    ensures i <= j <= |s| && Same(s, G.ParseLine(s[i..]), r, j)
    decreases |s| - i, 3
  {
    hide Trim, G.ParsePipe, G.ParseLine, G.LineTail, WordLength, IsSpace, Sound, TreeOf;
    LineIs(s[i..]);
    r, j := ParsePipe(s, i);
    if r.None? { return; }
    var cmd, back := r.value, false;
    ghost var g := G.ParseLine(s[i..]);
    TrimTail(TreeOf(s, cmd), s[j..]);
    TrimTwice(s[j..]);
    back, j := Peek(s, j, "&");
    while back
      invariant i <= j <= |s| && Sound(s, cmd) && (back <==> j < |s| && s[j] in "&")
      invariant Trim(s[j..]) == s[j..] && G.LineTail(TreeOf(s, cmd), s[j..]) == g
      decreases |s| - j
    {
      TailIs(TreeOf(s, cmd), s[j..]);
      BackSound(s, cmd);
      j := Eat(s, j);
      cmd := BackCmd(cmd);
      back, j := Peek(s, j, "&");
    }
    TailIs(TreeOf(s, cmd), s[j..]);
    var list;
    list, j := Peek(s, j, ";");
    if list {
      j := Eat(s, j);
      var right;
      right, j := ParseLine(s, j);
      if right.None? { return None, j; }
      ListSound(s, cmd, right.value);
      cmd := ListCmd(cmd, right.value);
    }
    r := Some(cmd);
  }

  lemma BackSound(s: string, c: Cmd)
    requires Sound(s, c)
    ensures Sound(s, BackCmd(c)) && TreeOf(s, BackCmd(c)) == Back(TreeOf(s, c))
  {
  }

  lemma ListSound(s: string, l: Cmd, r: Cmd)
    requires Sound(s, l) && Sound(s, r)
    ensures Sound(s, ListCmd(l, r)) && TreeOf(s, ListCmd(l, r)) == List(TreeOf(s, l), TreeOf(s, r))
  {
  }

  // ---- the words as C strings ----

  function Spans(c: Cmd): (ws: seq<Span>) {
    match c
    case ExecCmd(argv) => argv
    case RedirCmd(d, f, _) => Spans(d) + [f]
    case PipeCmd(l, r) => Spans(l) + Spans(r)
    case ListCmd(l, r) => Spans(l) + Spans(r)
    case BackCmd(d) => Spans(d)
  }

  lemma {:induction false} SoundSpans(s: string, c: Cmd)
    requires Sound(s, c)
    ensures AllWords(s, Spans(c))
  {
    match c
    case ExecCmd(argv) =>
    case RedirCmd(d, f, _) => SoundSpans(s, d);
    case PipeCmd(l, r) => SoundSpans(s, l); SoundSpans(s, r);
    case ListCmd(l, r) => SoundSpans(s, l); SoundSpans(s, r);
    case BackCmd(d) => SoundSpans(s, d);
  }

  predicate Ends(ws: seq<Span>, k: nat) {
    exists i :: 0 <= i < |ws| && ws[i].hi == k
  }

  /** `b` with a NUL at the end of every word. */
  ghost predicate Terminated(before: seq<char>, b: seq<char>, ws: seq<Span>) {
    |b| == |before| && forall k :: 0 <= k < |b| ==> b[k] == if Ends(ws, k) then NUL else before[k]
  }

  lemma TerminatedBoth(a: seq<char>, b: seq<char>, c: seq<char>, v: seq<Span>, w: seq<Span>)
    requires Terminated(a, b, v) && Terminated(b, c, w)
    ensures Terminated(a, c, v + w)
  {
    forall k | 0 <= k < |c|
      ensures Ends(v + w, k) <==> Ends(v, k) || Ends(w, k)
    {
      if Ends(v, k) {
        var i :| 0 <= i < |v| && v[i].hi == k;
        assert (v + w)[i].hi == k;
      }
      if Ends(w, k) {
        var i :| 0 <= i < |w| && w[i].hi == k;
        assert (v + w)[|v| + i].hi == k;
      }
    }
  }

  lemma TerminatedOne(a: seq<char>, f: Span)
    requires f.hi < |a|
    ensures Terminated(a, a[f.hi := NUL], [f])
  {
    assert [f][0].hi == f.hi;
  }

  method Nulterminate(buf: array<char>, c: Cmd)
    requires forall i :: 0 <= i < |Spans(c)| ==> Spans(c)[i].hi < buf.Length
    modifies buf
    ensures Terminated(old(buf[..]), buf[..], Spans(c))
    decreases c, 1
  {
    hide Terminated;
    ghost var a := buf[..];
    match c
    case ExecCmd(argv) =>
      assert argv[..0] == [] && Terminated(a, a, []) by { TerminatedNone(a); }
      var i := 0;
      while i < |argv|
        invariant 0 <= i <= |argv| && Terminated(a, buf[..], argv[..i])
      {
        ghost var b := buf[..];
        assert Spans(c)[i] == argv[i];
        TerminatedOne(b, argv[i]);
        buf[argv[i].hi] := NUL;
        assert buf[..] == b[argv[i].hi := NUL];
        TerminatedBoth(a, b, buf[..], argv[..i], [argv[i]]);
        assert argv[..i + 1] == argv[..i] + [argv[i]];
        i := i + 1;
      }
      assert argv[..|argv|] == argv;
    case RedirCmd(d, f, _) =>
      assert forall i :: 0 <= i < |Spans(d)| ==> Spans(d)[i] == Spans(c)[i];
      assert f == Spans(c)[|Spans(d)|];
      Nulterminate(buf, d);
      ghost var b := buf[..];
      TerminatedOne(b, f);
      buf[f.hi] := NUL;
      assert buf[..] == b[f.hi := NUL];
      TerminatedBoth(a, b, buf[..], Spans(d), [f]);
    case PipeCmd(l, r) =>
      assert Spans(c) == Spans(l) + Spans(r);
      Both(buf, l, r, c);
    case ListCmd(l, r) =>
      assert Spans(c) == Spans(l) + Spans(r);
      Both(buf, l, r, c);
    case BackCmd(d) =>
      assert Spans(c) == Spans(d);
      Nulterminate(buf, d);
  }

  method Both(buf: array<char>, l: Cmd, r: Cmd, ghost c: Cmd)
    requires c == PipeCmd(l, r) || c == ListCmd(l, r)
    requires forall i :: 0 <= i < |Spans(l) + Spans(r)| ==> (Spans(l) + Spans(r))[i].hi < buf.Length
    modifies buf
    ensures Terminated(old(buf[..]), buf[..], Spans(l) + Spans(r))
    decreases c, 0
  {
    hide Terminated;
    ghost var a := buf[..];
    assert forall i :: 0 <= i < |Spans(l)| ==> Spans(l)[i] == (Spans(l) + Spans(r))[i];
    assert forall i :: 0 <= i < |Spans(r)| ==> Spans(r)[i] == (Spans(l) + Spans(r))[|Spans(l)| + i];
    Nulterminate(buf, l);
    ghost var b := buf[..];
    Nulterminate(buf, r);
    TerminatedBoth(a, b, buf[..], Spans(l), Spans(r));
  }

  lemma TerminatedNone(a: seq<char>)
    ensures Terminated(a, a, [])
  {
  }

  /** The C string that begins at `lo`. */
  function CString(b: seq<char>, lo: nat): (r: string)
    requires lo <= |b|
    decreases |b| - lo
  {
    if lo == |b| || b[lo] == NUL then "" else [b[lo]] + CString(b, lo + 1)
  }

  lemma {:induction false} CStringIs(b: seq<char>, lo: nat, hi: nat)
    requires lo <= hi < |b| && b[hi] == NUL && forall k :: lo <= k < hi ==> b[k] != NUL
    ensures CString(b, lo) == b[lo..hi]
    decreases hi - lo
  {
    if lo < hi { CStringIs(b, lo + 1, hi); }
  }

  /** Ends of words lie outside all words, so every word reads back whole. */
  lemma WordReads(s: string, before: seq<char>, b: seq<char>, ws: seq<Span>, i: nat)
    requires NUL !in s && AllWords(s, ws) && i < |ws| && |s| < |before| && before[..|s|] == s && before[|s|] == NUL
    requires Terminated(before, b, ws)
    ensures ws[i].lo < ws[i].hi <= |s| && ws[i].lo <= |b| && CString(b, ws[i].lo) == s[ws[i].lo..ws[i].hi]
  {
    hide CString;
    var w := ws[i];
    assert WordAt(s, w);
    assert Ends(ws, w.hi);
    forall k | w.lo <= k < w.hi
      ensures b[k] == s[k] && b[k] != NUL
    {
      assert before[..|s|][k] == s[k] && s[k] in s;
      assert IsPlain(s[k]) && forall n :: 0 <= n < |ws| ==> WordAt(s, ws[n]);
    }
    CStringIs(b, w.lo, w.hi);
    assert b[w.lo..w.hi] == s[w.lo..w.hi];
  }

  /** parsecmd: what the grammar says, with every word of the result a C string in the buffer. */
  method ParseCmd(buf: array<char>, n: nat) returns (r: Option<Cmd>)
    requires n < buf.Length && buf[n] == NUL && forall i :: 0 <= i < n ==> buf[i] != NUL
    modifies buf
    ensures var s := old(buf[..n]);
            && (r.Some? <==> Parse(s).Ok?)
            && (r.Some? ==> Sound(s, r.value) && TreeOf(s, r.value) == Parse(s).tree)
            && (r.Some? ==> forall i :: 0 <= i < |Spans(r.value)| ==>
                  var w := Spans(r.value)[i];
                  w.lo < w.hi <= n && CString(buf[..], w.lo) == s[w.lo..w.hi])
  {
    hide G.ParseLine, Trim, Sound, TreeOf, Spans, CString, Terminated;
    var s := buf[..n];
    assert s[0..] == s;
    var j;
    r, j := ParseLine(s, 0);
    if r.None? { return; }
    j := SkipSpace(s, j);
    if j != |s| { return None; }
    SoundSpans(s, r.value);
    ghost var ws := Spans(r.value);
    assert forall i :: 0 <= i < |ws| ==> WordAt(s, ws[i]);
    Nulterminate(buf, r.value);
    assert NUL !in s;
    forall i | 0 <= i < |ws|
      ensures ws[i].lo < ws[i].hi <= n && CString(buf[..], ws[i].lo) == s[ws[i].lo..ws[i].hi]
    {
      WordReads(s, old(buf[..]), buf[..], ws, i);
    }
  }
}
