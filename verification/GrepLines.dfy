/** The line loop of user/grep.c over a buffer of fixed size, fed by reads of any sizes. */
module GrepLines {
  import opened GrepMatch

  const BUFSIZE := 1024
  const NUL := '\0'

  /** The index of the first newline, or the length when there is none. */
  function Newline(s: string): (q: nat)
    ensures q <= |s| && (q < |s| ==> s[q] == '\n') && forall i :: 0 <= i < q ==> s[i] != '\n'
  {
    if s == "" || s[0] == '\n' then 0 else 1 + Newline(s[1..])
  }

  /** grep shows a line that ends in the newline at `q` only if it fits the buffer with a NUL after it and is a
      C string; the first other line stays in the buffer for good. */
  predicate Shows(s: string, q: nat)
    requires q <= |s|
  {
    q < BUFSIZE - 1 && NUL !in s[..q]
  }

  /** The matching lines in order, up to the first that is not shown. */
  ghost function Grepped(re: string, s: string): (out: string)
    decreases |s|
  {
    var q := Newline(s);
    if q == |s| || !Shows(s, q) then ""
    else (if Matches(re, s[..q]) then s[..q + 1] else "") + Grepped(re, s[q + 1..])
  }

  /** All matching lines, in order. */
  ghost function Selected(re: string, s: string): (out: string)
    decreases |s|
  {
    var q := Newline(s);
    if q == |s| then "" else (if Matches(re, s[..q]) then s[..q + 1] else "") + Selected(re, s[q + 1..])
  }

  /** Every line that ends in a newline is at most 1023 characters with it, none of them NUL. */
  predicate LinesFit(s: string)
    decreases |s|
  {
    var q := Newline(s);
    q == |s| || (Shows(s, q) && LinesFit(s[q + 1..]))
  }

  /** What follows the last line that grep gets to. */
  function Unseen(s: string): (r: string)
    decreases |s|
  {
    var q := Newline(s);
    if q == |s| || !Shows(s, q) then s else Unseen(s[q + 1..])
  }

  /** The matching lines are those printed and those among the rest. */
  lemma {:induction false} PrintedOrUnseen(re: string, s: string)
    ensures Selected(re, s) == Grepped(re, s) + Selected(re, Unseen(s))
    decreases |s|
  {
    hide Matches, Newline, Shows;
    var q := Newline(s);
    if q < |s| && Shows(s, q) {
      PrintedOrUnseen(re, s[q + 1..]);
      Together(if Matches(re, s[..q]) then s[..q + 1] else "", Grepped(re, s[q + 1..]), Selected(re, Unseen(s)));
    }
  }

  lemma Together(a: string, b: string, c: string)
    ensures a + (b + c) == a + b + c
  {
  }

  /** grep prints every matching line of `s` exactly when no line it does not get to matches. */
  lemma PrintsAll(re: string, s: string)
    ensures Grepped(re, s) == Selected(re, s) <==> Selected(re, Unseen(s)) == ""
  {
    hide Grepped, Selected, Unseen;
    PrintedOrUnseen(re, s);
    if Selected(re, Unseen(s)) == "" { assert Grepped(re, s) + "" == Grepped(re, s); }
  }

  lemma {:induction false} UnseenFits(s: string)
    ensures LinesFit(s) <==> Newline(Unseen(s)) == |Unseen(s)|
    decreases |s|
  {
    hide Shows, Newline;
    var q := Newline(s);
    if q < |s| && Shows(s, q) { UnseenFits(s[q + 1..]); }
  }

  /** The empty pattern selects every line. */
  lemma EmptyMatches(text: string)
    ensures Matches("", text)
  {
    BeginsEmpty(text[0..]);
  }

  /** grep prints the matching lines whatever the pattern, exactly when every line fits the buffer. */
  lemma PrintsAllAlways(s: string)
    ensures (forall re :: Grepped(re, s) == Selected(re, s)) <==> LinesFit(s)
  {
    hide Grepped, LinesFit, Unseen, Newline, Matches;
    UnseenFits(s);
    var u := Unseen(s);
    forall re ensures Grepped(re, s) == Selected(re, s) <==> Selected(re, u) == "" { PrintsAll(re, s); }
    if LinesFit(s) {
      assert forall re :: Selected(re, u) == "";
    } else {
      EmptyMatches(u[..Newline(u)]);
      assert Selected("", u) != "";
      assert Grepped("", s) != Selected("", s);
    }
  }

  /** A line of 1024 characters that matches is not printed. */
  lemma LongLineLost()
    ensures var s := seq(BUFSIZE - 1, _ => 'a') + "\n";
            |s| == 1024 && Grepped("a", s) == "" && Selected("a", s) == s
  {
    var line := seq(BUFSIZE - 1, _ => 'a');
    var s := line + "\n";
    NewlineAt(s, BUFSIZE - 1);
    assert s[..BUFSIZE - 1] == line && s[..BUFSIZE] == s && s[BUFSIZE..] == "";
    assert Tokens("a"[1..]) == [] && Tokens("a") == [One('a')];
    assert Flat(["a"]) == "a" <= line[0..] && BeginsWith([One('a')], line[0..], ["a"]);
  }

  lemma NewlineAt(s: string, q: nat)
    requires q < |s| && s[q] == '\n' && forall i :: 0 <= i < q ==> s[i] != '\n'
    ensures Newline(s) == q
  {
  }

  /** The buffer holds no complete line: a NUL comes before its first newline. */
  ghost predicate Pending(s: string) {
    forall i :: 0 <= i < |s| && s[i] == '\n' ==> NUL in s[..i]
  }

  lemma NoLine(re: string, s: string, k: nat)
    requires k <= |s| && Pending(s[..k]) && (k == |s| || k >= BUFSIZE - 1)
    ensures Grepped(re, s) == ""
  {
    var q := Newline(s);
    if q < k {
      assert s[..k][q] == '\n' && s[..k][..q] == s[..q];
    }
  }

  /** The first newline of the C string at `p`, or -1. */
  method Strchr(buf: array<char>, p: nat, ghost m: nat) returns (q: int)
    requires p <= m < buf.Length && buf[m] == NUL
    ensures q == -1 || p <= q < m
    ensures q >= 0 ==> buf[q] == '\n' && forall i :: p <= i < q ==> buf[i] != '\n' && buf[i] != NUL
    ensures q < 0 ==> Pending(buf[p..m])
  {
    q := p;
    while buf[q] != NUL
      invariant p <= q <= m && forall i :: p <= i < q ==> buf[i] != '\n' && buf[i] != NUL
      decreases m - q
    {
      if buf[q] == '\n' { return; }
      q := q + 1;
    }
    StopsAtNul(buf[p..m], q - p);
    q := -1;
  }

  lemma StopsAtNul(s: string, k: nat)
    requires k <= |s| && (forall i :: 0 <= i < k ==> s[i] != '\n') && (k < |s| ==> s[k] == NUL)
    ensures Pending(s)
  {
    forall i | 0 <= i < |s| && s[i] == '\n' ensures NUL in s[..i] {
      assert s[..i][k] == NUL;
    }
  }

  /** memmove of the last part of the buffer to its start. */
  method Shift(buf: array<char>, p: nat, m: nat)
    requires p <= m <= buf.Length
    modifies buf
    ensures buf[..m - p] == old(buf[p..m])
  {
    var i := 0;
    while i < m - p
      invariant 0 <= i <= m - p && buf[..i] == old(buf[p..p + i]) && buf[p + i..m] == old(buf[p + i..m])
    {
      var c := buf[p + i];
      assert c == buf[p + i..m][0] == old(buf[p + i..m])[0];
      assert buf[p + i..m][1..] == buf[p + i + 1..m] && old(buf[p + i..m])[1..] == old(buf[p + i + 1..m]);
      buf[i] := c;
      i := i + 1;
    }
  }

  /** How much the next read gets: at least one character while there are any, and room for them. */
  function ReadSize(cut: nat, room: nat, left: nat): (n: nat)
    ensures n <= room && n <= left && (n == 0 <==> room == 0 || left == 0)
  {
    var most := if room < left then room else left;
    if cut == 0 && most > 0 then 1 else if cut < most then cut else most
  }

  /** The lines in the buffer: those complete are printed if they match, and `p` is where the rest begins. */
  method Lines(re: string, buf: array<char>, m: nat) returns (out: string, p: nat)
    requires m < BUFSIZE == buf.Length && buf[m] == NUL
    ensures p <= m && Pending(buf[p..m])
    ensures forall rest :: Grepped(re, buf[..m] + rest) == out + Grepped(re, buf[p..m] + rest)
  {
    hide Matches, Grepped, Newline, Pending;
    p, out := 0, "";
    assert buf[..m] == buf[0..m];
    var q := Strchr(buf, p, m);
    while q >= 0
      invariant 0 <= p <= m && (q == -1 || p <= q < m)
      invariant q >= 0 ==> buf[q] == '\n' && forall i :: p <= i < q ==> buf[i] != '\n' && buf[i] != NUL
      invariant q < 0 ==> Pending(buf[p..m])
      invariant forall rest :: Grepped(re, buf[..m] + rest) == out + Grepped(re, buf[p..m] + rest)
      decreases m - p, q
    {
      var hit := Match(re, buf[p..q]);
      forall rest
        ensures Grepped(re, buf[p..m] + rest) == (if hit then buf[p..q + 1] else "") + Grepped(re, buf[q + 1..m] + rest)
      {
        OneLine(re, buf[..m], p, q, rest);
        assert buf[..m][p..] == buf[p..m] && buf[..m][q + 1..] == buf[q + 1..m];
        assert buf[..m][p..q] == buf[p..q] && buf[..m][p..q + 1] == buf[p..q + 1];
      }
      if hit { out := out + buf[p..q + 1]; }
      p := q + 1;
      q := Strchr(buf, p, m);
    }
  }

  lemma OneLine(re: string, b: string, p: nat, q: nat, rest: string)
    requires p <= q < |b| < BUFSIZE && b[q] == '\n'
    requires forall i :: p <= i < q ==> b[i] != '\n' && b[i] != NUL
    ensures Grepped(re, b[p..] + rest) ==
            (if Matches(re, b[p..q]) then b[p..q + 1] else "") + Grepped(re, b[q + 1..] + rest)
  {
    hide Matches, Newline;
    var s := b[p..] + rest;
    NewlineAt(s, q - p);
    assert s[..q - p] == b[p..q];
    assert s[..q - p + 1] == b[p..q + 1];
    assert s[q - p + 1..] == b[q + 1..] + rest;
  }

  /** The copy that read makes into the buffer. */
  method Fill(buf: array<char>, m: nat, data: string)
    requires m + |data| <= buf.Length
    modifies buf
    ensures buf[..m + |data|] == old(buf[..m]) + data
  {
    var i := 0;
    while i < |data|
      invariant 0 <= i <= |data| && buf[..m + i] == old(buf[..m]) + data[..i]
    {
      buf[m + i] := data[i];
      i := i + 1;
    }
    assert data[..|data|] == data;
  }

  /** One read and what is printed after it; the unfinished line stays in the buffer. */
  method Round(re: string, buf: array<char>, m: nat, data: string) returns (text: string, left: nat)
    requires buf.Length == BUFSIZE && m + |data| < BUFSIZE
    modifies buf
    ensures left < BUFSIZE && Pending(buf[..left])
    ensures forall rest :: Grepped(re, old(buf[..m]) + data + rest) == text + Grepped(re, buf[..left] + rest)
  {
    hide Grepped, Pending;
    ghost var all := buf[..m] + data;
    Fill(buf, m, data);
    assert buf[..m + |data|] == all;
    buf[m + |data|] := NUL;
    assert buf[..m + |data|] == all;
    var p;
    text, p := Lines(re, buf, m + |data|);
    ghost var pending := buf[p..m + |data|];
    Shift(buf, p, m + |data|);
    left := m + |data| - p;
    assert buf[..left] == pending;
  }

  lemma CutAt(before: string, input: string, pos: nat, n: nat)
    requires pos + n <= |input|
    ensures before + input[pos..] == before + input[pos..pos + n] + input[pos + n..]
  {
    assert input[pos..] == input[pos..pos + n] + input[pos + n..];
  }

  /** grep: what is printed does not depend on how reads cut the input up. */
  method Grep(re: string, input: string, cuts: seq<nat>) returns (out: string)
    ensures out == Grepped(re, input)
  {
    hide Grepped;
    var buf := new char[BUFSIZE](_ => NUL);
    var m, pos, k := 0, 0, 0;
    out := "";
    assert buf[..0] + input[0..] == input;
    while true
      invariant 0 <= pos <= |input| && 0 <= m < BUFSIZE && Pending(buf[..m])
      invariant out + Grepped(re, buf[..m] + input[pos..]) == Grepped(re, input)
      decreases |input| - pos
    {
      var n := ReadSize(if k < |cuts| then cuts[k] else BUFSIZE, BUFSIZE - m - 1, |input| - pos);
      k := k + 1;
      if n == 0 { break; }
      ghost var before := buf[..m];
      CutAt(before, input, pos, n);
      var text;
      text, m := Round(re, buf, m, input[pos..pos + n]);
      pos := pos + n;
      out := out + text;
    }
    ghost var s := buf[..m] + input[pos..];
    assert s[..m] == buf[..m];
    NoLine(re, s, m);
  }
}
