/** The regular expression matcher of user/grep.c against the language that an expression denotes.
    Strings are without their terminating NUL. */
module GrepMatch {
  /** What an expression is made of: one character, any number of one, or the end of the text. A
      star makes the character before it a Star, whatever that is; a `$` is End only at the end; a
      `*` at the start, and a `^` or `$` elsewhere, stand for themselves. */
  datatype Token = One(c: char) | Star(c: char) | End

  function Tokens(re: string): (ts: seq<Token>) {
    if re == "" then []
    else if |re| > 1 && re[1] == '*' then [Star(re[0])] + Tokens(re[2..])
    else if re == "$" then [End]
    else [One(re[0])] + Tokens(re[1..])
  }

  predicate Fits(c: char, x: char) {
    c == '.' || c == x
  }

  /** The words that one token stands for. */
  predicate Denotes(t: Token, w: string) {
    match t
    case One(c) => |w| == 1 && Fits(c, w[0])
    case Star(c) => forall i :: 0 <= i < |w| ==> Fits(c, w[i])
    case End => w == ""
  }

  predicate AllDenote(ts: seq<Token>, ws: seq<string>) {
    |ws| == |ts| && forall i :: 0 <= i < |ts| ==> Denotes(ts[i], ws[i])
  }

  function Flat(ws: seq<string>): (s: string) {
    if ws == [] then "" else ws[0] + Flat(ws[1..])
  }

  /** `text` begins with a string in the language of `ts`, and is that string if `ts` asks for the end. */
  ghost predicate BeginsWith(ts: seq<Token>, text: string, ws: seq<string>) {
    AllDenote(ts, ws) && Flat(ws) <= text && (End in ts ==> Flat(ws) == text)
  }

  ghost predicate Begins(ts: seq<Token>, text: string) {
    exists ws :: BeginsWith(ts, text, ws)
  }

  /** What grep promises of an expression and a line. */
  ghost predicate Matches(re: string, text: string) {
    if re != "" && re[0] == '^' then Begins(Tokens(re[1..]), text)
    else exists i :: 0 <= i <= |text| && Begins(Tokens(re), text[i..])
  }

  // ---- the language, token by token ----

  lemma BeginsEmpty(text: string)
    ensures Begins([], text)
  {
    assert BeginsWith([], text, []);
  }

  lemma BeginsEnd(text: string)
    ensures Begins([End], text) <==> text == ""
  {
    if text == "" {
      assert Flat([""]) == "" + Flat([]);
      assert BeginsWith([End], text, [""]);
    }
    if Begins([End], text) {
      var ws :| BeginsWith([End], text, ws);
      assert Denotes([End][0], ws[0]);
      assert ws == [""];
      assert Flat(ws) == "" + Flat([]);
    }
  }

  /** A first token that denotes `w`, before the rest. */
  lemma BeginsCons(t: Token, ts: seq<Token>, w: string, text: string)
    requires Denotes(t, w) && !t.End? && w <= text && Begins(ts, text[|w|..])
    ensures Begins([t] + ts, text)
  {
    var ws :| BeginsWith(ts, text[|w|..], ws);
    var all := [w] + ws;
    assert all[1..] == ws;
    assert Flat(all) == w + Flat(ws);
    assert text == w + text[|w|..];
    assert BeginsWith([t] + ts, text, all);
  }

  /** And the other way round: the first word and what is left. */
  lemma BeginsUncons(t: Token, ts: seq<Token>, text: string) returns (w: string)
    requires !t.End? && Begins([t] + ts, text)
    ensures Denotes(t, w) && w <= text && Begins(ts, text[|w|..])
  {
    var all :| BeginsWith([t] + ts, text, all);
    w := all[0];
    var ws := all[1..];
    assert Denotes(([t] + ts)[0], all[0]);
    forall i | 0 <= i < |ts|
      ensures Denotes(ts[i], ws[i])
    {
      assert Denotes(([t] + ts)[i + 1], all[i + 1]);
    }
    assert Flat(all) == w + Flat(ws);
    assert End in ts ==> ([t] + ts)[1..] == ts;
    assert BeginsWith(ts, text[|w|..], ws);
  }

  lemma BeginsOne(c: char, ts: seq<Token>, text: string)
    ensures Begins([One(c)] + ts, text) <==> text != "" && Fits(c, text[0]) && Begins(ts, text[1..])
  {
    if text != "" && Fits(c, text[0]) && Begins(ts, text[1..]) {
      BeginsCons(One(c), ts, text[..1], text);
    }
    if Begins([One(c)] + ts, text) {
      var w := BeginsUncons(One(c), ts, text);
    }
  }

  /** The first `k` characters fit, and the rest of the expression takes over there. */
  ghost predicate StarTo(c: char, ts: seq<Token>, text: string, k: nat) {
    k <= |text| && Denotes(Star(c), text[..k]) && Begins(ts, text[k..])
  }

  lemma BeginsStar(c: char, ts: seq<Token>, text: string)
    ensures Begins([Star(c)] + ts, text) <==> exists k :: StarTo(c, ts, text, k)
  {
    if k: nat :| StarTo(c, ts, text, k) {
      BeginsCons(Star(c), ts, text[..k], text);
    }
    if Begins([Star(c)] + ts, text) {
      var w := BeginsUncons(Star(c), ts, text);
      assert w == text[..|w|];
      assert StarTo(c, ts, text, |w|);
    }
  }

  // ---- the matcher ----

  method MatchHere(re: string, text: string) returns (r: bool)
    ensures r <==> Begins(Tokens(re), text)
    decreases |re|, 0
  {
    hide Begins;
    if re == "" {
      BeginsEmpty(text);
      return true;
    }
    if |re| > 1 && re[1] == '*' {
      r := MatchStar(re[0], re[2..], text);
      return;
    }
    if re == "$" {
      BeginsEnd(text);
      return text == "";
    }
    BeginsOne(re[0], Tokens(re[1..]), text);
    if text != "" && (re[0] == '.' || re[0] == text[0]) {
      r := MatchHere(re[1..], text[1..]);
      return;
    }
    r := false;
  }

  method MatchStar(c: char, re: string, text: string) returns (r: bool)
    ensures r <==> Begins([Star(c)] + Tokens(re), text)
    decreases |re|, 1
  {
    hide Begins;
    ghost var ts := Tokens(re);
    BeginsStar(c, ts, text);
    var i := 0;
    while true
      invariant 0 <= i <= |text| && Denotes(Star(c), text[..i])
      invariant forall k :: 0 <= k < i ==> !StarTo(c, ts, text, k)
      decreases |text| - i
    {
      var here := MatchHere(re, text[i..]);
      if here {
        assert StarTo(c, ts, text, i);
        return true;
      }
      assert !StarTo(c, ts, text, i);
      if i == |text| || !(text[i] == c || c == '.') { break; }
      i := i + 1;
    }
    forall k: nat
      ensures !StarTo(c, ts, text, k)
    {
      if i < k <= |text| { assert text[..k][i] == text[i]; }
    }
    r := false;
  }

  method Match(re: string, text: string) returns (r: bool)
    ensures r <==> Matches(re, text)
  {
    hide Begins, Tokens;
    if re != "" && re[0] == '^' {
      r := MatchHere(re[1..], text);
      return;
    }
    var i := 0;
    while true
      invariant 0 <= i <= |text| && forall k :: 0 <= k < i ==> !Begins(Tokens(re), text[k..])
      decreases |text| - i
    {
      r := MatchHere(re, text[i..]);
      if r { return; }
      if i == |text| { return; }
      i := i + 1;
    }
  }
}
