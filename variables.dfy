/**
 * The template variable engine: the global regular expression `\{\{(\w+)\}\}`
 * written out as an explicit left-to-right scanner. `Extract` lists the names of
 * the tokens it matches (duplicates kept) and `Render` substitutes them.
 */
module TemplateVariables {

  /** `\w` without the Unicode flag: `[A-Za-z0-9_]`. */
  predicate IsWordChar(c: char) {
    ('a' <= c <= 'z') || ('A' <= c <= 'Z') || ('0' <= c <= '9') || c == '_'
  }

  /** A variable name: what `(\w+)` can capture. */
  predicate IsName(n: string) {
    |n| > 0 && forall i :: 0 <= i < |n| ==> IsWordChar(n[i])
  }

  /** The token text `{{n}}`. */
  function Token(n: string): string {
    "{{" + n + "}}"
  }

  /** Length of the longest run of word characters at the start of `s`. */
  function WordRun(s: string): (k: nat)
    ensures k <= |s|
    ensures forall i :: 0 <= i < k ==> IsWordChar(s[i])
    ensures k < |s| ==> !IsWordChar(s[k])
    decreases |s|
  {
    if |s| > 0 && IsWordChar(s[0]) then 1 + WordRun(s[1..]) else 0
  }

  /**
   * The expression matches at the start of `s`. Since `}` is not a word
   * character, backtracking `\w+` to a shorter run can never reach `}}`, so
   * only the longest run needs to be tried.
   */
  predicate StartsWithToken(s: string) {
    && |s| >= 2 && s[0] == '{' && s[1] == '{'
    && var k := WordRun(s[2..]);
       0 < k && k + 4 <= |s| && s[k + 2] == '}' && s[k + 3] == '}'
  }

  /** The captured group of the match at the start of `s`. */
  function TokenName(s: string): (n: string)
    requires StartsWithToken(s)
    ensures IsName(n) && Token(n) <= s
  {
    s[2..2 + WordRun(s[2..])]
  }

  lemma {:induction false} WordRunOfName(n: string, rest: string)
    requires forall i :: 0 <= i < |n| ==> IsWordChar(n[i])
    requires rest == [] || !IsWordChar(rest[0])
    ensures WordRun(n + rest) == |n|
    decreases |n|
  {
    if n != [] {
      assert (n + rest)[1..] == n[1..] + rest;
      WordRunOfName(n[1..], rest);
    }
  }

  /** The match at the start of `s` is exactly the well-formed token `s` begins with. */
  lemma TokenRecognised(n: string, rest: string)
    requires IsName(n)
    ensures StartsWithToken(Token(n) + rest)
    ensures TokenName(Token(n) + rest) == n
  {
    var s := Token(n) + rest;
    assert s[2..] == n + ("}}" + rest);
    WordRunOfName(n, "}}" + rest);
    assert s[2..2 + |n|] == n;
  }

  /** A piece of scanned text: a literal character, or a matched token. */
  datatype Piece = Literal(c: char) | Var(name: string)

  /** Global, non-overlapping, left-to-right matching: after a match, scanning resumes behind it. */
  function Scan(s: string): (ps: seq<Piece>)
    ensures forall i :: 0 <= i < |ps| && ps[i].Var? ==> IsName(ps[i].name)
    decreases |s|
  {
    if s == [] then []
    else if StartsWithToken(s) then
      var n := TokenName(s);
      [Var(n)] + Scan(s[|n| + 4..])
    else
      [Literal(s[0])] + Scan(s[1..])
  }

  function PieceText(p: Piece): string {
    match p
    case Literal(c) => [c]
    case Var(n) => Token(n)
  }

  /** The text the pieces were scanned from. */
  function Unscan(ps: seq<Piece>): string {
    if ps == [] then "" else PieceText(ps[0]) + Unscan(ps[1..])
  }

  function Names(ps: seq<Piece>): (r: seq<string>)
    ensures forall i :: 0 <= i < |r| ==> Var(r[i]) in ps
  {
    if ps == [] then []
    else
      var rest := Names(ps[1..]);
      assert forall i :: 0 <= i < |rest| ==> Var(rest[i]) in ps by {
        forall i | 0 <= i < |rest| ensures Var(rest[i]) in ps {
          assert Var(rest[i]) in ps[1..];
        }
      }
      if ps[0].Var? then [ps[0].name] + rest else rest
  }

  /** `text.match(/\{\{(\w+)\}\}/g)` with each match stripped of its braces; `[]` when nothing matches. */
  function Extract(s: string): (r: seq<string>)
    ensures forall i :: 0 <= i < |r| ==> IsName(r[i])
  {
    Names(Scan(s))
  }

  /** The replacement for one token: a bound, non-empty value, or the token itself. */
  function Substitute(n: string, bindings: map<string, string>): string {
    if n in bindings && bindings[n] != "" then bindings[n] else Token(n)
  }

  function Fill(ps: seq<Piece>, bindings: map<string, string>): string {
    if ps == [] then ""
    else
      var head := match ps[0]
        case Literal(c) => [c]
        case Var(n) => Substitute(n, bindings);
      head + Fill(ps[1..], bindings)
  }

  /**
   * `text.replace(/\{\{(\w+)\}\}/g, ...)` with the replacement `bindings[v] || '{{v}}'`:
   * text none of whose tokens has a non-empty binding comes back unchanged.
   */
  function Render(s: string, bindings: map<string, string>): (r: string)
    ensures (forall n :: n in Extract(s) ==> n !in bindings || bindings[n] == "") ==> r == s
  {
    FillScanUnbound(s, bindings);
    Fill(Scan(s), bindings)
  }

  // ---------------------------------------------------------------------------
  // Properties of the scanner

  /** A match at the start is one token piece, and scanning resumes right after it. */
  lemma ScanTokenFirst(s: string)
    requires StartsWithToken(s)
    ensures var n := TokenName(s);
      && s == Token(n) + s[|n| + 4..]
      && Scan(s) == [Var(n)] + Scan(s[|n| + 4..])
  {
  }

  /** Without a match at the start, the first character is one literal piece. */
  lemma ScanLiteralFirst(s: string)
    requires s != [] && !StartsWithToken(s)
    ensures s == [s[0]] + s[1..]
    ensures Scan(s) == [Literal(s[0])] + Scan(s[1..])
  {
  }

  lemma UnscanCons(p: Piece, ps: seq<Piece>)
    ensures Unscan([p] + ps) == PieceText(p) + Unscan(ps)
  {
    assert ([p] + ps)[1..] == ps;
  }

  /** Scanning loses nothing: the pieces spell out the input. */
  lemma {:induction false} ScanLossless(s: string)
    ensures Unscan(Scan(s)) == s
    decreases |s|
  {
    if s == [] {
    } else if StartsWithToken(s) {
      var n := TokenName(s);
      ScanTokenFirst(s);
      ScanLossless(s[|n| + 4..]);
      UnscanCons(Var(n), Scan(s[|n| + 4..]));
    } else {
      ScanLiteralFirst(s);
      ScanLossless(s[1..]);
      UnscanCons(Literal(s[0]), Scan(s[1..]));
    }
  }

  /** Some position of `s` starts a match. */
  predicate HasToken(s: string) {
    exists i :: 0 <= i < |s| && StartsWithToken(s[i..])
  }

  /** Nothing is extracted exactly when no well-formed token occurs anywhere in the text. */
  lemma {:induction false} ExtractEmptyIff(s: string)
    ensures Extract(s) == [] <==> !HasToken(s)
    decreases |s|
  {
    if s == [] {
    } else if StartsWithToken(s) {
      var n := TokenName(s);
      assert Scan(s)[0] == Var(n);
      assert s[0..] == s;
    } else {
      var ps := Scan(s);
      assert ps[1..] == Scan(s[1..]);
      assert Extract(s) == Extract(s[1..]);
      ExtractEmptyIff(s[1..]);
      if HasToken(s) {
        var i :| 0 <= i < |s| && StartsWithToken(s[i..]);
        assert i != 0 by { assert s[0..] == s; }
        assert s[1..][i - 1..] == s[i..];
      }
      if HasToken(s[1..]) {
        var i :| 0 <= i < |s| - 1 && StartsWithToken(s[1..][i..]);
        assert s[1..][i..] == s[i + 1..];
      }
    }
  }

  /** A leading token is reported first, and scanning resumes right after it. */
  lemma ExtractTokenFirst(n: string, rest: string)
    requires IsName(n)
    ensures Extract(Token(n) + rest) == [n] + Extract(rest)
  {
    var s := Token(n) + rest;
    TokenRecognised(n, rest);
    assert s[|n| + 4..] == rest;
    assert Scan(s)[1..] == Scan(rest);
  }

  /** Text that does not start with a match contributes no name at its first character. */
  lemma ExtractNoTokenFirst(s: string)
    requires s != [] && !StartsWithToken(s)
    ensures Extract(s) == Extract(s[1..])
  {
    ScanLiteralFirst(s);
    assert Scan(s)[1..] == Scan(s[1..]);
  }

  /**
   * Where no match starts, the first character is copied unchanged and
   * replacing goes on from the next one; this covers a `{` that opens no token.
   */
  lemma RenderNoTokenFirst(s: string, bindings: map<string, string>)
    requires s != [] && !StartsWithToken(s)
    ensures Render(s, bindings) == [s[0]] + Render(s[1..], bindings)
  {
    ScanLiteralFirst(s);
    assert Scan(s)[1..] == Scan(s[1..]);
  }

  /** A leading character other than `{` is copied unchanged. */
  lemma RenderLiteralFirst(c: char, rest: string, bindings: map<string, string>)
    requires c != '{'
    ensures Render([c] + rest, bindings) == [c] + Render(rest, bindings)
  {
    var s := [c] + rest;
    assert s[1..] == rest;
    RenderNoTokenFirst(s, bindings);
  }

  /** A leading token is replaced by its binding, or kept when unbound. */
  lemma RenderTokenFirst(n: string, rest: string, bindings: map<string, string>)
    requires IsName(n)
    ensures Render(Token(n) + rest, bindings) == Substitute(n, bindings) + Render(rest, bindings)
  {
    var s := Token(n) + rest;
    TokenRecognised(n, rest);
    assert s[|n| + 4..] == rest;
    assert Scan(s)[1..] == Scan(rest);
  }

  lemma {:induction false} FillUnbound(ps: seq<Piece>, bindings: map<string, string>)
    requires forall i :: 0 <= i < |ps| && ps[i].Var? ==> Substitute(ps[i].name, bindings) == Token(ps[i].name)
    ensures Fill(ps, bindings) == Unscan(ps)
    decreases |ps|
  {
    if ps != [] {
      FillUnbound(ps[1..], bindings);
    }
  }

  lemma {:induction false} NamesComplete(ps: seq<Piece>, n: string)
    requires Var(n) in ps
    ensures n in Names(ps)
    decreases |ps|
  {
    if ps[0] != Var(n) {
      NamesComplete(ps[1..], n);
    }
  }

  /** Filling the pieces of a text none of whose tokens is bound gives the text back. */
  lemma FillScanUnbound(s: string, bindings: map<string, string>)
    ensures (forall n :: n in Extract(s) ==> n !in bindings || bindings[n] == "") ==> Fill(Scan(s), bindings) == s
  {
    if forall n :: n in Extract(s) ==> n !in bindings || bindings[n] == "" {
      var ps := Scan(s);
      forall i | 0 <= i < |ps| && ps[i].Var? ensures Substitute(ps[i].name, bindings) == Token(ps[i].name) {
        NamesComplete(ps, ps[i].name);
      }
      FillUnbound(ps, bindings);
      ScanLossless(s);
    }
  }

  /** With no bindings at all the output equals the input. */
  lemma RenderWithoutBindings(s: string)
    ensures Render(s, map[]) == s
  {
  }

  /** A malformed token such as `{{a b}}` is copied unchanged, whatever the bindings. */
  lemma RenderMalformedVerbatim(a: string, b: string, bindings: map<string, string>)
    requires IsName(a) && IsName(b)
    ensures Render("{{" + a + " " + b + "}}", bindings) == "{{" + a + " " + b + "}}"
  {
    MalformedNotReported(a, b);
  }

  /** A third opening brace is copied, and the token behind it is replaced: `{{{n}}}` gives `{` + value + `}`. */
  lemma RenderExtraBrace(n: string, bindings: map<string, string>)
    requires IsName(n)
    ensures Render("{" + Token(n) + "}", bindings) == "{" + Substitute(n, bindings) + "}"
  {
    var t := Token(n) + "}";
    var s := ['{'] + t;
    assert s == "{" + Token(n) + "}";
    assert s[1..] == t;
    assert s[2..][0] == '{';
    assert WordRun(s[2..]) == 0;
    RenderNoTokenFirst(s, bindings);
    RenderTokenFirst(n, "}", bindings);
    assert Render("}", bindings) == "}" by {
      RenderLiteralFirst('}', "", bindings);
      assert ['}'] + "" == "}";
    }
    assert "{" + Substitute(n, bindings) + "}" == ['{'] + (Substitute(n, bindings) + "}");
  }

  /** Without an opening `{{` nothing is reported. */
  lemma ExtractNeedsOpening(s: string)
    requires forall i :: 0 <= i < |s| - 1 ==> !(s[i] == '{' && s[i + 1] == '{')
    ensures Extract(s) == []
  {
    ExtractEmptyIff(s);
    forall i | 0 <= i < |s| ensures !StartsWithToken(s[i..]) {
      assert i + 1 < |s| ==> s[i..][1] == s[i + 1];
    }
  }

  /** Text without an opening brace has no token. */
  lemma NoBraceNoToken(s: string)
    requires '{' !in s
    ensures Extract(s) == []
  {
    ExtractNeedsOpening(s);
  }

  /** A space inside the braces spoils a token: `{{a b}}` reports nothing. */
  lemma MalformedNotReported(a: string, b: string)
    requires IsName(a) && IsName(b)
    ensures Extract("{{" + a + " " + b + "}}") == []
  {
    var tail := " " + b + "}}";
    var t2 := a + tail;
    assert '{' !in a && '{' !in b;
    assert '{' !in t2;
    NoBraceNoToken(t2);
    var t1 := "{" + t2;
    assert t1[1..] == t2;
    assert t1[1] == a[0];
    ExtractNoTokenFirst(t1);
    var s := "{" + t1;
    assert s[1..] == t1;
    assert s[2..] == a + tail;
    WordRunOfName(a, tail);
    assert s[|a| + 2] == ' ';
    ExtractNoTokenFirst(s);
    assert s == "{{" + a + " " + b + "}}";
  }

  /** Single braces are not a token: `{a}` reports nothing. */
  lemma SingleBracesNotReported(a: string)
    requires IsName(a)
    ensures Extract("{" + a + "}") == []
  {
    var s := "{" + a + "}";
    forall i | 0 <= i < |s| - 1 ensures !(s[i] == '{' && s[i + 1] == '{') {
      if i < |a| {
        assert s[i + 1] == a[i];
      }
    }
    ExtractNeedsOpening(s);
  }

  // ---------------------------------------------------------------------------
  // Worked examples

  /** Duplicates are kept: `{{a}}{{b}}{{a}}` yields `a`, `b`, `a`. */
  lemma ExtractKeepsDuplicates(a: string, b: string)
    requires IsName(a) && IsName(b)
    ensures Extract(Token(a) + Token(b) + Token(a)) == [a, b, a]
  {
    ExtractTokenFirst(a, "");
    assert Token(a) + "" == Token(a);
    ExtractTokenFirst(b, Token(a));
    ExtractTokenFirst(a, Token(b) + Token(a));
    assert Token(a) + (Token(b) + Token(a)) == Token(a) + Token(b) + Token(a);
  }

  /** An unbound token after a comma and a space is copied unchanged. */
  lemma RenderUnboundTail(u: string, b: map<string, string>)
    requires IsName(u) && u !in b
    ensures Render(", " + Token(u), b) == ", " + Token(u)
  {
    RenderTokenFirst(u, "", b);
    assert Token(u) + "" == Token(u);
    RenderTwoLiterals(',', ' ', Token(u), b);
  }

  /** Only bound tokens are replaced: `{{n}}, {{u}}` with `n` bound to `v` gives `v, {{u}}`. */
  lemma RenderLeavesUnboundVerbatim(n: string, u: string, v: string)
    requires IsName(n) && IsName(u) && n != u && v != ""
    ensures Render(Token(n) + ", " + Token(u), map[n := v]) == v + ", " + Token(u)
  {
    var b := map[n := v];
    RenderUnboundTail(u, b);
    RenderTokenFirst(n, ", " + Token(u), b);
    assert Token(n) + (", " + Token(u)) == Token(n) + ", " + Token(u);
    assert v + (", " + Token(u)) == v + ", " + Token(u);
  }

  lemma RenderTwoLiterals(c: char, d: char, rest: string, b: map<string, string>)
    requires c != '{' && d != '{'
    ensures Render([c, d] + rest, b) == [c, d] + Render(rest, b)
  {
    RenderLiteralFirst(d, rest, b);
    RenderLiteralFirst(c, [d] + rest, b);
    assert [c] + ([d] + rest) == [c, d] + rest;
  }
}
