/**
 * String helpers standing for the JavaScript string methods the components use:
 * `trim`, `split` on one character, `join`, `toLowerCase` and `includes`.
 * Whitespace and case folding are restricted to ASCII.
 */
module Strings {

  /** ASCII whitespace as removed by `String.prototype.trim`. */
  predicate IsSpace(c: char) {
    c == ' ' || c == '\t' || c == '\n' || c == '\r' || c as int == 0x0B || c as int == 0x0C
  }

  predicate IsBlank(s: string) {
    forall i :: 0 <= i < |s| ==> IsSpace(s[i])
  }

  /** Neither starts nor ends with whitespace. */
  predicate IsTrimmed(s: string) {
    s == [] || (!IsSpace(s[0]) && !IsSpace(s[|s| - 1]))
  }

  /** `s.trim()`: drops leading and trailing whitespace and nothing else. */
  function Trim(s: string): (r: string)
    ensures IsTrimmed(r)
    ensures exists i :: OccursAt(s, r, i)
    ensures r == [] <==> IsBlank(s)
    decreases |s|
  {
    if |s| > 0 && IsSpace(s[0]) then
      var r := Trim(s[1..]);
      var i :| OccursAt(s[1..], r, i);
      assert OccursAt(s, r, i + 1);
      r
    else if |s| > 0 && IsSpace(s[|s| - 1]) then
      var r := Trim(s[..|s| - 1]);
      var i :| OccursAt(s[..|s| - 1], r, i);
      assert OccursAt(s, r, i);
      r
    else
      assert OccursAt(s, s, 0);
      s
  }

  /** `r` occurs in `s` at `i`, with only whitespace before and after it. */
  predicate BlankAround(s: string, r: string, i: int) {
    && OccursAt(s, r, i)
    && (forall k :: 0 <= k < i ==> IsSpace(s[k]))
    && (forall k :: i + |r| <= k < |s| ==> IsSpace(s[k]))
  }

  lemma BlankAroundCons(s: string, r: string, i: int)
    requires |s| > 0 && IsSpace(s[0]) && BlankAround(s[1..], r, i)
    ensures BlankAround(s, r, i + 1)
  {
    assert forall k :: 1 <= k < |s| ==> s[k] == s[1..][k - 1];
    assert s[i + 1..i + 1 + |r|] == s[1..][i..i + |r|];
  }

  lemma BlankAroundSnoc(s: string, r: string, i: int)
    requires |s| > 0 && IsSpace(s[|s| - 1]) && BlankAround(s[..|s| - 1], r, i)
    ensures BlankAround(s, r, i)
  {
    assert forall k :: 0 <= k < |s| - 1 ==> s[k] == s[..|s| - 1][k];
    assert s[i..i + |r|] == s[..|s| - 1][i..i + |r|];
  }

  /** What `trim` drops is whitespace only: the result sits between a blank prefix and a blank suffix. */
  lemma {:induction false} TrimDropsOnlyBlanks(s: string)
    ensures exists i :: BlankAround(s, Trim(s), i)
    decreases |s|
  {
    if |s| > 0 && IsSpace(s[0]) {
      assert Trim(s) == Trim(s[1..]);
      TrimDropsOnlyBlanks(s[1..]);
      var i :| BlankAround(s[1..], Trim(s[1..]), i);
      BlankAroundCons(s, Trim(s[1..]), i);
    } else if |s| > 0 && IsSpace(s[|s| - 1]) {
      assert Trim(s) == Trim(s[..|s| - 1]);
      TrimDropsOnlyBlanks(s[..|s| - 1]);
      var i :| BlankAround(s[..|s| - 1], Trim(s[..|s| - 1]), i);
      BlankAroundSnoc(s, Trim(s[..|s| - 1]), i);
    } else {
      assert Trim(s) == s;
      assert BlankAround(s, s, 0);
    }
  }

  lemma TrimOfTrimmed(s: string)
    requires IsTrimmed(s)
    ensures Trim(s) == s
  {
  }

  /** `s.split(d)`: the pieces between occurrences of `d`; never empty. */
  function Split(s: string, d: char): (r: seq<string>)
    ensures |r| >= 1
    ensures forall p :: p in r ==> d !in p
    decreases |s|
  {
    if s == [] then [""]
    else if s[0] == d then [""] + Split(s[1..], d)
    else
      var rest := Split(s[1..], d);
      [[s[0]] + rest[0]] + rest[1..]
  }

  /** Joining the pieces of a split gives back the string. */
  lemma {:induction false} JoinSplit(s: string, d: char)
    ensures Join(Split(s, d), d) == s
    decreases |s|
  {
    if s != [] {
      var rest := Split(s[1..], d);
      JoinSplit(s[1..], d);
      if s[0] == d {
        assert [d] + Join(rest, d) == s;
      } else {
        var r := [[s[0]] + rest[0]] + rest[1..];
        assert Join(r, d) == [s[0]] + Join(rest, d);
      }
    }
  }

  /** `xs.join(d)`: the pieces in order, the first one leading, with `d` after it when more follow. */
  function Join(xs: seq<string>, d: char): (r: string)
    ensures xs != [] ==> xs[0] <= r
    ensures |xs| >= 2 ==> xs[0] + [d] <= r
    decreases |xs|
  {
    if |xs| == 0 then ""
    else if |xs| == 1 then xs[0]
    else xs[0] + [d] + Join(xs[1..], d)
  }

  lemma {:induction false} SplitNoDelimiter(s: string, d: char)
    requires d !in s
    ensures Split(s, d) == [s]
    decreases |s|
  {
    if s != [] {
      SplitNoDelimiter(s[1..], d);
      assert [s[0]] + s[1..] == s;
    }
  }

  lemma {:induction false} SplitPieceThenDelimiter(x: string, d: char, rest: string)
    requires d !in x
    ensures Split(x + [d] + rest, d) == [x] + Split(rest, d)
    decreases |x|
  {
    if x == [] {
      assert x + [d] + rest == [d] + rest;
      assert ([d] + rest)[1..] == rest;
    } else {
      assert (x + [d] + rest)[1..] == x[1..] + [d] + rest;
      SplitPieceThenDelimiter(x[1..], d, rest);
      assert [x[0]] + x[1..] == x;
    }
  }

  /** Splitting inverts joining when no piece holds the delimiter. */
  lemma {:induction false} SplitJoin(xs: seq<string>, d: char)
    requires |xs| >= 1
    requires forall x :: x in xs ==> d !in x
    ensures Split(Join(xs, d), d) == xs
    decreases |xs|
  {
    if |xs| == 1 {
      SplitNoDelimiter(xs[0], d);
    } else {
      SplitPieceThenDelimiter(xs[0], d, Join(xs[1..], d));
      SplitJoin(xs[1..], d);
      assert [xs[0]] + xs[1..] == xs;
    }
  }

  lemma {:induction false} JoinHasNoOtherDelimiter(xs: seq<string>, d: char, e: char)
    requires e != d
    requires forall x :: x in xs ==> e !in x
    ensures e !in Join(xs, d)
    decreases |xs|
  {
    if |xs| > 1 {
      JoinHasNoOtherDelimiter(xs[1..], d, e);
    }
  }

  /** A join of two or more pieces contains the delimiter, so it is never blank when the delimiter is not whitespace. */
  lemma JoinOfManyNotBlank(xs: seq<string>, d: char)
    requires |xs| >= 2 && !IsSpace(d)
    ensures !IsBlank(Join(xs, d))
  {
    assert Join(xs, d)[|xs[0]|] == d;
  }

  function LowerChar(c: char): char {
    if 'A' <= c <= 'Z' then (c as int + 32) as char else c
  }

  /** `s.toLowerCase()` restricted to ASCII letters. */
  function Lower(s: string): (r: string)
    ensures |r| == |s|
    ensures forall i :: 0 <= i < |s| ==> r[i] == LowerChar(s[i])
  {
    seq(|s|, i requires 0 <= i < |s| => LowerChar(s[i]))
  }

  /** `t` occurs in `s` starting at index `i`. */
  predicate OccursAt(s: string, t: string, i: int) {
    0 <= i <= |s| - |t| && s[i..i + |t|] == t
  }

  /** `s.includes(t)`: the empty string is in every string, and no longer string is in a shorter one. */
  predicate Contains(s: string, t: string)
    ensures t == [] ==> Contains(s, t)
    ensures Contains(s, t) ==> |t| <= |s|
    decreases |s|
  {
    t <= s || (|s| > 0 && Contains(s[1..], t))
  }

  /** An occurrence past the first character is an occurrence in the tail, one place earlier. */
  lemma OccursInTail(s: string, t: string, i: int)
    requires |s| > 0 && 1 <= i
    ensures OccursAt(s, t, i) <==> OccursAt(s[1..], t, i - 1)
  {
    if i <= |s| - |t| {
      assert s[i..i + |t|] == s[1..][i - 1..i - 1 + |t|];
    }
  }

  /** Contains means that `t` occurs at some position of `s`. */
  lemma {:induction false} ContainsAt(s: string, t: string)
    ensures Contains(s, t) <==> exists i :: OccursAt(s, t, i)
    decreases |s|
  {
    if t <= s {
      assert OccursAt(s, t, 0);
    } else if |s| > 0 {
      ContainsAt(s[1..], t);
      if exists i :: OccursAt(s, t, i) {
        var i :| OccursAt(s, t, i);
        assert i != 0;
        OccursInTail(s, t, i);
      }
      if Contains(s[1..], t) {
        var i :| OccursAt(s[1..], t, i);
        OccursInTail(s, t, i + 1);
      }
    } else {
      assert forall i :: !OccursAt(s, t, i);
    }
  }

}
