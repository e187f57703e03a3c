/** The pattern matcher of bin/grep/grep.c:72-106, and what its patterns mean. */
module Grep {

  /** The parts of a pattern: a character, any character, a repetition of either, the end of the text. */
  datatype Part = Lit(c: char) | Any | Star(part: Part) | End

  function Single(c: char): Part { if c == '.' then Any else Lit(c) }

  /** How a pattern reads: a star belongs to what precedes it, and `$` is special only as the last character. */
  function Parts(re: string): seq<Part>
  {
    if re == "" then []
    else if |re| > 1 && re[1] == '*' then [Star(Single(re[0]))] + Parts(re[2..])
    else if re == "$" then [End]
    else [Single(re[0])] + Parts(re[1..])
  }

  // ---------- writing patterns ----------

  function Spell(ps: seq<Part>): string
  {
    if ps == [] then "" else SpellOne(ps[0]) + Spell(ps[1..])
  }

  function SpellOne(p: Part): string
  {
    match p
    case Lit(c) => [c]
    case Any => "."
    case Star(q) => SpellOne(q) + "*"
    case End => "$"
  }

  /** A character that stands for itself, or any character. */
  predicate Simple(p: Part) { p.Any? || (p.Lit? && p.c != '.') }

  /** Parts that can be told apart: no single character stands before a star, and `$` ends a pattern as End only. */
  predicate Clear(ps: seq<Part>)
  {
    ps == [] ||
    (&& Clear(ps[1..])
     && match ps[0]
        case Star(q) => Simple(q)
        case End => ps[1..] == []
        case Any => !StarNext(ps[1..])
        case Lit(c) => c != '.' && !StarNext(ps[1..]) && (c == '$' ==> ps[1..] != []))
  }

  predicate StarNext(ps: seq<Part>) { Spell(ps) != "" && Spell(ps)[0] == '*' }

  /** Every pattern is spelled by the parts it reads as, and these can be told apart. */
  lemma {:induction false} SpellParts(re: string)
    ensures Spell(Parts(re)) == re && Clear(Parts(re))
  {
    if re != "" {
      if |re| > 1 && re[1] == '*' {
        SpellParts(re[2..]);
        assert Parts(re)[1..] == Parts(re[2..]);
        assert SpellOne(Parts(re)[0]) == [re[0]] + "*";
        assert re == [re[0]] + "*" + re[2..];
      } else if re == "$" {
        assert Parts(re)[1..] == [];
      } else {
        SpellParts(re[1..]);
        assert Parts(re)[1..] == Parts(re[1..]);
        assert re == [re[0]] + re[1..];
        assert re[0] == '$' ==> Spell(Parts(re[1..])) != "";
      }
    }
  }

  /** And parts that can be told apart are read back: so reading is the only inverse of spelling. */
  lemma {:induction false} PartsSpell(ps: seq<Part>)
    requires Clear(ps)
    ensures Parts(Spell(ps)) == ps
  {
    if ps != [] {
      PartsSpell(ps[1..]);
      var re, rest := Spell(ps), Spell(ps[1..]);
      match ps[0]
      case Star(q) => assert re[2..] == rest;
      case End => assert rest == "";
      case Any => assert re[1..] == rest;
      case Lit(c) =>
        assert re[1..] == rest;
        if c == '$' {
          assert |SpellOne(ps[1..][0])| > 0;
        }
    }
  }

  /** A part for a single character matches this one. */
  predicate Takes(p: Part, c: char) { p.Any? || p == Lit(c) }

  /** One part matches text[i..j]. */
  ghost predicate Means(p: Part, text: string, i: nat, j: nat)
    requires i <= j <= |text|
  {
    match p
    case Lit(_) => j == i + 1 && Takes(p, text[i])
    case Any => j == i + 1
    case Star(q) => forall k :: i <= k < j ==> Takes(q, text[k])
    case End => i == j == |text|
  }

  /** The parts match text[i..j], one after the other. */
  ghost predicate Spans(ps: seq<Part>, text: string, i: nat, j: nat)
    requires i <= j <= |text|
  {
    if ps == [] then i == j
    else exists k: nat :: i <= k <= j && Means(ps[0], text, i, k) && Spans(ps[1..], text, k, j)
  }

  ghost predicate Here(re: string, text: string, i: nat)
    requires i <= |text|
  {
    exists j: nat :: i <= j <= |text| && Spans(Parts(re), text, i, j)
  }

  /** What grep looks for: a match of the pattern anywhere, or at the start if it begins with `^`. */
  ghost predicate Matches(re: string, text: string)
  {
    if re != "" && re[0] == '^' then Here(re[1..], text, 0) else exists i: nat :: i <= |text| && Here(re, text, i)
  }

  lemma SplitFirst(p: Part, re: string, rest: string, text: string, i: nat, k: nat)
    requires Parts(re) == [p] + Parts(rest) && i <= k <= |text| && Means(p, text, i, k) && Here(rest, text, k)
    ensures Here(re, text, i)
  {
    var j: nat :| k <= j <= |text| && Spans(Parts(rest), text, k, j);
    assert Parts(re)[1..] == Parts(rest);
    assert Spans(Parts(re), text, i, j);
  }

  lemma FirstSplit(p: Part, re: string, rest: string, text: string, i: nat) returns (k: nat)
    requires Parts(re) == [p] + Parts(rest) && i <= |text| && Here(re, text, i)
    ensures i <= k <= |text| && Means(p, text, i, k) && Here(rest, text, k)
  {
    var j: nat :| i <= j <= |text| && Spans(Parts(re), text, i, j);
    assert Parts(re)[1..] == Parts(rest);
    k :| i <= k <= j && Means(p, text, i, k) && Spans(Parts(re)[1..], text, k, j);
  }

  /** matchhere. */
  method MatchHere(re: string, text: string, i: nat) returns (r: bool)
    requires i <= |text|
    ensures r <==> Here(re, text, i)
    decreases |re|, 1
  {
    if re == "" {
      assert Spans(Parts(re), text, i, i);
      return true;
    }
    if |re| > 1 && re[1] == '*' {
      r := MatchStar(re[0], re, text, i);
      return;
    }
    if re == "$" {
      EndHere(text, i);
      return i == |text|;
    }
    ghost var p := Single(re[0]);
    if i < |text| && (re[0] == '.' || re[0] == text[i]) {
      r := MatchHere(re[1..], text, i + 1);
      if r {
        SplitFirst(p, re, re[1..], text, i, i + 1);
      } else if Here(re, text, i) {
        var k := FirstSplit(p, re, re[1..], text, i);
      }
      return;
    }
    if Here(re, text, i) {
      var k := FirstSplit(p, re, re[1..], text, i);
    }
    r := false;
  }

  lemma EndHere(text: string, i: nat)
    requires i <= |text|
    ensures Here("$", text, i) <==> i == |text|
  {
    assert Parts("$") == [End] + Parts("");
    if i == |text| {
      assert Spans(Parts(""), text, i, i);
      SplitFirst(End, "$", "", text, i, i);
    } else if Here("$", text, i) {
      var k := FirstSplit(End, "$", "", text, i);
    }
  }

  /** matchstar, for the pattern whose first two characters are `c` and a star. */
  method MatchStar(c: char, re: string, text: string, i: nat) returns (r: bool)
    requires i <= |text| && |re| > 1 && re[1] == '*' && re[0] == c
    ensures r <==> Here(re, text, i)
    decreases |re|, 0
  {
    ghost var p := Star(Single(c));
    var t := i;
    while true
      invariant i <= t <= |text| && Means(p, text, i, t)
      invariant forall k: nat :: i <= k < t ==> !Here(re[2..], text, k)
      decreases |text| - t
    {
      r := MatchHere(re[2..], text, t);
      if r {
        SplitFirst(p, re, re[2..], text, i, t);
        return;
      }
      if t == |text| || (text[t] != c && c != '.') {
        break;
      }
      t := t + 1;
    }
    if Here(re, text, i) {
      var k := FirstSplit(p, re, re[2..], text, i);
      assert false;
    }
    r := false;
  }

  /** match. */
  method Match(re: string, text: string) returns (r: bool)
    ensures r <==> Matches(re, text)
  {
    if re != "" && re[0] == '^' {
      r := MatchHere(re[1..], text, 0);
      return;
    }
    var t := 0;
    while true
      invariant t <= |text| && forall k: nat :: k < t ==> !Here(re, text, k)
      decreases |text| - t
    {
      r := MatchHere(re, text, t);
      if r {
        return;
      }
      if t == |text| {
        return;
      }
      t := t + 1;
    }
  }
}
