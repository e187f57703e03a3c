/** Printing a command tree to a line and parsing the line gives the tree back. */
module ShellRoundTrip {
  import opened ShellGrammar
  import opened ShellWords
  import opened Shell

  predicate LegalWord(w: string) { w != [] && forall i :: 0 <= i < |w| ==> WordChar(w[i]) }

  predicate LegalTok(t: Tok<string>)
  {
    match t
    case Word(w) => LegalWord(w)
    case Sym(c) => Symbol(c) || c == '+'
  }

  predicate Legal(c: Cmd<string>) { Every((w: string) => LegalWord(w), c) && Small(c) }

  function Spell(t: Tok<string>): string
  {
    match t
    case Word(w) => w
    case Sym(c) => if c == '+' then ">>" else [c]
  }

  predicate Blank(g: string) { forall i :: 0 <= i < |g| ==> White(g[i]) }

  /** The tokens, each after white space of any kind and length, or none, and white space at the end. */
  function Render(ts: seq<Tok<string>>, gaps: seq<string>, tail: string): string
    requires |gaps| == |ts|
  {
    if ts == [] then tail else gaps[0] + Spell(ts[0]) + Render(ts[1..], gaps[1..], tail)
  }

  predicate AllBlank(gaps: seq<string>, tail: string)
  {
    Blank(tail) && forall i :: 0 <= i < |gaps| ==> Blank(gaps[i])
  }

  /** Without white space between them, two tokens would be read as one. */
  predicate Joins(t: Tok<string>, u: Tok<string>)
  {
    (t.Word? && u.Word?) || (t == Sym('>') && (u == Sym('>') || u == Sym('+')))
  }

  /** Tokens that would join are kept apart; between all others there may be no white space. */
  predicate Apart(ts: seq<Tok<string>>, gaps: seq<string>)
    requires |gaps| == |ts|
  {
    forall i :: 0 <= i < |ts| - 1 && Joins(ts[i], ts[i + 1]) ==> gaps[i + 1] != []
  }

  lemma {:induction false} SkipTo(s: string, i: nat, j: nat)
    requires i <= j <= |s| && (forall k :: i <= k < j ==> White(s[k])) && (j < |s| ==> !White(s[j]))
    ensures Skip(s, i) == j
    decreases j - i
  {
    if i < j {
      SkipTo(s, i + 1, j);
    }
  }

  lemma {:induction false} WordTo(s: string, i: nat, j: nat)
    requires i <= j <= |s| && (forall k :: i <= k < j ==> WordChar(s[k])) && (j < |s| ==> White(s[j]) || Symbol(s[j]))
    ensures WordEnd(s, i) == j
    decreases j - i
  {
    if i < j {
      WordTo(s, i + 1, j);
    }
  }

  /** What comes after a token does not make it longer. */
  predicate EndsBefore(t: Tok<string>, after: string)
  {
    after == [] || ((t.Word? ==> White(after[0]) || Symbol(after[0])) && (t == Sym('>') ==> after[0] != '>'))
  }

  lemma RenderStart(t: Tok<string>, ts: seq<Tok<string>>, gaps: seq<string>, tail: string)
    requires |gaps| == |ts| && AllBlank(gaps, tail) && AllLegal(ts) && LegalTok(t)
    ensures EndsBefore(t, Render(ts, gaps, tail)) <==> ts == [] || gaps[0] != [] || !Joins(t, ts[0])
  {
    if ts != [] {
      assert ts[0] in ts;
      NotWhite(ts[0]);
      assert Render(ts, gaps, tail)[0] == if gaps[0] != [] then gaps[0][0] else Spell(ts[0])[0];
    }
  }

  /** A token at place i, spelled by the characters up to j. */
  lemma LexAt(s: string, i: nat, j: nat, t: Tok<string>)
    requires i < j <= |s| && s[i..j] == Spell(t) && LegalTok(t) && !White(s[i])
    ensures EndsBefore(t, s[j..]) ==> TokenAt(s, i).1 == j
    ensures MapTok((w: Span) => Text(s, w), TokenAt(s, i).0) == t <==> EndsBefore(t, s[j..])
  {
    assert s[i] == Spell(t)[0];
    if t.Word? {
      assert forall k :: i <= k < j ==> s[k] == Spell(t)[k - i];
      LexWord(s, i, j, t);
    } else if t.c == '+' {
      assert s[i + 1] == Spell(t)[1];
    } else {
      assert j == i + 1;
    }
  }

  lemma LexWord(s: string, i: nat, j: nat, t: Tok<string>)
    requires i < j <= |s| && t.Word? && s[i..j] == t.w && !White(s[i]) && forall k :: i <= k < j ==> WordChar(s[k])
    ensures EndsBefore(t, s[j..]) ==> TokenAt(s, i).1 == j
    ensures MapTok((w: Span) => Text(s, w), TokenAt(s, i).0) == t <==> EndsBefore(t, s[j..])
  {
    if EndsBefore(t, s[j..]) {
      WordTo(s, i, j);
    } else {
      LongerWord(s, i, j);
    }
  }

  /** One token. */
  lemma LexOne(pre: string, gap: string, t: Tok<string>, after: string)
    requires LegalTok(t) && Blank(gap)
    ensures var s := pre + gap + Spell(t) + after;
            && Skip(s, |pre|) == |pre + gap| < |s|
            && (EndsBefore(t, after) ==> TokenAt(s, |pre + gap|).1 == |pre + gap + Spell(t)|)
            && (MapTok((w: Span) => Text(s, w), TokenAt(s, |pre + gap|).0) == t <==> EndsBefore(t, after))
  {
    var s, i, j := pre + gap + Spell(t) + after, |pre + gap|, |pre + gap + Spell(t)|;
    NotWhite(t);
    assert s[i] == Spell(t)[0];
    SkipTo(s, |pre|, i);
    assert s[i..j] == Spell(t) && s[j..] == after;
    hide EndsBefore, LegalTok, Spell, TokenAt, Text;
    LexAt(s, i, j, t);
  }

  lemma NotWhite(t: Tok<string>)
    requires LegalTok(t)
    ensures Spell(t) != [] && !White(Spell(t)[0])
  {
  }

  lemma LongerWord(s: string, i: nat, j: nat)
    requires i < j < |s| && (forall k :: i <= k <= j ==> !White(s[k]) && !Symbol(s[k]))
    ensures WordEnd(s, i) > j && |s[i..WordEnd(s, i)]| > j - i
  {
  }

  lemma MapCons(f: Span -> string, t: Tok<Span>, ts: seq<Tok<Span>>)
    ensures MapToks(f, [t] + ts) == [MapTok(f, t)] + MapToks(f, ts)
  {
  }

  lemma TokensStep(s: string, i: nat)
    requires i <= |s| && Skip(s, i) < |s|
    ensures Tokens(s, i) == [TokenAt(s, Skip(s, i)).0] + Tokens(s, TokenAt(s, Skip(s, i)).1)
  {
  }

  predicate AllLegal(ts: seq<Tok<string>>) { forall t :: t in ts ==> LegalTok(t) }

  /** The line is read as the tokens it was made of if and only if those that would join were kept apart. */
  lemma {:induction false} LexBack(pre: string, ts: seq<Tok<string>>, gaps: seq<string>, tail: string, s: string)
    requires |gaps| == |ts| && AllBlank(gaps, tail) && AllLegal(ts)
    requires s == pre + Render(ts, gaps, tail)
    ensures MapToks((w: Span) => Text(s, w), Tokens(s, |pre|)) == ts <==> Apart(ts, gaps)
    decreases |ts|
  {
    if ts == [] {
      SkipTo(s, |pre|, |s|);
    } else {
      hide Text, TokenAt, LegalTok, Spell, EndsBefore, Joins;
      var after := Render(ts[1..], gaps[1..], tail);
      var f := (w: Span) => Text(s, w);
      RenderStart(ts[0], ts[1..], gaps[1..], tail);
      var pre' := pre + gaps[0] + Spell(ts[0]);
      assert s == pre' + after;
      LexOne(pre, gaps[0], ts[0], after);
      TokensStep(s, |pre|);
      hide Tokens, Skip, Render;
      var t := TokenAt(s, |pre + gaps[0]|);
      MapCons(f, t.0, Tokens(s, t.1));
      ApartCons(ts, gaps);
      if EndsBefore(ts[0], after) {
        LexBack(pre', ts[1..], gaps[1..], tail, s);
        SameTail(MapTok(f, t.0), MapToks(f, Tokens(s, t.1)), ts);
      } else {
        assert MapToks(f, Tokens(s, |pre|))[0] != ts[0];
      }
    }
  }

  lemma SameTail(t: Tok<string>, us: seq<Tok<string>>, ts: seq<Tok<string>>)
    requires ts != [] && t == ts[0]
    ensures [t] + us == ts <==> us == ts[1..]
  {
    assert ts == [ts[0]] + ts[1..];
    assert ([t] + us)[1..] == us;
  }

  lemma ApartCons(ts: seq<Tok<string>>, gaps: seq<string>)
    requires |gaps| == |ts| > 0
    ensures Apart(ts, gaps) <==> Apart(ts[1..], gaps[1..]) && (|ts| == 1 || gaps[1] != [] || !Joins(ts[0], ts[1]))
  {
    hide Joins;
    var us, hs := ts[1..], gaps[1..];
    if Apart(us, hs) && (|ts| == 1 || gaps[1] != [] || !Joins(ts[0], ts[1])) {
      forall i | 0 <= i < |ts| - 1 && Joins(ts[i], ts[i + 1]) ensures gaps[i + 1] != [] {
        if i > 0 {
          assert Joins(us[i - 1], us[i]);
        }
      }
    }
    if Apart(ts, gaps) {
      forall i | 0 <= i < |us| - 1 && Joins(us[i], us[i + 1]) ensures hs[i + 1] != [] {
        assert Joins(ts[i + 1], ts[i + 2]);
      }
    }
  }

  lemma {:induction false} PrintLegal(c: Cmd<string>)
    requires Every((w: string) => LegalWord(w), c)
    ensures AllLegal(Print(c))
  {
    match c
    case Exec(args) =>
    case Redir(c', _, _) => PrintLegal(c');
    case Pipe(l, r) => PrintLegal(l); PrintLegal(r);
    case List(l, r) => PrintLegal(l); PrintLegal(r);
    case Back(c') => PrintLegal(c');
  }

  /** However the tokens are spaced, if they can be told apart, the line parses to the tree that was printed. */
  lemma RoundTrip(c: Cmd<string>, gaps: seq<string>, tail: string)
    requires Legal(c) && |gaps| == |Print(c)| && AllBlank(gaps, tail) && Apart(Print(c), gaps)
    ensures var s := Render(Print(c), gaps, tail); Accepted(Tokens(s, 0)) && MapCmd((w: Span) => Text(s, w), ParseLine(Tokens(s, 0)).cmd) == c
  {
    var s := Render(Print(c), gaps, tail);
    var f := (w: Span) => Text(s, w);
    PrintLegal(c);
    LexBack("", Print(c), gaps, tail, s);
    LineBack(c, []);
    assert Print(c) + [] == Print(c);
    LineNatural(f, Tokens(s, 0));
  }
}
