/** The shell's parser on a line in memory: gettoken, peek, the parse functions and nulterminate of bin/sh/sh.c:262-493. */
module Shell {
  import opened Common
  import opened ShellGrammar
  import opened ShellWords
  import ShellSyntax

  /** Where a word lies in the line: its first character and the one after its last. */
  datatype Span = Span(q: nat, eq: nat)

  predicate White(c: char) { c in " \t\r\n\U{0B}" }
  predicate Symbol(c: char) { c in "<|>&;()" }
  predicate WordChar(c: char) { !White(c) && !Symbol(c) && c != '\0' }

  /** The first place from i on that is not white space. */
  function Skip(s: string, i: nat): (j: nat)
    requires i <= |s|
    ensures i <= j <= |s| && (j < |s| ==> !White(s[j])) && forall k :: i <= k < j ==> White(s[k])
    decreases |s| - i
  {
    if i < |s| && White(s[i]) then Skip(s, i + 1) else i
  }

  /** The end of the word that starts at i. */
  function WordEnd(s: string, i: nat): (j: nat)
    requires i <= |s|
    ensures i <= j <= |s| && (j < |s| ==> White(s[j]) || Symbol(s[j])) && forall k :: i <= k < j ==> !White(s[k]) && !Symbol(s[k])
    decreases |s| - i
  {
    if i < |s| && !White(s[i]) && !Symbol(s[i]) then WordEnd(s, i + 1) else i
  }

  /** The token at a place that is not white space, and where it ends. */
  function TokenAt(s: string, i: nat): (r: (Tok<Span>, nat))
    requires i < |s| && !White(s[i])
    ensures i < r.1 <= |s|
  {
    if s[i] == '>' then (if i + 1 < |s| && s[i + 1] == '>' then (Sym('+'), i + 2) else (Sym('>'), i + 1))
    else if Symbol(s[i]) then (Sym(s[i]), i + 1)
    else (Word(Span(i, WordEnd(s, i))), WordEnd(s, i))
  }

  /** All tokens from place i on. */
  function Tokens(s: string, i: nat): (ts: seq<Tok<Span>>)
    requires i <= |s|
    decreases |s| - i
  {
    var j := Skip(s, i);
    if j == |s| then [] else [TokenAt(s, j).0] + Tokens(s, TokenAt(s, j).1)
  }

  lemma TokensSkip(s: string, i: nat)
    requires i <= |s|
    ensures Tokens(s, Skip(s, i)) == Tokens(s, i) && Skip(s, Skip(s, i)) == Skip(s, i)
  {
    SkipTwice(s, i);
  }

  lemma SkipTwice(s: string, i: nat)
    requires i <= |s|
    ensures Skip(s, Skip(s, i)) == Skip(s, i)
  {
  }

  /** The tokens that start with one of the characters `toks`. */
  function Seen(toks: string): string { if '>' in toks then toks + "+" else toks }

  type Tree = Cmd<Span>

  function Prepend<W>(done: seq<(W, bool)>, r: Redirs<W>): Redirs<W>
  {
    match r
    case NoFile => NoFile
    case Files(rs, rest) => Files(done + rs, rest)
  }

  // ---------- words in the line, and NULs after them ----------

  /** A whole word of the line. */
  predicate WordSpan(s: string, w: Span)
  {
    && w.q < w.eq <= |s| && (forall i :: w.q <= i < w.eq ==> WordChar(s[i]))
    && (w.eq < |s| ==> !WordChar(s[w.eq]))
  }

  predicate AllWords(s: string, c: Tree) { Every((w: Span) => WordSpan(s, w), c) }

  lemma TokensAreWords(s: string, i: nat, k: nat)
    requires i <= |s| && '\0' !in s && k < |Tokens(s, i)| && Tokens(s, i)[k].Word?
    ensures WordSpan(s, Tokens(s, i)[k].w)
    decreases |s| - i
  {
    var j := Skip(s, i);
    if k > 0 {
      TokensAreWords(s, TokenAt(s, j).1, k - 1);
    }
  }

  /** The parser's trees are made of whole words of the line. */
  lemma TreeOfWords(s: string, i: nat)
    requires i <= |s| && '\0' !in s && ParseLine(Tokens(s, i)).Done?
    ensures AllWords(s, ParseLine(Tokens(s, i)).cmd)
  {
    var ts := Tokens(s, i);
    forall k | 0 <= k < |ts| && ts[k].Word? ensures WordSpan(s, ts[k].w) {
      TokensAreWords(s, i, k);
    }
    EveryParsed(w => WordSpan(s, w) || w == Span(0, 0), ts, Span(0, 0));
    EveryParsed(w => WordSpan(s, w) || w == Span(1, 1), ts, Span(1, 1));
    EveryBoth(w => WordSpan(s, w) || w == Span(0, 0), w => WordSpan(s, w) || w == Span(1, 1), w => WordSpan(s, w), ParseLine(ts).cmd);
  }

  /** Where nulterminate writes. */
  function Ends(c: Tree): set<nat>
  {
    match c
    case Exec(args) => EndsOf(args)
    case Redir(c', file, _) => Ends(c') + {file.eq}
    case Pipe(l, r) => Ends(l) + Ends(r)
    case List(l, r) => Ends(l) + Ends(r)
    case Back(c') => Ends(c')
  }

  function EndsOf(args: seq<Span>): set<nat> { set i | 0 <= i < |args| :: args[i].eq }

  /** The C string at place q. */
  function CString(b: string, q: nat): string
    requires q <= |b|
    decreases |b| - q
  {
    if q == |b| || b[q] == '\0' then [] else [b[q]] + CString(b, q + 1)
  }

  function Text(s: string, w: Span): string { if w.q <= w.eq <= |s| then s[w.q..w.eq] else [] }

  lemma {:induction false} CStringIs(b: string, q: nat, e: nat)
    requires q <= e < |b| && b[e] == '\0' && forall i :: q <= i < e ==> b[i] != '\0'
    ensures CString(b, q) == b[q..e]
    decreases e - q
  {
    if q < e {
      CStringIs(b, q + 1, e);
    }
  }

  lemma {:induction false} EndsAreOutside(s: string, c: Tree, e: nat)
    requires AllWords(s, c) && e in Ends(c)
    ensures e == |s| || (e < |s| && !WordChar(s[e]))
  {
    match c
    case Exec(args) =>
    case Redir(c', file, _) => if e in Ends(c') { EndsAreOutside(s, c', e); }
    case Pipe(l, r) => if e in Ends(l) { EndsAreOutside(s, l, e); } else { EndsAreOutside(s, r, e); }
    case List(l, r) => if e in Ends(l) { EndsAreOutside(s, l, e); } else { EndsAreOutside(s, r, e); }
    case Back(c') => EndsAreOutside(s, c', e);
  }

  /** The buffer after nulterminate. */
  ghost predicate Terminated(b: string, b': string, c: Tree)
  {
    |b'| == |b| && forall i :: 0 <= i < |b| ==> b'[i] == if i in Ends(c) then '\0' else b[i]
  }

  /** Then every word of the tree reads as its text: no NUL falls inside another word. */
  lemma ReadsAsText(s: string, b': string, c: Tree, w: Span)
    requires '\0' !in s && AllWords(s, c) && WordSpan(s, w) && w.eq in Ends(c)
    requires Terminated(s + "\0", b', c)
    ensures CString(b', w.q) == Text(s, w)
  {
    forall i | w.q <= i < w.eq ensures b'[i] == s[i] && s[i] != '\0' {
      if i in Ends(c) {
        EndsAreOutside(s, c, i);
      }
    }
    CStringIs(b', w.q, w.eq);
  }

  predicate AllRead(s: string, b: string, c: Tree) { Every((w: Span) => w.q <= |b| && CString(b, w.q) == Text(s, w), c) }

  lemma {:induction false} SubtreeReads(s: string, b': string, whole: Tree, c: Tree)
    requires '\0' !in s && AllWords(s, whole) && AllWords(s, c) && Ends(c) <= Ends(whole) && Terminated(s + "\0", b', whole)
    ensures AllRead(s, b', c)
  {
    match c
    case Exec(args) =>
      forall i | 0 <= i < |args| ensures args[i].q <= |b'| && CString(b', args[i].q) == Text(s, args[i]) {
        assert args[i].eq in Ends(c);
        ReadsAsText(s, b', whole, args[i]);
      }
    case Redir(c', file, _) =>
      assert file.eq in Ends(c);
      ReadsAsText(s, b', whole, file);
      SubtreeReads(s, b', whole, c');
    case Pipe(l, r) => SubtreeReads(s, b', whole, l); SubtreeReads(s, b', whole, r);
    case List(l, r) => SubtreeReads(s, b', whole, l); SubtreeReads(s, b', whole, r);
    case Back(c') => SubtreeReads(s, b', whole, c');
  }

  /** The whole line is a command. */
  predicate Accepted<W>(ts: seq<Tok<W>>)
  {
    ParseLine(ts).Done? && ParseLine(ts).rest == []
  }

  class Shell {
    /** The line, with a NUL after it, as parsecmd gets it. */
    const buf: array<char>
    var ps: nat

    ghost function Line(): string
      reads buf
    {
      if buf.Length == 0 then [] else buf[..buf.Length - 1]
    }

    /** The line ends at its first NUL. */
    ghost predicate Valid()
      reads this, buf
    {
      && 0 < buf.Length && buf[buf.Length - 1] == '\0' && '\0' !in buf[..buf.Length - 1] && ps < buf.Length
    }

    constructor (line: array<char>)
      requires 0 < line.Length && line[line.Length - 1] == '\0' && '\0' !in line[..line.Length - 1]
      ensures Valid() && buf == line && ps == 0
    {
      buf, ps := line, 0;
    }

    /** What is left to parse. */
    ghost function Rest(): seq<Tok<Span>>
      requires Valid()
      reads this, buf
    {
      Tokens(Line(), ps)
    }

    method SkipWhite()
      requires Valid()
      modifies `ps
      ensures Valid() && ps == Skip(Line(), old(ps)) && Rest() == old(Rest())
    {
      TokensSkip(Line(), ps);
      while ps < buf.Length - 1 && White(buf[ps])
        invariant Valid() && Skip(Line(), ps) == Skip(Line(), old(ps))
      {
        ps := ps + 1;
      }
    }

    /** peek: whether the next token starts with one of `toks`. */
    method Peek(toks: string) returns (r: bool)
      requires Valid() && forall c :: c in toks ==> Symbol(c)
      modifies `ps
      ensures Valid() && Rest() == old(Rest()) && old(ps) <= ps
      ensures r <==> Starts(Rest(), Seen(toks))
      ensures Rest() == [] <==> ps == buf.Length - 1
    {
      SkipWhite();
      r := buf[ps] != '\0' && buf[ps] in toks;
    }

    /** The switch of gettoken: the token at the cursor. */
    method Lex() returns (t: Tok<Span>)
      requires Valid() && ps < buf.Length - 1 && !White(buf[ps])
      modifies `ps
      ensures Valid() && (t, ps) == TokenAt(Line(), old(ps))
    {
      var s := ps;
      var c := buf[s];
      if c == '>' {
        ps := ps + 1;
        t := Sym('>');
        if buf[ps] == '>' {
          ps := ps + 1;
          t := Sym('+');
        }
      } else if c in "|();&<" {
        ps := ps + 1;
        t := Sym(c);
      } else {
        while ps < buf.Length - 1 && !White(buf[ps]) && !Symbol(buf[ps])
          invariant Valid() && s <= ps && WordEnd(Line(), s) == WordEnd(Line(), ps)
        {
          ps := ps + 1;
        }
        t := Word(Span(s, ps));
      }
    }

    /** gettoken: the next token, or None at the end of the line. */
    method GetToken() returns (t: Option<Tok<Span>>)
      requires Valid()
      modifies `ps
      ensures Valid() && old(ps) <= ps
      ensures t.None? <==> old(Rest()) == []
      ensures t.None? ==> Rest() == []
      ensures t.Some? ==> old(Rest()) == [t.value] + Rest() && old(ps) < ps
    {
      hide TokenAt, Skip;
      SkipWhite();
      if buf[ps] == '\0' {
        t := None;
      } else {
        var tok := Lex();
        t := Some(tok);
        SkipWhite();
      }
    }

    /** parseredirs: the files to wrap around a command. None stands for the panic. */
    method ReadRedirs() returns (r: Option<seq<(Span, bool)>>)
      requires Valid()
      modifies `ps
      ensures Valid() && old(ps) <= ps
      ensures ParseRedirs(old(Rest())) == if r.None? then NoFile else Files(r.value, Rest())
    {
      hide Tokens, ParseRedirs, Prepend;
      var rs: seq<(Span, bool)> := [];
      PrependNone(ParseRedirs(Rest()));
      var more := Peek("<>");
      while more
        invariant Valid() && old(ps) <= ps && more == Starts(Rest(), "<>+")
        invariant ParseRedirs(old(Rest())) == Prepend(rs, ParseRedirs(Rest()))
        decreases buf.Length - ps
      {
        ghost var ts := Rest();
        RedirsNext(rs, ts);
        var tok := GetToken();
        assert ts[1..] == Rest();
        ghost var us := Rest();
        var file := GetToken();
        if file.None? || !file.value.Word? {
          return None;
        }
        assert us[1..] == Rest() && ts[1..][1..] == ts[2..];
        rs := rs + [(file.value.w, tok.value.c != '<')];
        more := Peek("<>");
      }
      RedirsNext(rs, Rest());
      r := Some(rs);
    }

    /** parseexec's loop over the words of a command. */
    method ReadArgs(rs0: seq<(Span, bool)>) returns (r: Option<Tree>)
      requires Valid()
      modifies `ps
      ensures Valid() && old(ps) <= ps
      ensures ParseArgs(old(Rest()), [], rs0) == if r.None? then Fail else Done(r.value, Rest())
    {
      hide Tokens, ParseRedirs;
      var args: seq<Span>, rs := [], rs0;
      var stop := Peek("|)&;");
      while !stop
        invariant Valid() && old(ps) <= ps && stop == Starts(Rest(), "|)&;")
        invariant ParseArgs(old(Rest()), [], rs0) == ParseArgs(Rest(), args, rs)
        decreases buf.Length - ps
      {
        ghost var ts := Rest();
        var tok := GetToken();
        if tok.None? {
          break;
        }
        if !tok.value.Word? {
          return None;
        }
        if |args| + 1 >= MAXARGS {
          return None;
        }
        assert ts[1..] == Rest();
        args := args + [tok.value.w];
        var more := ReadRedirs();
        if more.None? {
          return None;
        }
        rs := rs + more.value;
        stop := Peek("|)&;");
      }
      r := Some(Wrap(Exec(args), rs));
    }

    /** parseexec. */
    method ReadExec() returns (r: Option<Tree>)
      requires Valid()
      modifies `ps
      ensures Valid() && old(ps) <= ps
      ensures ParseExec(old(Rest())) == if r.None? then Fail else Done(r.value, Rest())
      decreases buf.Length - ps, 1
    {
      hide Tokens, ParseRedirs, ParseArgs, ParseBlock;
      var block := Peek("(");
      if block {
        r := ReadBlock();
        return;
      }
      var rs := ReadRedirs();
      if rs.None? {
        return None;
      }
      r := ReadArgs(rs.value);
    }

    /** parseblock, after its peek at the parenthesis. */
    method ReadBlock() returns (r: Option<Tree>)
      requires Valid() && Starts(Rest(), "(")
      modifies `ps
      ensures Valid() && old(ps) <= ps
      ensures ParseBlock(old(Rest())) == if r.None? then Fail else Done(r.value, Rest())
      decreases buf.Length - ps, 0
    {
      hide Tokens, ParseRedirs, ParseLine;
      ghost var ts := Rest();
      var open := GetToken();
      assert ts[1..] == Rest();
      var c := ReadLine();
      if c.None? {
        return None;
      }
      var closed := Peek(")");
      if !closed {
        return None;
      }
      ts := Rest();
      var close := GetToken();
      assert ts[1..] == Rest();
      var rs := ReadRedirs();
      if rs.None? {
        return None;
      }
      r := Some(Wrap(c.value, rs.value));
    }

    /** parsepipe. */
    method ReadPipe() returns (r: Option<Tree>)
      requires Valid()
      modifies `ps
      ensures Valid() && old(ps) <= ps
      ensures ParsePipe(old(Rest())) == if r.None? then Fail else Done(r.value, Rest())
      decreases buf.Length - ps, 2
    {
      hide Tokens, ParseExec;
      r := ReadExec();
      if r.None? {
        return;
      }
      var more := Peek("|");
      if more {
        ghost var ts := Rest();
        var bar := GetToken();
        assert ts[1..] == Rest();
        var right := ReadPipe();
        r := if right.None? then None else Some(Pipe(r.value, right.value));
      }
    }

    /** parseline. */
    method ReadLine() returns (r: Option<Tree>)
      requires Valid()
      modifies `ps
      ensures Valid() && old(ps) <= ps
      ensures ParseLine(old(Rest())) == if r.None? then Fail else Done(r.value, Rest())
      decreases buf.Length - ps, 3
    {
      hide Tokens, ParsePipe;
      r := ReadPipe();
      if r.None? {
        return;
      }
      ghost var first, rest := r.value, Rest();
      var back := Peek("&");
      while back
        invariant Valid() && old(ps) <= ps && r.Some? && back == Starts(Rest(), "&")
        invariant Backs(first, rest) == Backs(r.value, Rest())
        decreases buf.Length - ps
      {
        ghost var ts := Rest();
        var amp := GetToken();
        assert ts[1..] == Rest();
        r := Some(Back(r.value));
        back := Peek("&");
      }
      var more := Peek(";");
      if more {
        ghost var ts := Rest();
        var semi := GetToken();
        assert ts[1..] == Rest();
        var right := ReadLine();
        r := if right.None? then None else Some(List(r.value, right.value));
      }
    }

    /** nulterminate. */
    method NulTerminate(c: Tree)
      requires forall e :: e in Ends(c) ==> e < buf.Length
      modifies buf
      ensures Terminated(old(buf[..]), buf[..], c)
      decreases c
    {
      match c {
        case Exec(args) =>
          var i := 0;
          while i < |args|
            invariant 0 <= i <= |args|
            invariant Terminated(old(buf[..]), buf[..], Exec(args[..i]))
          {
            assert args[i].eq in Ends(c);
            buf[args[i].eq] := '\0';
            assert EndsOf(args[..i + 1]) == EndsOf(args[..i]) + {args[i].eq};
            i := i + 1;
          }
          assert args[..i] == args;
        case Redir(c', file, _) =>
          assert Ends(c') <= Ends(c) && file.eq in Ends(c);
          NulTerminate(c');
          buf[file.eq] := '\0';
        case Pipe(l, r) =>
          assert Ends(l) <= Ends(c) && Ends(r) <= Ends(c);
          NulTerminate(l);
          NulTerminate(r);
        case List(l, r) =>
          assert Ends(l) <= Ends(c) && Ends(r) <= Ends(c);
          NulTerminate(l);
          NulTerminate(r);
        case Back(c') =>
          assert Ends(c') == Ends(c);
          NulTerminate(c');
      }
    }

    /**
     parsecmd: the tree that the grammar gives the line, or None, a syntax error, exactly where it gives none.
     The line is cut into C strings.
     */
    method ReadCmd() returns (r: Option<Tree>)
      requires Valid() && ps == 0
      modifies `ps, buf
      ensures r.None? <==> !Accepted(Tokens(old(Line()), 0))
      ensures r.None? ==> buf[..] == old(buf[..]) && forall t :: !ShellSyntax.IsLine(Tokens(old(Line()), 0), t)
      ensures r.Some? ==> ParseLine(Tokens(old(Line()), 0)) == Done(r.value, [])
      ensures r.Some? ==> ShellSyntax.IsLine(Tokens(old(Line()), 0), r.value)
      ensures r.Some? ==> AllWords(old(Line()), r.value) && AllRead(old(Line()), buf[..], r.value)
    {
      hide ParseLine, Tokens, ShellSyntax.IsLine;
      ghost var s := Line();
      forall t ensures ParseLine(Tokens(s, 0)) == Done(t, []) <==> ShellSyntax.IsLine(Tokens(s, 0), t) {
        ShellSyntax.ParsesExactly(Tokens(s, 0), t);
      }
      r := ReadLine();
      if r.None? {
        return;
      }
      var none := Peek("");
      if ps != buf.Length - 1 {
        return None;
      }
      TreeOfWords(s, 0);
      forall e | e in Ends(r.value) ensures e < buf.Length {
        EndsAreOutside(s, r.value, e);
      }
      assert buf[..] == s + "\0";
      NulTerminate(r.value);
      SubtreeReads(s, buf[..], r.value, r.value);
    }
  }

  lemma PrependNone<W>(r: Redirs<W>)
    ensures Prepend([], r) == r
  {
  }

  /** One redirection more, or the end of them. */
  lemma {:induction false} RedirsNext<W>(done: seq<(W, bool)>, ts: seq<Tok<W>>)
    ensures var r := Prepend(done, ParseRedirs(ts));
            if !Starts(ts, "<>+") then r == Files(done, ts)
            else if |ts| < 2 || !ts[1].Word? then r == NoFile
            else r == Prepend(done + [(ts[1].w, ts[0].c != '<')], ParseRedirs(ts[2..]))
  {
    if !Starts(ts, "<>+") {
      assert done + [] == done;
    } else if |ts| >= 2 && ts[1].Word? {
      var x, next := (ts[1].w, ts[0].c != '<'), ParseRedirs(ts[2..]);
      if next.Files? {
        assert done + [x] + next.rs == done + ([x] + next.rs);
      }
    }
  }
}
