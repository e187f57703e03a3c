/**
 The command language as a grammar, without a parser: which token sequences are which command. The parser
 of bin/sh/sh.c:344-446 accepts exactly these, and builds exactly these trees.
 */
module ShellSyntax {
  import opened ShellGrammar

  predicate RedirSym<W>(t: Tok<W>) { t.Sym? && t.c in "<>+" }

  /** The words that are not the file of a redirection, in order. */
  function ArgsIn<W>(p: seq<Tok<W>>): seq<W>
  {
    if p == [] then []
    else if p[0].Word? then [p[0].w] + ArgsIn(p[1..])
    else if RedirSym(p[0]) && |p| >= 2 && p[1].Word? then ArgsIn(p[2..])
    else ArgsIn(p[1..])
  }

  /** The words right after `<`, `>` or `>>`, in order, each with its direction. */
  function FilesIn<W>(p: seq<Tok<W>>): seq<(W, bool)>
  {
    if p == [] then []
    else if p[0].Word? then FilesIn(p[1..])
    else if RedirSym(p[0]) && |p| >= 2 && p[1].Word? then [(p[1].w, p[0].c != '<')] + FilesIn(p[2..])
    else FilesIn(p[1..])
  }

  /** Words and redirections only. */
  predicate Flat<W>(p: seq<Tok<W>>)
  {
    p == [] || (p[0].Word? && Flat(p[1..])) || (RedirSym(p[0]) && |p| >= 2 && p[1].Word? && Flat(p[2..]))
  }

  /** The tree inside the last `n` redirections, and those redirections. */
  function Peel<W>(t: Cmd<W>, n: nat): Cmd<W> { if n == 0 || !t.Redir? then t else Peel(t.cmd, n - 1) }

  function Outer<W>(t: Cmd<W>, n: nat): seq<(W, bool)>
  {
    if n == 0 || !t.Redir? then [] else Outer(t.cmd, n - 1) + [(t.file, t.out)]
  }

  // ---------- the grammar ----------

  /** Words and redirections in any order: the words are the arguments, the files nest in their order. */
  ghost predicate IsSimple<W>(p: seq<Tok<W>>, t: Cmd<W>)
  {
    && Flat(p) && Base(t).Exec? && Base(t).args == ArgsIn(p) && FilesOf(t) == FilesIn(p)
    && |ArgsIn(p)| < MAXARGS
  }

  /** `( line )` and then redirections, up to place k. */
  ghost predicate BlockAt<W>(p: seq<Tok<W>>, t: Cmd<W>, k: nat)
    decreases |p|, 0
  {
    && 0 < k < |p| && p[0] == Sym('(') && p[k] == Sym(')')
    && Flat(p[k + 1..]) && ArgsIn(p[k + 1..]) == []
    && var rs := FilesIn(p[k + 1..]); Outer(t, |rs|) == rs && IsLine(p[1..k], Peel(t, |rs|))
  }

  ghost predicate IsExec<W>(p: seq<Tok<W>>, t: Cmd<W>)
    decreases |p|, 1
  {
    IsSimple(p, t) || exists k: nat :: BlockAt(p, t, k)
  }

  ghost predicate PipeAt<W>(p: seq<Tok<W>>, t: Cmd<W>, k: nat)
    decreases |p|, 2
  {
    t.Pipe? && k < |p| && p[k] == Sym('|') && IsExec(p[..k], t.left) && IsPipe(p[k + 1..], t.right)
  }

  ghost predicate IsPipe<W>(p: seq<Tok<W>>, t: Cmd<W>)
    decreases |p|, 3
  {
    IsExec(p, t) || exists k: nat :: PipeAt(p, t, k)
  }

  /** A pipeline with any number of `&` behind it. */
  ghost predicate IsBack<W>(p: seq<Tok<W>>, t: Cmd<W>)
    decreases |p|, 4
  {
    IsPipe(p, t) || (t.Back? && p != [] && p[|p| - 1] == Sym('&') && IsBack(p[..|p| - 1], t.cmd))
  }

  ghost predicate ListAt<W>(p: seq<Tok<W>>, t: Cmd<W>, k: nat)
    decreases |p|, 5
  {
    t.List? && k < |p| && p[k] == Sym(';') && IsBack(p[..k], t.left) && IsLine(p[k + 1..], t.right)
  }

  ghost predicate IsLine<W>(p: seq<Tok<W>>, t: Cmd<W>)
    decreases |p|, 6
  {
    IsBack(p, t) || exists k: nat :: ListAt(p, t, k)
  }

  /** The tokens that were taken from `ts`, when `rest` is left. */
  ghost predicate Left<W>(ts: seq<Tok<W>>, rest: seq<Tok<W>>) { |rest| <= |ts| && rest == ts[|ts| - |rest|..] }

  function Taken<W>(ts: seq<Tok<W>>, rest: seq<Tok<W>>): seq<Tok<W>>
    requires |rest| <= |ts|
  {
    ts[..|ts| - |rest|]
  }

  // ---------- trees and their redirections ----------

  lemma {:induction false} WrapReads<W>(c: Cmd<W>, rs: seq<(W, bool)>)
    ensures Base(Wrap(c, rs)) == Base(c) && FilesOf(Wrap(c, rs)) == FilesOf(c) + rs
    decreases |rs|
  {
    if rs != [] {
      WrapReads(Redir(c, rs[0].0, rs[0].1), rs[1..]);
      assert FilesOf(c) + [rs[0]] + rs[1..] == FilesOf(c) + rs;
    }
  }

  lemma {:induction false} WrapPeels<W>(c: Cmd<W>, rs: seq<(W, bool)>)
    ensures Peel(Wrap(c, rs), |rs|) == c && Outer(Wrap(c, rs), |rs|) == rs
    decreases |rs|
  {
    if rs != [] {
      var r, last := rs[..|rs| - 1], rs[|rs| - 1];
      assert rs == r + [last];
      WrapLast(c, r, last);
      WrapPeels(c, r);
    }
  }

  lemma {:induction false} PeelWraps<W>(t: Cmd<W>, n: nat)
    requires |Outer(t, n)| == n
    ensures Wrap(Peel(t, n), Outer(t, n)) == t
  {
    if n > 0 && t.Redir? {
      PeelWraps(t.cmd, n - 1);
      WrapLast(Peel(t, n), Outer(t.cmd, n - 1), (t.file, t.out));
    }
  }

  // ---------- redirections and words ----------

  lemma FlatStep<W>(op: Tok<W>, f: Tok<W>, q: seq<Tok<W>>)
    requires RedirSym(op) && f.Word?
    ensures var p := [op, f] + q;
            Flat(p) == Flat(q) && ArgsIn(p) == ArgsIn(q) && FilesIn(p) == [(f.w, op.c != '<')] + FilesIn(q)
  {
    var p := [op, f] + q;
    assert p[2..] == q;
  }

  lemma FlatWord<W>(w: Tok<W>, q: seq<Tok<W>>)
    requires w.Word?
    ensures var p := [w] + q; Flat(p) == Flat(q) && ArgsIn(p) == [w.w] + ArgsIn(q) && FilesIn(p) == FilesIn(q)
  {
    var p := [w] + q;
    assert p[1..] == q;
  }

  lemma FlatShape<W>(p: seq<Tok<W>>)
    requires Flat(p) && p != []
    ensures p[0].Word? ==> Flat(p[1..])
    ensures !p[0].Word? ==> RedirSym(p[0]) && |p| >= 2 && p[1].Word? && Flat(p[2..])
  {
  }

  lemma NoneIn<W>()
    ensures Flat<W>([]) && ArgsIn<W>([]) == [] && FilesIn<W>([]) == []
  {
  }

  lemma {:induction false} FlatAppend<W>(p: seq<Tok<W>>, q: seq<Tok<W>>)
    requires Flat(p)
    ensures Flat(p + q) == Flat(q) && ArgsIn(p + q) == ArgsIn(p) + ArgsIn(q) && FilesIn(p + q) == FilesIn(p) + FilesIn(q)
  {
    hide Flat, ArgsIn, FilesIn, RedirSym;
    if p == [] {
      NoneIn<W>();
      assert p + q == q;
    } else {
      FlatShape(p);
      if p[0].Word? {
        var r := p[1..];
        FlatAppend(r, q);
        assert p == [p[0]] + r;
        Assoc([p[0]], r, q);
        FlatWord(p[0], r);
        FlatWord(p[0], r + q);
        Assoc([p[0].w], ArgsIn(r), ArgsIn(q));
      } else {
        var r := p[2..];
        FlatAppend(r, q);
        assert p == [p[0], p[1]] + r;
        Assoc([p[0], p[1]], r, q);
        FlatStep(p[0], p[1], r);
        FlatStep(p[0], p[1], r + q);
        Assoc([(p[1].w, p[0].c != '<')], FilesIn(r), FilesIn(q));
      }
    }
  }

  lemma RedirsUnfold<W>(ts: seq<Tok<W>>)
    ensures !Starts(ts, "<>+") ==> ParseRedirs(ts) == Files([], ts)
    ensures Starts(ts, "<>+") && ParseRedirs(ts).Files? ==>
              && |ts| >= 2 && ts[1].Word? && RedirSym(ts[0]) && ParseRedirs(ts[2..]).Files?
              && ParseRedirs(ts) == Files([(ts[1].w, ts[0].c != '<')] + ParseRedirs(ts[2..]).rs, ParseRedirs(ts[2..]).rest)
  {
  }

  /** What parseredirs takes is redirections, and it takes all of them. */
  lemma {:induction false} RedirsSound<W>(ts: seq<Tok<W>>)
    ensures var r := ParseRedirs(ts);
            r.Files? ==>
              var n := |ts| - |r.rest|;
              && 0 <= n && r.rest == ts[n..] && !Starts(r.rest, "<>+")
              && Flat(ts[..n]) && ArgsIn(ts[..n]) == [] && FilesIn(ts[..n]) == r.rs
    decreases |ts|
  {
    hide Flat, ArgsIn, FilesIn, RedirSym, ParseRedirs;
    var r := ParseRedirs(ts);
    RedirsUnfold(ts);
    if !Starts(ts, "<>+") {
      NoneIn<W>();
      assert ts[..0] == [];
    } else if r.Files? {
      RedirsSound(ts[2..]);
      var n := |ts| - |r.rest|;
      assert ts[..n] == [ts[0], ts[1]] + ts[2..][..n - 2];
      FlatStep(ts[0], ts[1], ts[2..][..n - 2]);
    }
  }

  lemma {:induction false} RedirsComplete<W>(p: seq<Tok<W>>, rest: seq<Tok<W>>)
    requires Flat(p) && ArgsIn(p) == [] && !Starts(rest, "<>+")
    ensures ParseRedirs(p + rest) == Files(FilesIn(p), rest)
  {
    if p == [] {
      assert p + rest == rest;
    } else {
      RedirsComplete(p[2..], rest);
      assert (p + rest)[2..] == p[2..] + rest;
    }
  }

  /** The redirections that a sequence starts with. */
  function Lead<W>(p: seq<Tok<W>>): (n: nat)
    ensures n <= |p|
  {
    if |p| >= 2 && RedirSym(p[0]) && p[1].Word? then 2 + Lead(p[2..]) else 0
  }

  lemma LeadStep<W>(p: seq<Tok<W>>)
    requires Lead(p) > 0
    ensures |p| >= 2 && RedirSym(p[0]) && p[1].Word? && Lead(p) == 2 + Lead(p[2..])
  {
  }

  lemma LeadEnds<W>(p: seq<Tok<W>>)
    requires Flat(p) && Lead(p) == 0
    ensures p != [] ==> p[0].Word?
  {
  }

  lemma {:induction false} LeadSplits<W>(p: seq<Tok<W>>)
    requires Flat(p)
    ensures var n := Lead(p);
            && Flat(p[..n]) && ArgsIn(p[..n]) == [] && Flat(p[n..]) && (n < |p| ==> p[n].Word?)
            && ArgsIn(p) == ArgsIn(p[n..]) && FilesIn(p) == FilesIn(p[..n]) + FilesIn(p[n..])
  {
    hide Flat, ArgsIn, FilesIn, Lead;
    var n := Lead(p);
    if n > 0 {
      LeadStep(p);
      var q := p[2..];
      assert p == [p[0], p[1]] + q;
      FlatStep(p[0], p[1], q);
      LeadSplits(q);
      var r, t := q[..n - 2], q[n - 2..];
      assert p[..n] == [p[0], p[1]] + r && p[n..] == t;
      FlatStep(p[0], p[1], r);
      Assoc([(p[1].w, p[0].c != '<')], FilesIn(r), FilesIn(t));
    } else {
      LeadEnds(p);
      NoneIn<W>();
      assert p[..0] == [] && p[0..] == p;
      assert [] + FilesIn(p) == FilesIn(p);
    }
  }

  /** The tokens that parseargs took, after its first word: redirections, then more words. */
  lemma ArgsJoin<W>(w: W, files: seq<Tok<W>>, more: seq<Tok<W>>, args: seq<W>, rs: seq<(W, bool)>)
    requires Flat(files) && ArgsIn(files) == [] && Flat(more)
    ensures var p := [Word(w)] + (files + more);
            && Flat(p) && args + ArgsIn(p) == args + [w] + ArgsIn(more)
            && rs + FilesIn(p) == rs + FilesIn(files) + FilesIn(more)
  {
    hide Flat, ArgsIn, FilesIn;
    FlatAppend(files, more);
    FlatWord(Word(w), files + more);
    assert ArgsIn(files + more) == ArgsIn(more);
    Assoc(args, [w], ArgsIn(more));
    Assoc(rs, FilesIn(files), FilesIn(more));
  }

  /** What the loop of parseexec took, when it had `args` and `rs` before. */
  ghost predicate TookArgs<W>(ts: seq<Tok<W>>, args: seq<W>, rs: seq<(W, bool)>, r: Result<W>)
    requires r.Done?
  {
    && Left(ts, r.rest) && EndsExec(r.rest)
    && var p := Taken(ts, r.rest);
    && Flat(p) && |args + ArgsIn(p)| < MAXARGS
    && r.cmd == Wrap(Exec(args + ArgsIn(p)), rs + FilesIn(p))
  }

  lemma TookNone<W>(ts: seq<Tok<W>>, args: seq<W>, rs: seq<(W, bool)>)
    requires EndsExec(ts) && |args| < MAXARGS
    ensures TookArgs(ts, args, rs, Done(Wrap(Exec(args), rs), ts))
  {
    assert Taken(ts, ts) == [] && args + [] == args && rs + [] == rs;
  }

  lemma WordSlices<W>(ts: seq<Tok<W>>, mid: seq<Tok<W>>, rest: seq<Tok<W>>)
    requires ts != [] && Left(ts[1..], mid) && Left(mid, rest)
    ensures Left(ts, rest) && Taken(ts, rest) == [ts[0]] + (Taken(ts[1..], mid) + Taken(mid, rest))
  {
  }

  lemma TookMore<W>(ts: seq<Tok<W>>, args: seq<W>, rs: seq<(W, bool)>, d: Redirs<W>, r: Result<W>)
    requires ts != [] && ts[0].Word? && d == ParseRedirs(ts[1..]) && d.Files? && r.Done?
    requires TookArgs(d.rest, args + [ts[0].w], rs + d.rs, r)
    ensures TookArgs(ts, args, rs, r)
  {
    hide Flat, ArgsIn, FilesIn, Wrap, ParseRedirs, Taken, EndsExec;
    RedirsTaken(ts[1..]);
    WordSlices(ts, d.rest, r.rest);
    ArgsJoin(ts[0].w, Taken(ts[1..], d.rest), Taken(d.rest, r.rest), args, rs);
  }

  lemma RedirsTaken<W>(ts: seq<Tok<W>>)
    ensures var r := ParseRedirs(ts);
            r.Files? ==>
              && Left(ts, r.rest) && !Starts(r.rest, "<>+") && Flat(Taken(ts, r.rest))
              && ArgsIn(Taken(ts, r.rest)) == [] && FilesIn(Taken(ts, r.rest)) == r.rs
  {
    RedirsSound(ts);
  }

  lemma {:induction false} ArgsSound<W>(ts: seq<Tok<W>>, args: seq<W>, rs: seq<(W, bool)>)
    requires |args| < MAXARGS
    ensures ParseArgs(ts, args, rs).Done? ==> TookArgs(ts, args, rs, ParseArgs(ts, args, rs))
    decreases |ts|
  {
    hide TookArgs, Wrap, ParseRedirs;
    var r := ParseArgs(ts, args, rs);
    if EndsExec(ts) {
      TookNone(ts, args, rs);
    } else if r.Done? {
      var d := ParseRedirs(ts[1..]);
      ArgsSound(d.rest, args + [ts[0].w], rs + d.rs);
      TookMore(ts, args, rs, d, r);
    }
  }

  lemma NoRedirAhead<W>(more: seq<Tok<W>>, rest: seq<Tok<W>>)
    requires EndsExec(rest) && (more != [] ==> more[0].Word?)
    ensures !Starts(more + rest, "<>+")
  {
  }

  lemma {:induction false} ArgsComplete<W>(p: seq<Tok<W>>, args: seq<W>, rs: seq<(W, bool)>, rest: seq<Tok<W>>)
    requires Flat(p) && (p != [] ==> p[0].Word?) && EndsExec(rest) && |args| + |ArgsIn(p)| < MAXARGS
    ensures ParseArgs(p + rest, args, rs) == Done(Wrap(Exec(args + ArgsIn(p)), rs + FilesIn(p)), rest)
    decreases |p|
  {
    hide Wrap, ParseRedirs, ParseArgs, Flat, ArgsIn, FilesIn, Lead;
    if p == [] {
      NoneIn<W>();
      ArgsStop(args, rs, rest);
      assert p + rest == rest && args + [] == args && rs + [] == rs;
    } else {
      var q, n := p[1..], Lead(p[1..]);
      assert p == [Word(p[0].w)] + q;
      FlatWord(p[0], q);
      LeadSplits(q);
      var files, more := q[..n], q[n..];
      assert q == files + more;
      NoRedirAhead(more, rest);
      RedirsComplete(files, more + rest);
      Assoc(files, more, rest);
      hide EndsExec, Starts;
      ArgStep(p[0].w, q + rest, args, rs, FilesIn(files), more + rest);
      Assoc([Word(p[0].w)], q, rest);
      ArgsComplete(more, args + [p[0].w], rs + FilesIn(files), rest);
      ArgsJoin(p[0].w, files, more, args, rs);
    }
  }

  lemma ArgsStop<W>(args: seq<W>, rs: seq<(W, bool)>, rest: seq<Tok<W>>)
    requires EndsExec(rest)
    ensures ParseArgs(rest, args, rs) == Done(Wrap(Exec(args), rs), rest)
  {
  }

  // ---------- the parser builds only what the grammar allows ----------

  lemma SimpleSound<W>(ts: seq<Tok<W>>)
    requires !Starts(ts, "(") && ParseExec(ts).Done?
    ensures var r := ParseExec(ts); Left(ts, r.rest) && IsSimple(Taken(ts, r.rest), r.cmd)
  {
    var r, d := ParseExec(ts), ParseRedirs(ts);
    hide Flat, ArgsIn, FilesIn, Wrap, ParseRedirs, ParseArgs, Left, Taken, EndsExec;
    RedirsTaken(ts);
    ArgsSound(d.rest, [], d.rs);
    var files, more := Taken(ts, d.rest), Taken(d.rest, r.rest);
    LeftTwice(ts, d.rest, r.rest);
    FlatAppend(files, more);
    assert [] + ArgsIn(more) == ArgsIn(more);
    WrapReads(Exec(ArgsIn(more)), d.rs + FilesIn(more));
    assert [] + (d.rs + FilesIn(more)) == d.rs + FilesIn(more);
  }

  lemma BlockSlices<W>(ts: seq<Tok<W>>, mid: seq<Tok<W>>, rest: seq<Tok<W>>)
    requires ts != [] && Left(ts[1..], mid) && mid != [] && Left(mid[1..], rest)
    ensures Left(ts, rest)
    ensures var p, k := Taken(ts, rest), |ts| - |mid|;
            && 0 < k < |p| && p[0] == ts[0] && p[k] == mid[0]
            && p[1..k] == Taken(ts[1..], mid) && p[k + 1..] == Taken(mid[1..], rest)
  {
  }

  lemma BlockJoin<W>(ts: seq<Tok<W>>, c: Cmd<W>, mid: seq<Tok<W>>, rs: seq<(W, bool)>, rest: seq<Tok<W>>)
    requires Starts(ts, "(") && Left(ts[1..], mid) && IsLine(Taken(ts[1..], mid), c) && Starts(mid, ")")
    requires ParseRedirs(mid[1..]) == Files(rs, rest)
    ensures Left(ts, rest) && BlockAt(Taken(ts, rest), Wrap(c, rs), |ts| - |mid|)
  {
    hide Flat, ArgsIn, FilesIn, Wrap, ParseRedirs, IsLine, Left, Taken, Peel, Outer;
    RedirsTaken(mid[1..]);
    BlockSlices(ts, mid, rest);
    WrapPeels(c, rs);
  }

  lemma BlockParses<W>(ts: seq<Tok<W>>)
    requires Starts(ts, "(") && ParseExec(ts).Done?
    ensures var l := ParseLine(ts[1..]);
            && l.Done? && Starts(l.rest, ")")
            && var d := ParseRedirs(l.rest[1..]); d.Files? && ParseExec(ts) == Done(Wrap(l.cmd, d.rs), d.rest)
  {
    hide ParseLine, ParseRedirs, Wrap;
    assert ParseExec(ts) == ParseBlock(ts);
  }

  lemma {:induction false} ExecSound<W>(ts: seq<Tok<W>>)
    ensures var r := ParseExec(ts); r.Done? ==> Left(ts, r.rest) && IsExec(Taken(ts, r.rest), r.cmd)
    decreases |ts|, 1
  {
    hide IsLine, IsSimple, BlockAt, ParseRedirs, Wrap, ParseExec, ParseLine;
    var r := ParseExec(ts);
    if r.Done? && Starts(ts, "(") {
      BlockParses(ts);
      LineSound(ts[1..]);
      var l := ParseLine(ts[1..]);
      var d := ParseRedirs(l.rest[1..]);
      BlockJoin(ts, l.cmd, l.rest, d.rs, d.rest);
    } else if r.Done? {
      SimpleSound(ts);
    }
  }

  lemma TakenJoin<W>(ts: seq<Tok<W>>, mid: seq<Tok<W>>, rest: seq<Tok<W>>)
    requires Left(ts, mid) && mid != [] && Left(mid[1..], rest)
    ensures Left(ts, rest)
    ensures var p, k := Taken(ts, rest), |ts| - |mid|;
            k < |p| && p[k] == mid[0] && p[..k] == Taken(ts, mid) && p[k + 1..] == Taken(mid[1..], rest)
  {
  }

  lemma {:induction false} PipeSound<W>(ts: seq<Tok<W>>)
    ensures var r := ParsePipe(ts); r.Done? ==> Left(ts, r.rest) && IsPipe(Taken(ts, r.rest), r.cmd)
    decreases |ts|, 2
  {
    hide IsExec, ParseExec, Left, Taken;
    var r := ParsePipe(ts);
    ExecSound(ts);
    var l := ParseExec(ts);
    if r.Done? && Starts(l.rest, "|") {
      PipeSound(l.rest[1..]);
      TakenJoin(ts, l.rest, r.rest);
      assert PipeAt(Taken(ts, r.rest), r.cmd, |ts| - |l.rest|);
    }
  }

  lemma {:induction false} BacksSound<W>(c: Cmd<W>, ts: seq<Tok<W>>, pre: seq<Tok<W>>)
    requires IsBack(pre, c)
    ensures var r := Backs(c, ts); Left(ts, r.rest) && IsBack(pre + Taken(ts, r.rest), r.cmd)
    decreases |ts|
  {
    hide IsPipe;
    var r := Backs(c, ts);
    if Starts(ts, "&") {
      var pre' := pre + [ts[0]];
      assert pre'[..|pre'| - 1] == pre;
      BacksSound(Back(c), ts[1..], pre');
      assert pre' + Taken(ts[1..], r.rest) == pre + Taken(ts, r.rest);
    } else {
      assert pre + Taken(ts, ts) == pre;
    }
  }

  lemma LeftTwice<W>(ts: seq<Tok<W>>, mid: seq<Tok<W>>, rest: seq<Tok<W>>)
    requires Left(ts, mid) && Left(mid, rest)
    ensures Left(ts, rest) && Taken(ts, rest) == Taken(ts, mid) + Taken(mid, rest)
  {
  }

  lemma {:induction false} LineSound<W>(ts: seq<Tok<W>>)
    ensures var r := ParseLine(ts); r.Done? ==> Left(ts, r.rest) && IsLine(Taken(ts, r.rest), r.cmd)
    decreases |ts|, 3
  {
    hide IsPipe, ParsePipe, Left, Taken, Backs;
    var r := ParseLine(ts);
    PipeSound(ts);
    var p := ParsePipe(ts);
    if r.Done? {
      BacksSound(p.cmd, p.rest, Taken(ts, p.rest));
      var b := Backs(p.cmd, p.rest);
      LeftTwice(ts, p.rest, b.rest);
      hide IsBack;
      if Starts(b.rest, ";") {
        LineSound(b.rest[1..]);
        TakenJoin(ts, b.rest, r.rest);
        assert ListAt(Taken(ts, r.rest), r.cmd, |ts| - |b.rest|);
      }
    }
  }

  // ---------- and builds it from everything the grammar allows ----------

  lemma SimpleComplete<W>(p: seq<Tok<W>>, t: Cmd<W>, rest: seq<Tok<W>>)
    requires IsSimple(p, t) && EndsExec(rest)
    ensures ParseExec(p + rest) == Done(t, rest)
  {
    assert !Starts(p + rest, "(");
    hide Flat, ArgsIn, FilesIn, Wrap, ParseRedirs, ParseArgs, Lead;
    LeadSplits(p);
    var n := Lead(p);
    var files, more := p[..n], p[n..];
    assert p == files + more;
    Assoc(files, more, rest);
    NoRedirAhead(more, rest);
    RedirsComplete(files, more + rest);
    ArgsComplete(more, [], FilesIn(files), rest);
    assert [] + ArgsIn(more) == ArgsIn(more);
    Unwrap(t);
    hide EndsExec, Base, FilesOf;
  }

  lemma BlockComplete<W>(p: seq<Tok<W>>, t: Cmd<W>, k: nat, rest: seq<Tok<W>>)
    requires BlockAt(p, t, k) && EndsExec(rest)
    requires var n := |FilesIn(p[k + 1..])|; ParseLine(p[1..k] + (p[k..] + rest)) == Done(Peel(t, n), p[k..] + rest)
    ensures ParseExec(p + rest) == Done(t, rest)
  {
    hide Flat, ArgsIn, FilesIn, Wrap, ParseRedirs, ParseLine, IsLine;
    var rs := FilesIn(p[k + 1..]);
    assert (p + rest)[1..] == p[1..k] + (p[k..] + rest);
    assert (p[k..] + rest)[1..] == p[k + 1..] + rest;
    RedirsComplete(p[k + 1..], rest);
    PeelWraps(t, |rs|);
  }

  lemma {:induction false} ExecComplete<W>(p: seq<Tok<W>>, t: Cmd<W>, rest: seq<Tok<W>>)
    requires IsExec(p, t) && EndsExec(rest)
    ensures ParseExec(p + rest) == Done(t, rest)
    decreases |p|, 1
  {
    hide ParseExec, IsSimple, IsLine;
    if IsSimple(p, t) {
      SimpleComplete(p, t, rest);
    } else {
      var k: nat :| BlockAt(p, t, k);
      LineComplete(p[1..k], Peel(t, |FilesIn(p[k + 1..])|), p[k..] + rest);
      BlockComplete(p, t, k, rest);
    }
  }

  lemma {:induction false} PipeComplete<W>(p: seq<Tok<W>>, t: Cmd<W>, rest: seq<Tok<W>>)
    requires IsPipe(p, t) && (rest == [] || Starts(rest, ")&;"))
    ensures ParsePipe(p + rest) == Done(t, rest)
    decreases |p|, 3
  {
    hide ParseExec, IsExec;
    if IsExec(p, t) {
      ExecComplete(p, t, rest);
    } else {
      var k: nat :| PipeAt(p, t, k);
      var after := p[k..] + rest;
      ExecComplete(p[..k], t.left, after);
      assert p + rest == p[..k] + after;
      PipeComplete(p[k + 1..], t.right, rest);
      assert after[1..] == p[k + 1..] + rest;
    }
  }

  lemma {:induction false} BackComplete<W>(p: seq<Tok<W>>, t: Cmd<W>, rest: seq<Tok<W>>)
    requires IsBack(p, t) && (rest == [] || Starts(rest, ")&;"))
    ensures var r := ParsePipe(p + rest); r.Done? && Backs(r.cmd, r.rest) == Backs(t, rest)
    decreases |p|, 4
  {
    hide ParsePipe, IsPipe;
    if IsPipe(p, t) {
      PipeComplete(p, t, rest);
    } else {
      var q, after := p[..|p| - 1], [Sym('&')] + rest;
      BackComplete(q, t.cmd, after);
      assert p + rest == q + after && after[1..] == rest;
    }
  }

  lemma {:induction false} LineComplete<W>(p: seq<Tok<W>>, t: Cmd<W>, rest: seq<Tok<W>>)
    requires IsLine(p, t) && (rest == [] || Starts(rest, ")"))
    ensures ParseLine(p + rest) == Done(t, rest)
    decreases |p|, 6
  {
    hide ParsePipe, IsBack;
    if IsBack(p, t) {
      BackComplete(p, t, rest);
    } else {
      var k: nat :| ListAt(p, t, k);
      var after := p[k..] + rest;
      BackComplete(p[..k], t.left, after);
      assert p + rest == p[..k] + after;
      LineComplete(p[k + 1..], t.right, rest);
      assert after[1..] == p[k + 1..] + rest;
    }
  }

  /** The parser takes a whole line for a tree if and only if the grammar does; so no line has two trees. */
  lemma ParsesExactly<W>(ts: seq<Tok<W>>, t: Cmd<W>)
    ensures ParseLine(ts) == Done(t, []) <==> IsLine(ts, t)
  {
    hide ParseLine, IsLine;
    if IsLine(ts, t) {
      LineComplete(ts, t, []);
      assert ts + [] == ts;
    }
    LineSound(ts);
    if ParseLine(ts) == Done(t, []) {
      assert Taken(ts, []) == ts;
    }
  }

  // ---------- so no word is lost ----------

  /** The arguments of all commands in a tree, from left to right. */
  function AllArgs<W>(t: Cmd<W>): seq<W>
  {
    match t
    case Exec(args) => args
    case Redir(c, _, _) => AllArgs(c)
    case Pipe(l, r) => AllArgs(l) + AllArgs(r)
    case List(l, r) => AllArgs(l) + AllArgs(r)
    case Back(c) => AllArgs(c)
  }

  /** The files of all redirections in a tree, from left to right and from the inside out. */
  function AllFiles<W>(t: Cmd<W>): seq<(W, bool)>
  {
    match t
    case Exec(_) => []
    case Redir(c, file, out) => AllFiles(c) + [(file, out)]
    case Pipe(l, r) => AllFiles(l) + AllFiles(r)
    case List(l, r) => AllFiles(l) + AllFiles(r)
    case Back(c) => AllFiles(c)
  }

  /** The words of a token sequence are those of a tree, and it does not end in the middle of a redirection. */
  ghost predicate SameWords<W>(p: seq<Tok<W>>, t: Cmd<W>)
  {
    ArgsIn(p) == AllArgs(t) && FilesIn(p) == AllFiles(t) && (p != [] ==> !RedirSym(p[|p| - 1]))
  }

  lemma InCons<W>(x: Tok<W>, q: seq<Tok<W>>)
    requires x.Sym? && !RedirSym(x)
    ensures ArgsIn([x] + q) == ArgsIn(q) && FilesIn([x] + q) == FilesIn(q)
  {
    assert ([x] + q)[1..] == q;
  }

  lemma LoneIn<W>(x: Tok<W>)
    requires x.Sym?
    ensures ArgsIn([x]) == [] && FilesIn([x]) == []
  {
    assert [x][1..] == [];
  }

  /** How many tokens the first word or symbol of a sequence takes. */
  function Head<W>(p: seq<Tok<W>>): (n: nat)
    requires p != []
    ensures 0 < n <= |p|
  {
    if RedirSym(p[0]) && |p| >= 2 && p[1].Word? then 2 else 1
  }

  lemma InHead<W>(p: seq<Tok<W>>)
    requires p != []
    ensures ArgsIn(p) == (if p[0].Word? then [p[0].w] else []) + ArgsIn(p[Head(p)..])
    ensures FilesIn(p) == (if Head(p) == 2 then [(p[1].w, p[0].c != '<')] else []) + FilesIn(p[Head(p)..])
  {
  }

  lemma {:induction false} InAppend<W>(p: seq<Tok<W>>, q: seq<Tok<W>>)
    requires p != [] ==> !RedirSym(p[|p| - 1])
    ensures ArgsIn(p + q) == ArgsIn(p) + ArgsIn(q) && FilesIn(p + q) == FilesIn(p) + FilesIn(q)
    decreases |p|
  {
    hide ArgsIn, FilesIn;
    if p == [] {
      NoneIn<W>();
      assert p + q == q;
    } else {
      var n := Head(p);
      assert Head(p + q) == n && (p + q)[n..] == p[n..] + q;
      hide RedirSym, Head;
      InHead(p);
      InHead(p + q);
      InAppend(p[n..], q);
      Assoc(if p[0].Word? then [p[0].w] else [], ArgsIn(p[n..]), ArgsIn(q));
      Assoc(if n == 2 then [(p[1].w, p[0].c != '<')] else [], FilesIn(p[n..]), FilesIn(q));
    }
  }

  /** Two parts with a symbol between them. */
  lemma WordsBetween<W>(p: seq<Tok<W>>, k: nat, l: Cmd<W>, r: Cmd<W>)
    requires k < |p| && p[k].Sym? && !RedirSym(p[k]) && SameWords(p[..k], l) && SameWords(p[k + 1..], r)
    ensures ArgsIn(p) == AllArgs(l) + AllArgs(r) && FilesIn(p) == AllFiles(l) + AllFiles(r) && !RedirSym(p[|p| - 1])
  {
    hide ArgsIn, FilesIn, AllArgs, AllFiles;
    assert p == p[..k] + ([p[k]] + p[k + 1..]);
    InAppend(p[..k], [p[k]] + p[k + 1..]);
    InCons(p[k], p[k + 1..]);
    assert k + 1 < |p| ==> p[|p| - 1] == p[k + 1..][|p| - k - 2];
  }

  lemma WordsBefore<W>(q: seq<Tok<W>>, x: Tok<W>, c: Cmd<W>)
    requires SameWords(q, c) && x.Sym? && !RedirSym(x)
    ensures SameWords(q + [x], Back(c))
  {
    hide ArgsIn, FilesIn;
    InAppend(q, [x]);
    LoneIn(x);
  }

  lemma {:induction false} BaseWords<W>(t: Cmd<W>)
    requires Base(t).Exec?
    ensures AllArgs(t) == Base(t).args && AllFiles(t) == FilesOf(t)
  {
    if t.Redir? {
      BaseWords(t.cmd);
    }
  }

  lemma {:induction false} PeelWords<W>(t: Cmd<W>, n: nat)
    requires |Outer(t, n)| == n
    ensures AllArgs(t) == AllArgs(Peel(t, n)) && AllFiles(t) == AllFiles(Peel(t, n)) + Outer(t, n)
  {
    if n > 0 && t.Redir? {
      PeelWords(t.cmd, n - 1);
    }
  }

  lemma {:induction false} FlatEnds<W>(p: seq<Tok<W>>)
    requires Flat(p)
    ensures p != [] ==> p[|p| - 1].Word?
  {
    if |p| > 1 {
      FlatEnds(if p[0].Word? then p[1..] else p[2..]);
    }
  }

  lemma BlockWords<W>(p: seq<Tok<W>>, t: Cmd<W>, k: nat)
    requires BlockAt(p, t, k) && SameWords(p[1..k], Peel(t, |FilesIn(p[k + 1..])|))
    ensures SameWords(p, t)
  {
    hide ArgsIn, FilesIn, AllArgs, AllFiles, Flat, IsLine, Peel, Outer;
    var inner, tail := p[1..k], p[k + 1..];
    PeelWords(t, |FilesIn(tail)|);
    FlatEnds(tail);
    assert p == [p[0]] + (inner + ([p[k]] + tail));
    InCons(p[0], inner + ([p[k]] + tail));
    InAppend(inner, [p[k]] + tail);
    InCons(p[k], tail);
    assert tail != [] ==> p[|p| - 1] == tail[|tail| - 1];
  }

  lemma {:induction false} ExecWords<W>(p: seq<Tok<W>>, t: Cmd<W>)
    requires IsExec(p, t)
    ensures SameWords(p, t)
    decreases |p|, 1
  {
    hide IsLine, ArgsIn, FilesIn, Flat;
    if IsSimple(p, t) {
      BaseWords(t);
      FlatEnds(p);
    } else {
      var k: nat :| BlockAt(p, t, k);
      LineWords(p[1..k], Peel(t, |FilesIn(p[k + 1..])|));
      BlockWords(p, t, k);
    }
  }

  lemma {:induction false} PipeWords<W>(p: seq<Tok<W>>, t: Cmd<W>)
    requires IsPipe(p, t)
    ensures SameWords(p, t)
    decreases |p|, 3
  {
    hide IsExec, ArgsIn, FilesIn;
    if IsExec(p, t) {
      ExecWords(p, t);
    } else {
      var k: nat :| PipeAt(p, t, k);
      ExecWords(p[..k], t.left);
      PipeWords(p[k + 1..], t.right);
      WordsBetween(p, k, t.left, t.right);
    }
  }

  lemma {:induction false} BackWords<W>(p: seq<Tok<W>>, t: Cmd<W>)
    requires IsBack(p, t)
    ensures SameWords(p, t)
    decreases |p|, 4
  {
    hide IsPipe, SameWords;
    if IsPipe(p, t) {
      PipeWords(p, t);
    } else {
      BackWords(p[..|p| - 1], t.cmd);
      WordsBefore(p[..|p| - 1], Sym('&'), t.cmd);
      assert p == p[..|p| - 1] + [Sym('&')];
    }
  }

  lemma {:induction false} LineWords<W>(p: seq<Tok<W>>, t: Cmd<W>)
    requires IsLine(p, t)
    ensures SameWords(p, t)
    decreases |p|, 6
  {
    hide IsBack, ArgsIn, FilesIn;
    if IsBack(p, t) {
      BackWords(p, t);
    } else {
      var k: nat :| ListAt(p, t, k);
      BackWords(p[..k], t.left);
      LineWords(p[k + 1..], t.right);
      WordsBetween(p, k, t.left, t.right);
    }
  }

  /** Every word of an accepted line is in the tree once, in its place: as an argument, or as the file of the redirection before it. */
  lemma NoWordLost<W>(ts: seq<Tok<W>>, t: Cmd<W>)
    requires ParseLine(ts) == Done(t, [])
    ensures AllArgs(t) == ArgsIn(ts) && AllFiles(t) == FilesIn(ts)
  {
    hide ParseLine, IsLine;
    ParsesExactly(ts, t);
    LineWords(ts, t);
  }
}
