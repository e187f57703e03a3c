/** The shell's parser treats words as they are: whatever stands for the words, it builds the same tree. */
module ShellWords {
  import opened ShellGrammar

  function MapTok<W, V>(f: W -> V, t: Tok<W>): Tok<V> { if t.Word? then Word(f(t.w)) else Sym(t.c) }

  function MapSeq<W, V>(f: W -> V, ws: seq<W>): (vs: seq<V>)
    ensures |vs| == |ws| && forall i :: 0 <= i < |ws| ==> vs[i] == f(ws[i])
  {
    seq(|ws|, i requires 0 <= i < |ws| => f(ws[i]))
  }

  function MapToks<W, V>(f: W -> V, ts: seq<Tok<W>>): (us: seq<Tok<V>>)
    ensures |us| == |ts| && forall i :: 0 <= i < |ts| ==> us[i] == MapTok(f, ts[i])
  {
    seq(|ts|, i requires 0 <= i < |ts| => MapTok(f, ts[i]))
  }

  function MapFiles<W, V>(f: W -> V, rs: seq<(W, bool)>): (us: seq<(V, bool)>)
    ensures |us| == |rs| && forall i :: 0 <= i < |rs| ==> us[i] == (f(rs[i].0), rs[i].1)
  {
    seq(|rs|, i requires 0 <= i < |rs| => (f(rs[i].0), rs[i].1))
  }

  function MapCmd<W, V>(f: W -> V, c: Cmd<W>): Cmd<V>
  {
    match c
    case Exec(args) => Exec(MapSeq(f, args))
    case Redir(c', file, out) => Redir(MapCmd(f, c'), f(file), out)
    case Pipe(l, r) => Pipe(MapCmd(f, l), MapCmd(f, r))
    case List(l, r) => List(MapCmd(f, l), MapCmd(f, r))
    case Back(c') => Back(MapCmd(f, c'))
  }

  function MapResult<W, V>(f: W -> V, r: Result<W>): Result<V>
  {
    match r
    case Fail => Fail
    case Done(c, rest) => Done(MapCmd(f, c), MapToks(f, rest))
  }

  function MapRedirs<W, V>(f: W -> V, r: Redirs<W>): Redirs<V>
  {
    match r
    case NoFile => NoFile
    case Files(rs, rest) => Files(MapFiles(f, rs), MapToks(f, rest))
  }

  lemma ToksTail<W, V>(f: W -> V, ts: seq<Tok<W>>, n: nat)
    requires n <= |ts|
    ensures MapToks(f, ts)[n..] == MapToks(f, ts[n..])
  {
  }

  lemma FilesCons<W, V>(f: W -> V, x: (W, bool), rs: seq<(W, bool)>)
    ensures MapFiles(f, [x] + rs) == [(f(x.0), x.1)] + MapFiles(f, rs)
  {
  }

  lemma {:induction false} RedirsNatural<W, V>(f: W -> V, ts: seq<Tok<W>>)
    ensures ParseRedirs(MapToks(f, ts)) == MapRedirs(f, ParseRedirs(ts))
    decreases |ts|
  {
    if Starts(ts, "<>+") && |ts| >= 2 && ts[1].Word? {
      ToksTail(f, ts, 2);
      RedirsNatural(f, ts[2..]);
      var r := ParseRedirs(ts[2..]);
      if r.Files? {
        FilesCons(f, (ts[1].w, ts[0].c != '<'), r.rs);
      }
    } else if !Starts(ts, "<>+") {
      assert MapFiles(f, []) == [];
    }
  }

  lemma {:induction false} WrapNatural<W, V>(f: W -> V, c: Cmd<W>, rs: seq<(W, bool)>)
    ensures Wrap(MapCmd(f, c), MapFiles(f, rs)) == MapCmd(f, Wrap(c, rs))
    decreases |rs|
  {
    if rs != [] {
      WrapNatural(f, Redir(c, rs[0].0, rs[0].1), rs[1..]);
      assert MapFiles(f, rs)[1..] == MapFiles(f, rs[1..]);
    }
  }

  lemma MapExec<W, V>(f: W -> V, args: seq<W>)
    ensures MapCmd(f, Exec(args)) == Exec(MapSeq(f, args))
  {
  }

  lemma {:induction false} ArgsNatural<W, V>(f: W -> V, ts: seq<Tok<W>>, args: seq<W>, rs: seq<(W, bool)>)
    ensures ParseArgs(MapToks(f, ts), MapSeq(f, args), MapFiles(f, rs)) == MapResult(f, ParseArgs(ts, args, rs))
    decreases |ts|
  {
    hide ParseRedirs, Wrap, MapCmd;
    if ts == [] || Starts(ts, "|)&;") {
      assert MapCmd(f, Exec(args)) == Exec(MapSeq(f, args)) by { MapExec(f, args); }
      WrapNatural(f, Exec(args), rs);
    } else if ts[0].Word? && |args| + 1 < MAXARGS {
      ToksTail(f, ts, 1);
      RedirsNatural(f, ts[1..]);
      var r := ParseRedirs(ts[1..]);
      if r.Files? {
        ArgsNatural(f, r.rest, args + [ts[0].w], rs + r.rs);
        assert MapSeq(f, args + [ts[0].w]) == MapSeq(f, args) + [f(ts[0].w)];
        assert MapFiles(f, rs + r.rs) == MapFiles(f, rs) + MapFiles(f, r.rs);
      }
    }
  }

  lemma {:induction false} ExecNatural<W, V>(f: W -> V, ts: seq<Tok<W>>)
    ensures ParseExec(MapToks(f, ts)) == MapResult(f, ParseExec(ts))
    decreases |ts|, 1
  {
    if Starts(ts, "(") {
      BlockNatural(f, ts);
    } else {
      RedirsNatural(f, ts);
      var r := ParseRedirs(ts);
      if r.Files? {
        ArgsNatural(f, r.rest, [], r.rs);
        assert MapSeq(f, []) == [];
      }
    }
  }

  lemma {:induction false} BlockNatural<W, V>(f: W -> V, ts: seq<Tok<W>>)
    requires Starts(ts, "(")
    ensures ParseBlock(MapToks(f, ts)) == MapResult(f, ParseBlock(ts))
    decreases |ts|, 0
  {
    ToksTail(f, ts, 1);
    LineNatural(f, ts[1..]);
    var r := ParseLine(ts[1..]);
    if r.Done? && Starts(r.rest, ")") {
      ToksTail(f, r.rest, 1);
      RedirsNatural(f, r.rest[1..]);
      var rs := ParseRedirs(r.rest[1..]);
      if rs.Files? {
        WrapNatural(f, r.cmd, rs.rs);
      }
    }
  }

  lemma {:induction false} PipeNatural<W, V>(f: W -> V, ts: seq<Tok<W>>)
    ensures ParsePipe(MapToks(f, ts)) == MapResult(f, ParsePipe(ts))
    decreases |ts|, 2
  {
    ExecNatural(f, ts);
    var r := ParseExec(ts);
    if r.Done? && Starts(r.rest, "|") {
      ToksTail(f, r.rest, 1);
      PipeNatural(f, r.rest[1..]);
    }
  }

  lemma {:induction false} BacksNatural<W, V>(f: W -> V, c: Cmd<W>, ts: seq<Tok<W>>)
    ensures Backs(MapCmd(f, c), MapToks(f, ts)) == MapResult(f, Backs(c, ts))
    decreases |ts|
  {
    if Starts(ts, "&") {
      ToksTail(f, ts, 1);
      BacksNatural(f, Back(c), ts[1..]);
    }
  }

  /** The parser commutes with any change of what stands for a word. */
  lemma {:induction false} LineNatural<W, V>(f: W -> V, ts: seq<Tok<W>>)
    ensures ParseLine(MapToks(f, ts)) == MapResult(f, ParseLine(ts))
    decreases |ts|, 3
  {
    PipeNatural(f, ts);
    var p := ParsePipe(ts);
    if p.Done? {
      BacksNatural(f, p.cmd, p.rest);
      var b := Backs(p.cmd, p.rest);
      if Starts(b.rest, ";") {
        ToksTail(f, b.rest, 1);
        LineNatural(f, b.rest[1..]);
      }
    }
  }

  /** Every word of a tree has a property. */
  predicate Every<W>(p: W -> bool, c: Cmd<W>)
  {
    match c
    case Exec(args) => forall i :: 0 <= i < |args| ==> p(args[i])
    case Redir(c', file, _) => Every(p, c') && p(file)
    case Pipe(l, r) => Every(p, l) && Every(p, r)
    case List(l, r) => Every(p, l) && Every(p, r)
    case Back(c') => Every(p, c')
  }

  lemma {:induction false} EveryMapped<W, V>(p: V -> bool, f: W -> V, c: Cmd<W>)
    requires forall w :: p(f(w))
    ensures Every(p, MapCmd(f, c))
  {
    match c
    case Exec(args) =>
    case Redir(c', file, _) => EveryMapped(p, f, c');
    case Pipe(l, r) => EveryMapped(p, f, l); EveryMapped(p, f, r);
    case List(l, r) => EveryMapped(p, f, l); EveryMapped(p, f, r);
    case Back(c') => EveryMapped(p, f, c');
  }

  /** The words of the tree are words of the line. `x` is any word with the property. */
  lemma {:induction false} EveryParsed<W>(p: W -> bool, ts: seq<Tok<W>>, x: W)
    requires p(x) && forall i :: 0 <= i < |ts| && ts[i].Word? ==> p(ts[i].w)
    ensures ParseLine(ts).Done? ==> Every(p, ParseLine(ts).cmd)
  {
    var f: W -> W := w => if p(w) then w else x;
    assert MapToks(f, ts) == ts;
    LineNatural(f, ts);
    if ParseLine(ts).Done? {
      EveryMapped(p, f, ParseLine(ts).cmd);
    }
  }

  lemma {:induction false} EveryBoth<W>(p: W -> bool, q: W -> bool, r: W -> bool, c: Cmd<W>)
    requires Every(p, c) && Every(q, c) && forall w :: p(w) && q(w) ==> r(w)
    ensures Every(r, c)
  {
    match c
    case Exec(args) =>
    case Redir(c', file, _) => EveryBoth(p, q, r, c');
    case Pipe(a, b) => EveryBoth(p, q, r, a); EveryBoth(p, q, r, b);
    case List(a, b) => EveryBoth(p, q, r, a); EveryBoth(p, q, r, b);
    case Back(c') => EveryBoth(p, q, r, c');
  }
}
