/**
 The command language of bin/sh/sh.c: command trees, the tokens they print to, and what the
 recursive descent of lines 344-446 makes of a token sequence. `W` is what stands for a word:
 its text, or where it lies in the line.
 */
module ShellGrammar {

  /** A parsed command. `>` and `>>` open a file alike, so a redirection only has a direction. */
  datatype Cmd<W> =
    | Exec(args: seq<W>)
    | Redir(cmd: Cmd<W>, file: W, out: bool)
    | Pipe(left: Cmd<W>, right: Cmd<W>)
    | List(left: Cmd<W>, right: Cmd<W>)
    | Back(cmd: Cmd<W>)

  /** A token: a word, or a symbol; `+` stands for `>>`. */
  datatype Tok<W> = Word(w: W) | Sym(c: char)

  datatype Result<W> = Fail | Done(cmd: Cmd<W>, rest: seq<Tok<W>>)

  const MAXARGS: nat := 10

  predicate Starts<W>(ts: seq<Tok<W>>, cs: string) { ts != [] && ts[0].Sym? && ts[0].c in cs }

  // ---------- what the parser computes ----------

  datatype Redirs<W> = NoFile | Files(rs: seq<(W, bool)>, rest: seq<Tok<W>>)

  /** parseredirs: the files it wraps around a command, first one innermost. */
  function ParseRedirs<W>(ts: seq<Tok<W>>): (r: Redirs<W>)
    ensures r.Files? ==> |r.rest| <= |ts|
  {
    if !Starts(ts, "<>+") then Files([], ts)
    else if |ts| < 2 || !ts[1].Word? then NoFile
    else
      match ParseRedirs(ts[2..])
      case NoFile => NoFile
      case Files(rs, rest) => Files([(ts[1].w, ts[0].c != '<')] + rs, rest)
  }

  function Wrap<W>(c: Cmd<W>, rs: seq<(W, bool)>): Cmd<W>
    decreases |rs|
  {
    if rs == [] then c else Wrap(Redir(c, rs[0].0, rs[0].1), rs[1..])
  }

  /** The loop of parseexec, with the words and redirections so far. */
  function ParseArgs<W>(ts: seq<Tok<W>>, args: seq<W>, rs: seq<(W, bool)>): (r: Result<W>)
    ensures r.Done? ==> |r.rest| <= |ts|
    decreases |ts|
  {
    if ts == [] || Starts(ts, "|)&;") then Done(Wrap(Exec(args), rs), ts)
    else if !ts[0].Word? || |args| + 1 >= MAXARGS then Fail
    else
      match ParseRedirs(ts[1..])
      case NoFile => Fail
      case Files(more, rest) => ParseArgs(rest, args + [ts[0].w], rs + more)
  }

  function ParseExec<W>(ts: seq<Tok<W>>): (r: Result<W>)
    ensures r.Done? ==> |r.rest| <= |ts|
    decreases |ts|, 1
  {
    if Starts(ts, "(") then ParseBlock(ts)
    else
      match ParseRedirs(ts)
      case NoFile => Fail
      case Files(rs, rest) => ParseArgs(rest, [], rs)
  }

  function ParseBlock<W>(ts: seq<Tok<W>>): (r: Result<W>)
    requires Starts(ts, "(")
    ensures r.Done? ==> |r.rest| <= |ts|
    decreases |ts|, 0
  {
    match ParseLine(ts[1..])
    case Fail => Fail
    case Done(c, rest) =>
      if !Starts(rest, ")") then Fail
      else
        match ParseRedirs(rest[1..])
        case NoFile => Fail
        case Files(rs, rest') => Done(Wrap(c, rs), rest')
  }

  function ParsePipe<W>(ts: seq<Tok<W>>): (r: Result<W>)
    ensures r.Done? ==> |r.rest| <= |ts|
    decreases |ts|, 2
  {
    match ParseExec(ts)
    case Fail => Fail
    case Done(l, rest) =>
      if !Starts(rest, "|") then Done(l, rest)
      else
        match ParsePipe(rest[1..])
        case Fail => Fail
        case Done(r, rest') => Done(Pipe(l, r), rest')
  }

  /** The `&` loop of parseline. */
  function Backs<W>(c: Cmd<W>, ts: seq<Tok<W>>): (r: Result<W>)
    ensures r.Done? && |r.rest| <= |ts|
    decreases |ts|
  {
    if Starts(ts, "&") then Backs(Back(c), ts[1..]) else Done(c, ts)
  }

  function ParseLine<W>(ts: seq<Tok<W>>): (r: Result<W>)
    ensures r.Done? ==> |r.rest| <= |ts|
    decreases |ts|, 3
  {
    match ParsePipe(ts)
    case Fail => Fail
    case Done(c, rest) =>
      match Backs(c, rest)
      case Fail => Fail
      case Done(l, rest) =>
        if !Starts(rest, ";") then Done(l, rest)
        else
          match ParseLine(rest[1..])
          case Fail => Fail
          case Done(r, rest') => Done(List(l, r), rest')
  }

  // ---------- printing, with parentheses where the grammar needs them ----------

  function Words<W>(args: seq<W>): (ts: seq<Tok<W>>)
    ensures |ts| == |args|
  {
    seq(|args|, k requires 0 <= k < |args| => Word(args[k]))
  }

  function Print<W>(t: Cmd<W>): seq<Tok<W>>
    decreases t, 0
  {
    match t
    case Exec(args) => Words(args)
    case Redir(c, f, out) => AtExec(c) + [Sym(if out then '>' else '<'), Word(f)]
    case Pipe(l, r) => AtExec(l) + [Sym('|')] + AtPipe(r)
    case Back(c) => AtBack(c) + [Sym('&')]
    case List(l, r) => AtBack(l) + [Sym(';')] + Print(r)
  }

  function AtExec<W>(t: Cmd<W>): seq<Tok<W>>
    decreases t, 1
  {
    if t.Exec? || t.Redir? then Print(t) else [Sym('(')] + Print(t) + [Sym(')')]
  }

  function AtPipe<W>(t: Cmd<W>): seq<Tok<W>>
    decreases t, 1
  {
    if t.Exec? || t.Redir? || t.Pipe? then Print(t) else [Sym('(')] + Print(t) + [Sym(')')]
  }

  function AtBack<W>(t: Cmd<W>): seq<Tok<W>>
    decreases t, 1
  {
    if t.List? then [Sym('(')] + Print(t) + [Sym(')')] else Print(t)
  }

  /** At most nine words to a command: exactly the trees that the parser can build, by BuildsSmall. */
  predicate Small<W>(t: Cmd<W>)
  {
    match t
    case Exec(args) => |args| < MAXARGS
    case Redir(c, _, _) => Small(c)
    case Pipe(l, r) => Small(l) && Small(r)
    case List(l, r) => Small(l) && Small(r)
    case Back(c) => Small(c)
  }

  // ---------- redirections ----------

  function Base<W>(t: Cmd<W>): (b: Cmd<W>)
    ensures !b.Redir? && (Small(t) ==> Small(b)) && (t.Redir? ==> b < t)
  {
    if t.Redir? then Base(t.cmd) else t
  }

  function FilesOf<W>(t: Cmd<W>): seq<(W, bool)> { if t.Redir? then FilesOf(t.cmd) + [(t.file, t.out)] else [] }

  function RedirToks<W>(rs: seq<(W, bool)>): seq<Tok<W>>
  {
    if rs == [] then [] else [Sym(if rs[0].1 then '>' else '<'), Word(rs[0].0)] + RedirToks(rs[1..])
  }

  lemma {:induction false} WrapLast<W>(c: Cmd<W>, rs: seq<(W, bool)>, r: (W, bool))
    ensures Wrap(c, rs + [r]) == Redir(Wrap(c, rs), r.0, r.1)
    decreases |rs|
  {
    if rs != [] {
      WrapLast(Redir(c, rs[0].0, rs[0].1), rs[1..], r);
      assert (rs + [r])[1..] == rs[1..] + [r];
    }
  }

  lemma {:induction false} RedirToksLast<W>(rs: seq<(W, bool)>, r: (W, bool))
    ensures RedirToks(rs + [r]) == RedirToks(rs) + [Sym(if r.1 then '>' else '<'), Word(r.0)]
  {
    if rs != [] {
      RedirToksLast(rs[1..], r);
      assert (rs + [r])[1..] == rs[1..] + [r];
    }
  }

  /** A tree is its base with files wrapped around it, and prints so. */
  lemma {:induction false} Unwrap<W>(t: Cmd<W>)
    ensures Wrap(Base(t), FilesOf(t)) == t
    ensures AtExec(t) == AtExec(Base(t)) + RedirToks(FilesOf(t))
  {
    if t.Redir? {
      Unwrap(t.cmd);
      WrapLast(Base(t), FilesOf(t.cmd), (t.file, t.out));
      RedirToksLast(FilesOf(t.cmd), (t.file, t.out));
    }
  }

  lemma RedirStep<W>(out: bool, f: W, tail: seq<Tok<W>>, rs: seq<(W, bool)>, rest: seq<Tok<W>>)
    requires ParseRedirs(tail) == Files(rs, rest)
    ensures ParseRedirs([Sym(if out then '>' else '<'), Word(f)] + tail) == Files([(f, out)] + rs, rest)
  {
    var ts := [Sym(if out then '>' else '<'), Word(f)] + tail;
    assert ts[2..] == tail;
  }

  lemma RedirToksCons<W>(rs: seq<(W, bool)>)
    requires rs != []
    ensures RedirToks(rs) == [Sym(if rs[0].1 then '>' else '<'), Word(rs[0].0)] + RedirToks(rs[1..])
  {
  }

  lemma NoRedirs<W>(ts: seq<Tok<W>>)
    requires !Starts(ts, "<>+")
    ensures ParseRedirs(ts) == Files([], ts)
  {
  }

  lemma Assoc<T>(a: seq<T>, b: seq<T>, c: seq<T>)
    ensures a + b + c == a + (b + c)
  {
  }

  lemma FirstAndRest<T>(s: seq<T>)
    requires s != []
    ensures [s[0]] + s[1..] == s
  {
  }

  lemma RedirsCons<W>(rs: seq<(W, bool)>, rest: seq<Tok<W>>)
    requires rs != [] && ParseRedirs(RedirToks(rs[1..]) + rest) == Files(rs[1..], rest)
    ensures ParseRedirs(RedirToks(rs) + rest) == Files(rs, rest)
  {
    hide ParseRedirs, RedirToks;
    RedirToksCons(rs);
    RedirStep(rs[0].1, rs[0].0, RedirToks(rs[1..]) + rest, rs[1..], rest);
    Assoc([Sym(if rs[0].1 then '>' else '<'), Word(rs[0].0)], RedirToks(rs[1..]), rest);
    FirstAndRest(rs);
  }

  lemma {:induction false} RedirsBack<W>(rs: seq<(W, bool)>, rest: seq<Tok<W>>)
    requires !Starts(rest, "<>+")
    ensures ParseRedirs(RedirToks(rs) + rest) == Files(rs, rest)
  {
    hide ParseRedirs;
    if rs == [] {
      assert RedirToks(rs) + rest == rest;
      NoRedirs(rest);
    } else {
      RedirsBack(rs[1..], rest);
      RedirsCons(rs, rest);
    }
  }

  // ---------- round trip ----------

  predicate EndsExec<W>(ts: seq<Tok<W>>) { ts == [] || Starts(ts, "|)&;") }

  /** One round of parseexec's loop. */
  lemma ArgStep<W>(w: W, tail: seq<Tok<W>>, done: seq<W>, rs: seq<(W, bool)>, more: seq<(W, bool)>, rest: seq<Tok<W>>)
    requires |done| + 1 < MAXARGS && ParseRedirs(tail) == Files(more, rest)
    ensures ParseArgs([Word(w)] + tail, done, rs) == ParseArgs(rest, done + [w], rs + more)
  {
    hide ParseRedirs;
    var ts := [Word(w)] + tail;
    assert ts[1..] == tail;
  }

  lemma {:induction false} ArgsBack<W>(done: seq<W>, todo: seq<W>, rs: seq<(W, bool)>, rest: seq<Tok<W>>)
    requires EndsExec(rest) && |done| + |todo| < MAXARGS && todo != []
    ensures ParseArgs(Words(todo) + RedirToks(rs) + rest, done, []) == Done(Wrap(Exec(done + todo), rs), rest)
    decreases |todo|
  {
    hide RedirToks, ParseRedirs;
    var none: seq<(W, bool)> := [];
    var tail := Words(todo[1..]) + RedirToks(rs) + rest;
    assert Words(todo) == [Word(todo[0])] + Words(todo[1..]);
    assert Words(todo) + RedirToks(rs) + rest == [Word(todo[0])] + tail;
    if |todo| == 1 {
      assert tail == RedirToks(rs) + rest;
      RedirsBack(rs, rest);
      ArgStep(todo[0], tail, done, none, rs, rest);
      assert none + rs == rs && done + [todo[0]] == done + todo;
    } else {
      assert tail[0] == Word(todo[1]);
      NoRedirs(tail);
      ArgStep(todo[0], tail, done, none, none, tail);
      assert none + none == none;
      ArgsBack(done + [todo[0]], todo[1..], rs, rest);
      assert done + [todo[0]] + todo[1..] == done + todo;
    }
  }

  lemma {:induction false} WordsBack<W>(args: seq<W>, rs: seq<(W, bool)>, rest: seq<Tok<W>>)
    requires EndsExec(rest) && |args| < MAXARGS
    ensures ParseExec(Words(args) + RedirToks(rs) + rest) == Done(Wrap(Exec(args), rs), rest)
  {
    var ts := Words(args) + RedirToks(rs) + rest;
    if args == [] {
      assert ts == RedirToks(rs) + rest;
      RedirsBack(rs, rest);
    } else {
      assert ts[0] == Word(args[0]);
      NoRedirs(ts);
      ArgsBack([], args, rs, rest);
      assert [] + args == args;
    }
  }

  lemma {:induction false} BlockBack<W>(b: Cmd<W>, rs: seq<(W, bool)>, rest: seq<Tok<W>>, ts: seq<Tok<W>>)
    requires EndsExec(rest) && ts == [Sym('(')] + Print(b) + [Sym(')')] + RedirToks(rs) + rest
    requires ParseLine(Print(b) + ([Sym(')')] + (RedirToks(rs) + rest))) == Done(b, [Sym(')')] + (RedirToks(rs) + rest))
    ensures ParseExec(ts) == Done(Wrap(b, rs), rest)
  {
    hide ParseLine, ParseRedirs, Print, RedirToks, Wrap;
    var after := [Sym(')')] + (RedirToks(rs) + rest);
    assert ts[0] == Sym('(') && ts[1..] == Print(b) + after;
    assert after[1..] == RedirToks(rs) + rest;
    RedirsBack(rs, rest);
  }

  predicate Simple<W>(t: Cmd<W>) { t.Exec? || t.Redir? }

  lemma {:induction false} ExecBack<W>(t: Cmd<W>, rest: seq<Tok<W>>)
    requires Small(t) && EndsExec(rest)
    ensures ParseExec(AtExec(t) + rest) == Done(t, rest)
    decreases t, if Simple(t) then 0 else 4
  {
    hide ParseExec, ParseLine, RedirToks, Print;
    var b, rs := Base(t), FilesOf(t);
    Unwrap(t);
    if b.Exec? {
      WordsBack(b.args, rs, rest);
      assert AtExec(b) == Words(b.args) by { PrintExec(b); }
    } else {
      LineBack(b, [Sym(')')] + (RedirToks(rs) + rest));
      BlockBack(b, rs, rest, AtExec(t) + rest);
    }
  }

  lemma PrintExec<W>(b: Cmd<W>)
    requires b.Exec?
    ensures Print(b) == Words(b.args)
  {
  }

  lemma SamePrint<W>(t: Cmd<W>)
    requires !t.Pipe?
    ensures AtPipe(t) == AtExec(t)
  {
  }

  lemma {:induction false} PipeBack<W>(t: Cmd<W>, rest: seq<Tok<W>>)
    requires Small(t) && (rest == [] || Starts(rest, ")&;"))
    ensures ParsePipe(AtPipe(t) + rest) == Done(t, rest)
    decreases t, if Simple(t) || t.Pipe? then 1 else 5
  {
    hide ParseExec, AtExec;
    if t.Pipe? {
      var after := [Sym('|')] + (AtPipe(t.right) + rest);
      ExecBack(t.left, after);
      assert AtPipe(t) + rest == AtExec(t.left) + after;
      PipeBack(t.right, rest);
      assert after[1..] == AtPipe(t.right) + rest;
    } else {
      SamePrint(t);
      ExecBack(t, rest);
    }
  }

  function Front<W>(t: Cmd<W>): (f: Cmd<W>)
    ensures !f.Back? && (Small(t) ==> Small(f)) && (t.Back? ==> f < t)
  {
    if t.Back? then Front(t.cmd) else t
  }

  function Amps<W>(t: Cmd<W>): seq<Tok<W>> { if t.Back? then Amps(t.cmd) + [Sym('&')] else [] }

  lemma {:induction false} FrontPrints<W>(t: Cmd<W>)
    ensures AtBack(t) == AtPipe(Front(t)) + Amps(t)
  {
    if t.Back? {
      FrontPrints(t.cmd);
    }
  }

  lemma {:induction false} AmpsBack<W>(t: Cmd<W>, rest: seq<Tok<W>>)
    ensures Backs(Front(t), Amps(t) + rest) == Backs(t, rest)
  {
    if t.Back? {
      var after := [Sym('&')] + rest;
      AmpsBack(t.cmd, after);
      assert Amps(t) + rest == Amps(t.cmd) + after;
      assert after[1..] == rest;
    } else {
      assert Amps(t) + rest == rest;
    }
  }

  /** The part of a line before a `;`. */
  lemma {:induction false} BackBack<W>(t: Cmd<W>, rest: seq<Tok<W>>)
    requires Small(t) && (rest == [] || Starts(rest, ");"))
    ensures var r := ParsePipe(AtBack(t) + rest); r.Done? && Backs(r.cmd, r.rest) == Done(t, rest)
    decreases t, if t.List? then 6 else 2
  {
    FrontPrints(t);
    AmpsStart(t, rest);
    assert AtBack(t) + rest == AtPipe(Front(t)) + (Amps(t) + rest);
    PipeBack(Front(t), Amps(t) + rest);
    AmpsBack(t, rest);
  }

  lemma AmpsStart<W>(t: Cmd<W>, rest: seq<Tok<W>>)
    requires rest == [] || Starts(rest, ");")
    ensures Amps(t) + rest == [] || Starts(Amps(t) + rest, ")&;")
  {
    if t.Back? {
      AmpsStart(t.cmd, rest);
      assert Amps(t) + rest == Amps(t.cmd) + [Sym('&')] + rest;
    }
  }

  lemma {:induction false} LineBack<W>(t: Cmd<W>, rest: seq<Tok<W>>)
    requires Small(t) && (rest == [] || Starts(rest, ")"))
    ensures ParseLine(Print(t) + rest) == Done(t, rest)
    decreases t, 3
  {
    hide ParsePipe;
    if t.List? {
      var after := [Sym(';')] + (Print(t.right) + rest);
      BackBack(t.left, after);
      assert Print(t) + rest == AtBack(t.left) + after;
      LineBack(t.right, rest);
      assert after[1..] == Print(t.right) + rest;
    } else {
      BackBack(t, rest);
    }
  }

  // ---------- what the parser builds ----------

  lemma {:induction false} WrapSmall<W>(c: Cmd<W>, rs: seq<(W, bool)>)
    ensures Small(Wrap(c, rs)) == Small(c)
    decreases |rs|
  {
    if rs != [] {
      WrapSmall(Redir(c, rs[0].0, rs[0].1), rs[1..]);
    }
  }

  lemma {:induction false} ArgsSmall<W>(ts: seq<Tok<W>>, args: seq<W>, rs: seq<(W, bool)>)
    requires |args| < MAXARGS
    ensures var r := ParseArgs(ts, args, rs); r.Done? ==> Small(r.cmd)
    decreases |ts|
  {
    if ts == [] || Starts(ts, "|)&;") {
      WrapSmall(Exec(args), rs);
    } else if ts[0].Word? && |args| + 1 < MAXARGS {
      var r := ParseRedirs(ts[1..]);
      if r.Files? {
        ArgsSmall(r.rest, args + [ts[0].w], rs + r.rs);
      }
    }
  }

  lemma {:induction false} ExecSmall<W>(ts: seq<Tok<W>>)
    ensures ParseExec(ts).Done? ==> Small(ParseExec(ts).cmd)
    decreases |ts|, 1
  {
    var r := ParseRedirs(ts);
    if Starts(ts, "(") {
      LineSmall(ts[1..]);
      var l := ParseLine(ts[1..]);
      if l.Done? && Starts(l.rest, ")") {
        var rs := ParseRedirs(l.rest[1..]);
        if rs.Files? {
          WrapSmall(l.cmd, rs.rs);
        }
      }
    } else if r.Files? {
      ArgsSmall(r.rest, [], r.rs);
    }
  }

  lemma {:induction false} PipeSmall<W>(ts: seq<Tok<W>>)
    ensures ParsePipe(ts).Done? ==> Small(ParsePipe(ts).cmd)
    decreases |ts|, 2
  {
    ExecSmall(ts);
    var r := ParseExec(ts);
    if r.Done? && Starts(r.rest, "|") {
      PipeSmall(r.rest[1..]);
    }
  }

  lemma {:induction false} BacksSmall<W>(c: Cmd<W>, ts: seq<Tok<W>>)
    ensures Small(Backs(c, ts).cmd) == Small(c)
    decreases |ts|
  {
    if Starts(ts, "&") {
      BacksSmall(Back(c), ts[1..]);
    }
  }

  lemma {:induction false} LineSmall<W>(ts: seq<Tok<W>>)
    ensures ParseLine(ts).Done? ==> Small(ParseLine(ts).cmd)
    decreases |ts|, 3
  {
    PipeSmall(ts);
    var p := ParsePipe(ts);
    if p.Done? {
      BacksSmall(p.cmd, p.rest);
      var b := Backs(p.cmd, p.rest);
      if Starts(b.rest, ";") {
        LineSmall(b.rest[1..]);
      }
    }
  }

  /** Some tokens parse to a tree if and only if it has at most nine words to a command. */
  lemma BuildsSmall<W>(t: Cmd<W>)
    ensures (exists ts :: ParseLine(ts).Done? && ParseLine(ts).cmd == t) <==> Small(t)
  {
    hide ParseLine, Small, Print;
    if Small(t) {
      LineBack(t, []);
      assert Print(t) + [] == Print(t);
      assert ParseLine(Print(t)).Done?;
    }
    forall ts | ParseLine(ts).Done? && ParseLine(ts).cmd == t ensures Small(t) {
      LineSmall(ts);
    }
  }

  /** Whatever was parsed, printed and parsed again, is the same tree. */
  lemma ParsePrintParse<W>(ts: seq<Tok<W>>)
    requires ParseLine(ts).Done?
    ensures ParseLine(Print(ParseLine(ts).cmd)) == Done(ParseLine(ts).cmd, [])
  {
    hide ParseLine, Small, Print;
    var t := ParseLine(ts).cmd;
    LineSmall(ts);
    LineBack(t, []);
    assert Print(t) + [] == Print(t);
  }
}
