/** Path names: skipelem and namex of fs/sfs/fs.c:601-694. */
module Paths {
  import opened Common
  import opened Links

  /** Where the name that starts a path ends. */
  function NameLen(p: string): (n: nat)
    ensures n <= |p| && (n < |p| ==> p[n] == '/') && forall i :: 0 <= i < n ==> p[i] != '/'
  {
    if p == "" || p[0] == '/' then 0 else 1 + NameLen(p[1..])
  }

  /** The names of a path, without the slashes, each cut to DIRSIZ. */
  function Elements(p: string): seq<string>
  {
    if p == "" then []
    else if p[0] == '/' then Elements(p[1..])
    else [Cut(p[..NameLen(p)])] + Elements(p[NameLen(p)..])
  }

  method SkipSlashes(path: string, i: nat) returns (j: nat)
    requires i <= |path|
    ensures i <= j <= |path| && Elements(path[j..]) == Elements(path[i..]) && (j < |path| ==> path[j] != '/')
  {
    j := i;
    while j < |path| && path[j] == '/'
      invariant i <= j <= |path| && Elements(path[j..]) == Elements(path[i..])
    {
      assert path[j..][1..] == path[j + 1..];
      j := j + 1;
    }
  }

  method SkipName(path: string, i: nat) returns (j: nat)
    requires i <= |path|
    ensures i <= j <= |path| && j == i + NameLen(path[i..])
  {
    j := i;
    while j < |path| && path[j] != '/'
      invariant i <= j <= |path| && i + NameLen(path[i..]) == j + NameLen(path[j..])
    {
      assert path[j..][1..] == path[j + 1..];
      j := j + 1;
    }
  }

  /** skipelem: the first name and what follows it, or None where there is no name. */
  method Skipelem(path: string) returns (r: Option<(string, string)>)
    ensures r.None? <==> Elements(path) == []
    ensures r.Some? ==> Elements(path) == [r.value.0] + Elements(r.value.1)
    ensures r.Some? ==> (r.value.1 == "" <==> Elements(r.value.1) == []) && |r.value.1| < |path|
  {
    assert path[0..] == path;
    var s := SkipSlashes(path, 0);
    if s == |path| {
      return None;
    }
    var e := SkipName(path, s);
    ghost var p := path[s..];
    assert p[..NameLen(p)] == path[s..e] && p[NameLen(p)..] == path[e..];
    var rest := SkipSlashes(path, e);
    r := Some((Cut(path[s..e]), path[rest..]));
  }

  // ---------- resolving names ----------

  /** The inode that a directory gives for a name: that of the first entry in use with the name. */
  function Target(es: seq<Dirent>, name: string): Option<nat>
  {
    if es == [] then None
    else if es[0].inum != 0 && es[0].name == Cut(name) then Some(es[0].inum)
    else Target(es[1..], name)
  }

  lemma {:induction false} TargetAbsent(es: seq<Dirent>, name: string)
    requires Absent(es, name)
    ensures Target(es, name) == None
  {
    if es != [] {
      assert es[0].inum != 0 ==> es[0].name != Cut(name);
      assert Absent(es[1..], name);
      TargetAbsent(es[1..], name);
    }
  }

  lemma {:induction false} TargetFound(es: seq<Dirent>, name: string, k: nat)
    requires k < |es| && es[k].inum != 0 && es[k].name == Cut(name) && Absent(es[..k], name)
    ensures Target(es, name) == Some(es[k].inum)
  {
    if k > 0 {
      assert es[..k][0] == es[0];
      assert es[1..][..k - 1] == es[..k][1..];
      TargetFound(es[1..], name, k - 1);
    }
  }

  predicate IsDir(ns: Nodes, i: nat) { i in ns && ns[i].kind == Directory }

  /** How a walk ends. ilock panics on an inode that has no type, as a freed one. */
  datatype Walk = Reached(i: nat) | Missing | Panic

  /** Following names from inode `i`; every one but the last must name a directory. */
  function Resolve(ns: Nodes, i: nat, names: seq<string>): Walk
    decreases |names|
  {
    if names == [] then Reached(i)
    else if i !in ns then Panic
    else if !IsDir(ns, i) then Missing
    else
      match Target(ns[i].entries, names[0])
      case None => Missing
      case Some(j) => Resolve(ns, j, names[1..])
  }

  /** namex. With `parent` it stops at the directory of the last name, and gives that name too. */
  method Namex(ns: Nodes, root: nat, cwd: nat, path: string, parent: bool) returns (r: Walk, name: string)
    requires forall d :: IsDir(ns, d) ==> Stored(ns[d].entries)
    ensures !parent ==> r == Resolve(ns, if path != "" && path[0] == '/' then root else cwd, Elements(path))
    ensures parent ==> r == DirOf(ns, if path != "" && path[0] == '/' then root else cwd, Elements(path))
    ensures parent && r.Reached? ==> Elements(path) != [] && name == Elements(path)[|Elements(path)| - 1]
  {
    var ip: nat := if path != "" && path[0] == '/' then root else cwd;
    ghost var start, names := ip, Elements(path);
    ghost var done := 0;
    var p := path;
    name := "";
    while true
      invariant done <= |names| && Elements(p) == names[done..]
      invariant Resolve(ns, start, names) == Resolve(ns, ip, names[done..])
      invariant parent ==> DirOf(ns, start, names) == DirOf(ns, ip, names[done..])
      decreases |names| - done
    {
      var e := Skipelem(p);
      if e.None? {
        break;
      }
      name := e.value.0;
      assert names[done..] == [name] + Elements(e.value.1);
      assert names[done] == name && names[done..][1..] == names[done + 1..];
      assert Elements(e.value.1) == names[done + 1..];
      if ip !in ns {
        return Panic, name;
      }
      if !IsDir(ns, ip) {
        return Missing, name;
      }
      if parent && e.value.1 == "" {
        return Reached(ip), name;
      }
      var at := Dirlookup(ns[ip].entries, name);
      if at.None? {
        TargetAbsent(ns[ip].entries, name);
        return Missing, name;
      }
      TargetFound(ns[ip].entries, name, at.value);
      ip, p := ns[ip].entries[at.value].inum, e.value.1;
      done := done + 1;
    }
    assert names[done..] == [];
    r := if parent then Missing else Reached(ip);
  }

  /** The directory that holds the last of the names. */
  function DirOf(ns: Nodes, i: nat, names: seq<string>): Walk
    decreases |names|
  {
    if names == [] then Missing
    else if i !in ns then Panic
    else if !IsDir(ns, i) then Missing
    else if |names| == 1 then Reached(i)
    else
      match Target(ns[i].entries, names[0])
      case None => Missing
      case Some(j) => DirOf(ns, j, names[1..])
  }

  /** The directory of the last name, and the last name in it, are what the whole path names. */
  lemma {:induction false} ParentThenLast(ns: Nodes, i: nat, names: seq<string>)
    requires names != []
    ensures Resolve(ns, i, names) ==
            match DirOf(ns, i, names)
            case Missing => Missing
            case Panic => Panic
            case Reached(d) =>
              if !IsDir(ns, d) then Missing
              else match Target(ns[d].entries, names[|names| - 1]) case None => Missing case Some(j) => Reached(j)
    decreases |names|
  {
    if |names| == 1 {
      assert names[1..] == [];
    } else if IsDir(ns, i) && Target(ns[i].entries, names[0]).Some? {
      ParentThenLast(ns, Target(ns[i].entries, names[0]).value, names[1..]);
    }
  }

  /** No names lead nowhere else, and one name leads to what the directory has for it first. */
  lemma ResolveOne(ns: Nodes, i: nat, n: string)
    ensures Resolve(ns, i, []) == Reached(i)
    ensures i !in ns ==> Resolve(ns, i, [n]) == Panic
    ensures i in ns && ns[i].kind != Directory ==> Resolve(ns, i, [n]) == Missing
    ensures i in ns && ns[i].kind == Directory && Absent(ns[i].entries, n) ==> Resolve(ns, i, [n]) == Missing
    ensures i in ns && ns[i].kind == Directory ==>
              forall k {:trigger ns[i].entries[k]} :: 0 <= k < |ns[i].entries| && FirstNamed(ns[i].entries, n, k) ==>
                Resolve(ns, i, [n]) == Reached(ns[i].entries[k].inum)
  {
    assert [n][1..] == [];
    if i in ns && ns[i].kind == Directory {
      var es := ns[i].entries;
      if Absent(es, n) {
        TargetAbsent(es, n);
      }
      forall k: nat | k < |es| && FirstNamed(es, n, k) ensures Resolve(ns, i, [n]) == Reached(es[k].inum) {
        TargetFound(es, n, k);
      }
    }
  }

  /** Entry k is the first in use with the name. */
  ghost predicate FirstNamed(es: seq<Dirent>, n: string, k: nat)
    requires k < |es|
  {
    es[k].inum != 0 && es[k].name == Cut(n) && Absent(es[..k], n)
  }

  /** A walk goes down: the second part of a path starts where the first part leads. */
  lemma {:induction false} ResolveAppend(ns: Nodes, i: nat, a: seq<string>, b: seq<string>)
    ensures Resolve(ns, i, a + b) == match Resolve(ns, i, a) case Reached(j) => Resolve(ns, j, b) case w => w
    decreases |a|
  {
    if a == [] {
      assert a + b == b;
    } else if IsDir(ns, i) && Target(ns[i].entries, a[0]).Some? {
      assert (a + b)[1..] == a[1..] + b;
      ResolveAppend(ns, Target(ns[i].entries, a[0]).value, a[1..], b);
    }
  }

  /** nameiparent leads to where the names before the last lead, if that is a directory. */
  lemma {:induction false} DirOfLast(ns: Nodes, i: nat, names: seq<string>, n: string)
    ensures DirOf(ns, i, names + [n]) ==
            match Resolve(ns, i, names)
            case Reached(d) => if d !in ns then Panic else if ns[d].kind == Directory then Reached(d) else Missing
            case w => w
    decreases |names|
  {
    if names == [] {
      assert names + [n] == [n];
    } else if IsDir(ns, i) && Target(ns[i].entries, names[0]).Some? {
      assert (names + [n])[1..] == names[1..] + [n];
      DirOfLast(ns, Target(ns[i].entries, names[0]).value, names[1..], n);
    }
  }

  /** The walk panics if and only if some names before the last lead to an inode that is gone. */
  lemma {:induction false} PanicsExactly(ns: Nodes, i: nat, names: seq<string>)
    ensures Resolve(ns, i, names).Panic? <==>
            exists k :: 0 <= k < |names| && var w := Resolve(ns, i, names[..k]); w.Reached? && w.i !in ns
    decreases |names|
  {
    if names != [] && IsDir(ns, i) && Target(ns[i].entries, names[0]).Some? {
      var j, rest := Target(ns[i].entries, names[0]).value, names[1..];
      PanicsExactly(ns, j, rest);
      forall k | 0 < k < |names| ensures Resolve(ns, i, names[..k]) == Resolve(ns, j, rest[..k - 1]) {
        assert names[..k][1..] == rest[..k - 1];
      }
      if Resolve(ns, j, rest).Panic? {
        var k :| 0 <= k < |rest| && var w := Resolve(ns, j, rest[..k]); w.Reached? && w.i !in ns;
        assert Resolve(ns, i, names[..k + 1]) == Resolve(ns, j, rest[..k]);
      }
    } else if names != [] {
      assert names[..0] == [];
      forall k | 0 < k < |names| ensures Resolve(ns, i, names[..k]) == if i in ns then Missing else Panic {
        assert names[..k][0] == names[0];
      }
    }
  }

  lemma {:induction false} TargetEntry(es: seq<Dirent>, name: string) returns (k: nat)
    requires Target(es, name).Some?
    ensures k < |es| && es[k].inum == Target(es, name).value && es[k].inum != 0
  {
    if es[0].inum != 0 && es[0].name == Cut(name) {
      k := 0;
    } else {
      k := TargetEntry(es[1..], name);
      k := k + 1;
    }
  }

  /** From a directory that is linked, one step leads to a live inode, and to a linked one if it is a directory. */
  lemma StepStaysLinked(ns: Nodes, root: nat, up: map<nat, nat>, d: nat, k: nat)
    requires TreeOk(ns, root, up) && Linked(ns, d) && k < |ns[d].entries| && ns[d].entries[k].inum != 0
    ensures var c := ns[d].entries[k].inum; c in ns && (ns[c].kind == Directory ==> Linked(ns, c))
  {
    var c := ns[d].entries[k].inum;
    assert NodeOk(ns, root, up, d) && EntryOk(ns, root, up, d, k);
    assert NodeOk(ns, root, up, c);
    if k >= 2 && ns[c].kind == Directory {
      assert Unique(ns[d].entries);
      assert Names(ns, d, k, c);
      assert (d, k) in Refs(ns, c);
      SubsetSize({(d, k)}, Refs(ns, c));
    }
  }

  /** So no path from a linked directory panics; each names a live inode, and linked directories. */
  lemma {:induction false} PathsStayLinked(ns: Nodes, root: nat, up: map<nat, nat>, d: nat, names: seq<string>)
    requires TreeOk(ns, root, up) && d in ns && (ns[d].kind == Directory ==> Linked(ns, d))
    ensures var r := Resolve(ns, d, names);
            r != Panic && (r.Reached? ==> r.i in ns && (ns[r.i].kind == Directory ==> Linked(ns, r.i)))
    ensures var r := DirOf(ns, d, names); r != Panic && (r.Reached? ==> Linked(ns, r.i))
    decreases |names|
  {
    if names != [] && IsDir(ns, d) && Target(ns[d].entries, names[0]).Some? {
      var k := TargetEntry(ns[d].entries, names[0]);
      StepStaysLinked(ns, root, up, d, k);
      PathsStayLinked(ns, root, up, ns[d].entries[k].inum, names[1..]);
    }
  }

  // ---------- writing paths ----------

  predicate LegalName(n: string) { n != "" && '/' !in n }

  function Slashes(k: nat): string { if k == 0 then "" else "/" + Slashes(k - 1) }

  /** Names joined by slashes, any number of them before each name and at the end. */
  function Join(names: seq<string>, gaps: seq<nat>, tail: nat): string
    requires |gaps| == |names|
  {
    if names == [] then Slashes(tail) else Slashes(gaps[0]) + names[0] + Join(names[1..], gaps[1..], tail)
  }

  lemma {:induction false} SlashesSkipped(k: nat, p: string)
    ensures Elements(Slashes(k) + p) == Elements(p)
  {
    if k == 0 {
      assert Slashes(k) + p == p;
    } else {
      SlashesSkipped(k - 1, p);
      assert (Slashes(k) + p)[1..] == Slashes(k - 1) + p;
    }
  }

  lemma {:induction false} NameEnds(n: string, p: string)
    requires '/' !in n && (p == "" || p[0] == '/')
    ensures NameLen(n + p) == |n|
  {
    if n == "" {
      assert n + p == p;
    } else {
      NameEnds(n[1..], p);
      assert (n + p)[1..] == n[1..] + p;
    }
  }

  /** Splitting a path gives the names it was joined from, the long ones cut. */
  lemma {:induction false} SplitJoin(names: seq<string>, gaps: seq<nat>, tail: nat)
    requires |gaps| == |names| && (forall k :: 0 <= k < |names| ==> LegalName(names[k]))
    requires forall k :: 0 < k < |gaps| ==> gaps[k] > 0
    ensures var es := Elements(Join(names, gaps, tail)); |es| == |names| && forall k :: 0 <= k < |es| ==> es[k] == Cut(names[k])
    decreases |names|
  {
    if names == [] {
      SlashesSkipped(tail, "");
      assert Slashes(tail) + "" == Slashes(tail);
    } else {
      var n, rest := names[0], Join(names[1..], gaps[1..], tail);
      assert rest == "" || rest[0] == '/';
      SlashesSkipped(gaps[0], n + rest);
      assert Join(names, gaps, tail) == Slashes(gaps[0]) + (n + rest);
      NameEnds(n, rest);
      assert (n + rest)[..|n|] == n && (n + rest)[|n|..] == rest;
      SplitJoin(names[1..], gaps[1..], tail);
    }
  }
}
