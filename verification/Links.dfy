/** Directory entries and link counts (kern/syscall/sysfile.c, fs/sfs/fs.c). */
module Links {
  import opened Common

  /**
   dirlookup, dirlink and ialloc, and create, sys_link and sys_unlink. Directories are sequences of
   entries; a path is given by what it resolves to.
   */

  datatype Kind = File | Directory | Device

  /** An entry; inode number 0 marks an empty one. */
  datatype Dirent = Dirent(inum: nat, name: string)

  datatype Node = Node(kind: Kind, nlink: int, entries: seq<Dirent>)

  type Nodes = map<nat, Node>

  const DIRSIZ: nat := 14

  /** What namecmp and strncpy see of a name. */
  function Cut(name: string): string { if |name| <= DIRSIZ then name else name[..DIRSIZ] }

  /** namecmp: names are the same if they are equal, or agree in DIRSIZ characters. */
  lemma SameName(a: string, b: string)
    ensures Cut(a) == Cut(b) <==> a == b || (|a| >= DIRSIZ && |b| >= DIRSIZ && a[..DIRSIZ] == b[..DIRSIZ])
    ensures |a| <= DIRSIZ ==> Cut(a) == a
  {
  }

  // ---------- one directory ----------

  /** An entry has room for DIRSIZ characters. */
  ghost predicate Stored(es: seq<Dirent>)
  {
    forall k :: 0 <= k < |es| ==> es[k].name == Cut(es[k].name)
  }

  /** Each name in use is there once. */
  ghost predicate Unique(es: seq<Dirent>)
  {
    && Stored(es)
    && forall k, l :: 0 <= k < l < |es| && es[k].inum != 0 && es[l].inum != 0 ==> es[k].name != es[l].name
  }

  ghost predicate Absent(es: seq<Dirent>, name: string)
  {
    forall k :: 0 <= k < |es| && es[k].inum != 0 ==> es[k].name != Cut(name)
  }

  /** dirlookup: the first place where a name is, or that it is nowhere. */
  method Dirlookup(es: seq<Dirent>, name: string) returns (r: Option<nat>)
    requires Stored(es)
    ensures r.None? <==> Absent(es, name)
    ensures r.Some? ==> r.value < |es| && es[r.value].inum != 0 && es[r.value].name == Cut(name) && Absent(es[..r.value], name)
  {
    var off := 0;
    while off < |es|
      invariant off <= |es| && forall k :: 0 <= k < off && es[k].inum != 0 ==> es[k].name != Cut(name)
    {
      if es[off].inum != 0 && Cut(es[off].name) == Cut(name) {
        return Some(off);
      }
      off := off + 1;
    }
    r := None;
  }

  /** Where dirlink puts an entry: the first empty one, or the end. */
  ghost predicate FreeSlot(es: seq<Dirent>, k: nat)
  {
    k <= |es| && (k < |es| ==> es[k].inum == 0) && forall j :: 0 <= j < k ==> es[j].inum != 0
  }

  function Put(es: seq<Dirent>, k: nat, e: Dirent): seq<Dirent>
    requires k <= |es|
  {
    if k < |es| then es[k := e] else es + [e]
  }

  /** dirlink: None when the name is taken. */
  method Dirlink(es: seq<Dirent>, name: string, inum: nat) returns (r: Option<seq<Dirent>>, ghost k: nat)
    requires Stored(es)
    ensures r.None? <==> !Absent(es, name)
    ensures r.Some? ==> FreeSlot(es, k) && r.value == Put(es, k, Dirent(inum, Cut(name)))
  {
    k := 0;
    var at := Dirlookup(es, name);
    if at.Some? {
      return None, k;
    }
    var off := 0;
    while off < |es| && es[off].inum != 0
      invariant off <= |es| && forall j :: 0 <= j < off ==> es[j].inum != 0
    {
      off := off + 1;
    }
    r, k := Some(Put(es, off, Dirent(inum, Cut(name)))), off;
  }

  lemma CutTwice(name: string)
    ensures Cut(Cut(name)) == Cut(name)
  {
  }

  lemma PutUnique(es: seq<Dirent>, k: nat, inum: nat, name: string)
    requires Unique(es) && Absent(es, name) && FreeSlot(es, k)
    ensures Unique(Put(es, k, Dirent(inum, Cut(name))))
  {
    CutTwice(name);
  }

  lemma PutDotted(es: seq<Dirent>, d: nat, k: nat, inum: nat, name: string)
    requires Dotted(es, d) && Absent(es, name) && FreeSlot(es, k) && k >= 2
    ensures Dotted(Put(es, k, Dirent(inum, Cut(name))), d)
  {
    PutUnique(es, k, inum, name);
  }

  /** isdirempty: nothing but the first two entries. */
  method IsDirEmpty(es: seq<Dirent>) returns (empty: bool)
    ensures empty <==> forall k :: 2 <= k < |es| ==> es[k].inum == 0
  {
    var off := 2;
    while off < |es|
      invariant forall k :: 2 <= k < off && k < |es| ==> es[k].inum == 0
    {
      if es[off].inum != 0 {
        return false;
      }
      off := off + 1;
    }
    empty := true;
  }

  // ---------- the whole tree ----------

  predicate Linked(ns: Nodes, d: nat) { d in ns && ns[d].kind == Directory && ns[d].nlink > 0 }

  /** Entry k of the linked directory d counts as a link to i. */
  predicate Names(ns: Nodes, d: nat, k: nat, i: nat)
  {
    Linked(ns, d) && k < |ns[d].entries| && ns[d].entries[k].inum == i && ns[d].entries[k].name != "."
  }

  /** All entries that count as links to i. */
  ghost function Refs(ns: Nodes, i: nat): set<(nat, nat)>
  {
    set d: nat, k: nat | d in ns && 0 <= k < |ns[d].entries| && Names(ns, d, k, i) :: (d, k)
  }

  function Parent(ns: Nodes, d: nat): nat
    requires d in ns
  {
    if |ns[d].entries| < 2 then 0 else ns[d].entries[1].inum
  }

  /** One entry of a linked directory. Entry `up[c]` is the one that names the directory c. */
  ghost predicate EntryOk(ns: Nodes, root: nat, up: map<nat, nat>, d: nat, k: nat)
    requires d in ns && k < |ns[d].entries|
  {
    var c := ns[d].entries[k].inum;
    c != 0 ==> c in ns && (k >= 2 && ns[c].kind == Directory ==> c != root && c in up && up[c] == k && Parent(ns, c) == d)
  }

  /** What every directory starts with, linked or not. */
  ghost predicate Dotted(es: seq<Dirent>, d: nat)
  {
    |es| >= 2 && es[0] == Dirent(d, ".") && es[1].name == ".." && es[1].inum != 0 && Unique(es)
  }

  ghost predicate Empty(n: Node)
  {
    n.kind == Directory ==> forall k :: 2 <= k < |n.entries| ==> n.entries[k].inum == 0
  }

  ghost predicate DirOk(ns: Nodes, root: nat, up: map<nat, nat>, d: nat)
    requires d in ns
  {
    var es := ns[d].entries;
    && |es| >= 2
    && (forall k: nat {:trigger EntryOk(ns, root, up, d, k)} :: k < |es| ==> EntryOk(ns, root, up, d, k))
    && (if d == root then es[1].inum == root
        else d in up && up[d] >= 2 && Linked(ns, es[1].inum) && up[d] < |ns[es[1].inum].entries| && ns[es[1].inum].entries[up[d]].inum == d)
  }

  ghost predicate NodeOk(ns: Nodes, root: nat, up: map<nat, nat>, i: nat)
    requires i in ns
  {
    && i != 0 && ns[i].nlink == |Refs(ns, i)|
    && (ns[i].kind == Directory ==> Dotted(ns[i].entries, i) && if ns[i].nlink > 0 then DirOk(ns, root, up, i) else Empty(ns[i]))
  }

  /**
   Every live inode's link count is the number of entries that name it, in directories still linked.
   A directory without links is one that was removed and is still in use; it has only its dots.
   */
  ghost predicate TreeOk(ns: Nodes, root: nat, up: map<nat, nat>)
  {
    Linked(ns, root) && forall i {:trigger NodeOk(ns, root, up, i)} :: i in ns ==> NodeOk(ns, root, up, i)
  }

  /** The entries that matter to a directory are there, so a name that is absent is neither dot. */
  lemma DotsTaken(ns: Nodes, root: nat, up: map<nat, nat>, d: nat, name: string, k: nat)
    requires TreeOk(ns, root, up) && Linked(ns, d) && Absent(ns[d].entries, name) && FreeSlot(ns[d].entries, k)
    ensures k >= 2 && Cut(name) != "." && Cut(name) != ".."
  {
    assert NodeOk(ns, root, up, d);
    if d != root {
      assert NodeOk(ns, root, up, ns[d].entries[1].inum);
    }
  }

  lemma NoRefsToDead(ns: Nodes, root: nat, up: map<nat, nat>, i: nat)
    requires TreeOk(ns, root, up) && i !in ns && i != 0
    ensures Refs(ns, i) == {}
  {
    forall d: nat, k: nat | Linked(ns, d) && k < |ns[d].entries| ensures ns[d].entries[k].inum != i {
      assert NodeOk(ns, root, up, d);
      assert EntryOk(ns, root, up, d, k);
    }
  }

  // ---------- sys_link ----------

  function LinkTo(ns: Nodes, ip: nat, dp: nat, k: nat, name: string): Nodes
    requires ip in ns && dp in ns && k <= |ns[dp].entries|
  {
    ns[ip := ns[ip].(nlink := ns[ip].nlink + 1)][dp := ns[dp].(entries := Put(ns[dp].entries, k, Dirent(ip, Cut(name))))]
  }

  lemma LinkRefs(ns: Nodes, ip: nat, dp: nat, k: nat, name: string, i: nat)
    requires ip in ns && ns[ip].kind != Directory && Linked(ns, dp) && FreeSlot(ns[dp].entries, k) && Cut(name) != "." && i != 0
    ensures Refs(LinkTo(ns, ip, dp, k, name), i) == if i == ip then Refs(ns, i) + {(dp, k)} else Refs(ns, i)
    ensures (dp, k) !in Refs(ns, i)
  {
    var ns' := LinkTo(ns, ip, dp, k, name);
    forall d: nat, j: nat ensures Names(ns', d, j, i) <==> Names(ns, d, j, i) || (i == ip && d == dp && j == k) {
    }
  }

  lemma LinkOk(ns: Nodes, root: nat, up: map<nat, nat>, ip: nat, dp: nat, k: nat, name: string)
    requires TreeOk(ns, root, up) && ip in ns && ns[ip].kind != Directory
    requires Linked(ns, dp) && Absent(ns[dp].entries, name) && FreeSlot(ns[dp].entries, k)
    ensures TreeOk(LinkTo(ns, ip, dp, k, name), root, up)
  {
    hide NodeOk, Names, Absent, Put, Cut;
    var ns' := LinkTo(ns, ip, dp, k, name);
    DotsTaken(ns, root, up, dp, name, k);
    forall i | i in ns' ensures NodeOk(ns', root, up, i) {
      assert NodeOk(ns, root, up, i);
      LinkNode(ns, root, up, ip, dp, k, name, i);
    }
  }

  lemma LinkNode(ns: Nodes, root: nat, up: map<nat, nat>, ip: nat, dp: nat, k: nat, name: string, i: nat)
    requires ip in ns && ns[ip].kind != Directory && i in ns && NodeOk(ns, root, up, i) && Cut(name) != "."
    requires Linked(ns, dp) && Absent(ns[dp].entries, name) && FreeSlot(ns[dp].entries, k) && k >= 2
    ensures NodeOk(LinkTo(ns, ip, dp, k, name), root, up, i)
  {
    hide Refs, DirOk, Absent, FreeSlot;
    LinkRefs(ns, ip, dp, k, name, i);
    if i == dp {
      PutDotted(ns[dp].entries, dp, k, ip, name);
    }
    if Linked(ns, i) {
      LinkDir(ns, root, up, ip, dp, k, name, i);
    }
  }

  lemma LinkDir(ns: Nodes, root: nat, up: map<nat, nat>, ip: nat, dp: nat, k: nat, name: string, d: nat)
    requires ip in ns && ns[ip].kind != Directory && Linked(ns, d) && DirOk(ns, root, up, d) && d != 0
    requires Linked(ns, dp) && Absent(ns[dp].entries, name) && FreeSlot(ns[dp].entries, k) && k >= 2
    ensures DirOk(LinkTo(ns, ip, dp, k, name), root, up, d)
  {
    var ns' := LinkTo(ns, ip, dp, k, name);
    forall j: nat | j < |ns'[d].entries| ensures EntryOk(ns', root, up, d, j) {
      if d != dp || j != k {
        assert EntryOk(ns, root, up, d, j);
      }
    }
  }

  // ---------- create ----------

  /** The new inode: one link, and for a directory the two dots. */
  function Fresh(kind: Kind, i: nat, dp: nat): Node
  {
    Node(kind, 1, if kind == Directory then [Dirent(i, "."), Dirent(dp, "..")] else [])
  }

  function CreateAt(ns: Nodes, kind: Kind, i: nat, dp: nat, k: nat, name: string): Nodes
    requires dp in ns && k <= |ns[dp].entries|
  {
    ns[i := Fresh(kind, i, dp)]
      [dp := ns[dp].(nlink := ns[dp].nlink + (if kind == Directory then 1 else 0), entries := Put(ns[dp].entries, k, Dirent(i, Cut(name))))]
  }

  lemma CreateRefs(ns: Nodes, kind: Kind, i: nat, dp: nat, k: nat, name: string, j: nat)
    requires i !in ns && i != 0 && Linked(ns, dp) && FreeSlot(ns[dp].entries, k) && Cut(name) != "." && j != 0
    ensures (dp, k) !in Refs(ns, j) && (i, 1) !in Refs(ns, j)
    ensures var more := (if j == i then {(dp, k)} else {}) + (if j == dp && kind == Directory then {(i, 1)} else {});
            Refs(CreateAt(ns, kind, i, dp, k, name), j) == Refs(ns, j) + more
  {
    var ns' := CreateAt(ns, kind, i, dp, k, name);
    forall d: nat, l: nat
      ensures Names(ns', d, l, j) <==>
              Names(ns, d, l, j) || (j == i && d == dp && l == k) || (j == dp && kind == Directory && d == i && l == 1)
    {
    }
  }

  lemma CreateDir(ns: Nodes, root: nat, up: map<nat, nat>, kind: Kind, i: nat, dp: nat, k: nat, name: string, d: nat)
    requires i !in ns && i != 0 && i != root && Linked(ns, d) && DirOk(ns, root, up, d) && d != 0
    requires Linked(ns, dp) && Absent(ns[dp].entries, name) && FreeSlot(ns[dp].entries, k) && k >= 2
    ensures DirOk(CreateAt(ns, kind, i, dp, k, name), root, up[i := k], d)
  {
    var ns', up' := CreateAt(ns, kind, i, dp, k, name), up[i := k];
    forall j: nat | j < |ns'[d].entries| ensures EntryOk(ns', root, up', d, j) {
      if d != dp || j != k {
        assert EntryOk(ns, root, up, d, j);
      }
    }
  }

  lemma CreateNode(ns: Nodes, root: nat, up: map<nat, nat>, kind: Kind, i: nat, dp: nat, k: nat, name: string, j: nat)
    requires i !in ns && i != 0 && i != root && j in ns && NodeOk(ns, root, up, j) && Cut(name) != "."
    requires Linked(ns, dp) && Absent(ns[dp].entries, name) && FreeSlot(ns[dp].entries, k) && k >= 2
    ensures NodeOk(CreateAt(ns, kind, i, dp, k, name), root, up[i := k], j)
  {
    hide Refs, DirOk, Absent;
    CreateRefs(ns, kind, i, dp, k, name, j);
    if j == dp {
      PutDotted(ns[dp].entries, dp, k, i, name);
    }
    if Linked(ns, j) {
      CreateDir(ns, root, up, kind, i, dp, k, name, j);
    }
  }

  lemma FreshNode(ns: Nodes, root: nat, up: map<nat, nat>, kind: Kind, i: nat, dp: nat, k: nat, name: string)
    requires i !in ns && i != 0 && i != root && Refs(ns, i) == {} && Cut(name) != "." && dp != 0
    requires Linked(ns, dp) && FreeSlot(ns[dp].entries, k) && k >= 2
    ensures NodeOk(CreateAt(ns, kind, i, dp, k, name), root, up[i := k], i)
  {
    var ns', up' := CreateAt(ns, kind, i, dp, k, name), up[i := k];
    CreateRefs(ns, kind, i, dp, k, name, i);
    hide Refs;
    if kind == Directory {
      assert EntryOk(ns', root, up', i, 0) && EntryOk(ns', root, up', i, 1);
    }
  }

  lemma CreateOk(ns: Nodes, root: nat, up: map<nat, nat>, kind: Kind, i: nat, dp: nat, k: nat, name: string)
    requires TreeOk(ns, root, up) && i !in ns && i != 0
    requires Linked(ns, dp) && Absent(ns[dp].entries, name) && FreeSlot(ns[dp].entries, k)
    ensures TreeOk(CreateAt(ns, kind, i, dp, k, name), root, up[i := k])
  {
    hide NodeOk, Names, Absent, Put, Cut, Refs;
    var ns', up' := CreateAt(ns, kind, i, dp, k, name), up[i := k];
    DotsTaken(ns, root, up, dp, name, k);
    NoRefsToDead(ns, root, up, i);
    assert NodeOk(ns, root, up, dp);
    NotZero(ns, root, up, dp);
    forall j | j in ns' ensures NodeOk(ns', root, up', j) {
      if j == i {
        FreshNode(ns, root, up, kind, i, dp, k, name);
      } else {
        assert NodeOk(ns, root, up, j);
        CreateNode(ns, root, up, kind, i, dp, k, name, j);
      }
    }
  }

  // ---------- directories that were removed while in use ----------

  /** A directory without links: no entry of a linked directory names it. */
  lemma Removed(ns: Nodes, root: nat, up: map<nat, nat>, d: nat)
    requires TreeOk(ns, root, up) && d in ns && ns[d].kind == Directory && !Linked(ns, d)
    ensures d != 0 && d != root && ns[d].nlink == 0 && Refs(ns, d) == {} && Dotted(ns[d].entries, d) && Empty(ns[d])
    ensures forall p: nat, l: nat :: !Names(ns, p, l, d)
  {
    assert NodeOk(ns, root, up, d);
    assert Refs(ns, d) == {};
    forall p: nat, l: nat ensures !Names(ns, p, l, d) {
      assert Names(ns, p, l, d) ==> (p, l) in Refs(ns, d);
    }
  }

  /** A file created in a removed directory has one link and no entry that counts. */
  lemma CreateUnseen(ns: Nodes, root: nat, up: map<nat, nat>, kind: Kind, i: nat, dp: nat, k: nat, name: string, up': map<nat, nat>)
    requires TreeOk(ns, root, up) && i !in ns && i != 0 && kind != Directory
    requires dp in ns && ns[dp].kind == Directory && !Linked(ns, dp) && k <= |ns[dp].entries|
    ensures !TreeOk(CreateAt(ns, kind, i, dp, k, name), root, up')
  {
    var ns' := CreateAt(ns, kind, i, dp, k, name);
    NoRefsToDead(ns, root, up, i);
    forall d: nat, l: nat ensures !Names(ns', d, l, i) {
      assert Names(ns, d, l, i) ==> (d, l) in Refs(ns, i);
    }
    assert Refs(ns', i) == {};
    assert !NodeOk(ns', root, up', i);
  }

  /** A directory created in a removed one links the two to each other, and to nothing else. */
  lemma CreateAdrift(ns: Nodes, root: nat, up: map<nat, nat>, i: nat, dp: nat, k: nat, name: string, up': map<nat, nat>)
    requires TreeOk(ns, root, up) && i !in ns && i != 0
    requires dp in ns && ns[dp].kind == Directory && !Linked(ns, dp) && FreeSlot(ns[dp].entries, k)
    ensures !TreeOk(CreateAt(ns, Directory, i, dp, k, name), root, up')
  {
    var ns' := CreateAt(ns, Directory, i, dp, k, name);
    Removed(ns, root, up, dp);
    assert k >= 2;
    var p := ns[dp].entries[1].inum;
    if TreeOk(ns', root, up') {
      assert NodeOk(ns', root, up', dp);
      var l := up'[dp];
      assert Linked(ns', p) && 2 <= l < |ns'[p].entries| && ns'[p].entries[l].inum == dp;
      assert p != i && p != dp;
      assert NodeOk(ns, root, up, p);
      assert Names(ns, p, l, dp);
    }
  }

  /** create keeps the tree in order if and only if the parent is still linked, which it does not test. */
  lemma CreateNeedsLinkedParent(ns: Nodes, root: nat, up: map<nat, nat>, kind: Kind, i: nat, dp: nat, k: nat, name: string)
    requires TreeOk(ns, root, up) && i !in ns && i != 0
    requires dp in ns && ns[dp].kind == Directory && Absent(ns[dp].entries, name) && FreeSlot(ns[dp].entries, k)
    ensures (exists up' :: TreeOk(CreateAt(ns, kind, i, dp, k, name), root, up')) <==> Linked(ns, dp)
  {
    hide TreeOk, Absent;
    if Linked(ns, dp) {
      CreateOk(ns, root, up, kind, i, dp, k, name);
    } else {
      forall up' ensures !TreeOk(CreateAt(ns, kind, i, dp, k, name), root, up') {
        if kind == Directory {
          CreateAdrift(ns, root, up, i, dp, k, name, up');
        } else {
          CreateUnseen(ns, root, up, kind, i, dp, k, name, up');
        }
      }
    }
  }

  /** The same of sys_link. */
  lemma LinkNeedsLinkedParent(ns: Nodes, root: nat, up: map<nat, nat>, ip: nat, dp: nat, k: nat, name: string)
    requires TreeOk(ns, root, up) && ip in ns && ns[ip].kind != Directory
    requires dp in ns && ns[dp].kind == Directory && Absent(ns[dp].entries, name) && FreeSlot(ns[dp].entries, k)
    ensures (exists up' :: TreeOk(LinkTo(ns, ip, dp, k, name), root, up')) <==> Linked(ns, dp)
  {
    var ns' := LinkTo(ns, ip, dp, k, name);
    if Linked(ns, dp) {
      LinkOk(ns, root, up, ip, dp, k, name);
    } else {
      forall d: nat, l: nat ensures Names(ns', d, l, ip) <==> Names(ns, d, l, ip) {
      }
      assert Refs(ns', ip) == Refs(ns, ip);
      assert NodeOk(ns, root, up, ip);
      forall up' ensures !TreeOk(ns', root, up') {
        assert !NodeOk(ns', root, up', ip);
      }
    }
  }

  lemma NotZero(ns: Nodes, root: nat, up: map<nat, nat>, i: nat)
    requires i in ns && NodeOk(ns, root, up, i)
    ensures i != 0
  {
  }

  // ---------- sys_unlink ----------

  function UnlinkAt(ns: Nodes, dp: nat, k: nat): Nodes
    requires dp in ns && k < |ns[dp].entries| && ns[dp].entries[k].inum in ns
  {
    var ip := ns[dp].entries[k].inum;
    var ns1 := ns[dp := ns[dp].(nlink := ns[dp].nlink - (if ns[ip].kind == Directory then 1 else 0),
                                entries := ns[dp].entries[k := Dirent(0, "")])];
    ns1[ip := ns1[ip].(nlink := ns1[ip].nlink - 1)]
  }

  /** An empty directory is named once, by the entry in its parent. */
  lemma NamedOnce(ns: Nodes, root: nat, up: map<nat, nat>, dp: nat, k: nat)
    requires TreeOk(ns, root, up) && Linked(ns, dp) && 2 <= k < |ns[dp].entries|
    requires var ip := ns[dp].entries[k].inum; ip != 0 && ip in ns && ns[ip].kind == Directory && Empty(ns[ip])
    ensures Refs(ns, ns[dp].entries[k].inum) == {(dp, k)} && ns[dp].entries[k].inum != dp
  {
    var ip := ns[dp].entries[k].inum;
    assert NodeOk(ns, root, up, dp) && EntryOk(ns, root, up, dp, k);
    assert NodeOk(ns, root, up, ip);
    assert Unique(ns[dp].entries);
    assert Names(ns, dp, k, ip);
    assert (dp, k) in Refs(ns, ip);
    forall d: nat, l: nat | Names(ns, d, l, ip) ensures d == dp && l == k {
      assert NodeOk(ns, root, up, d) && EntryOk(ns, root, up, d, l);
    }
  }

  /** What unlink relies on: the entry counts; a directory goes from one link to none, and its parent stays linked. */
  ghost predicate Removable(ns: Nodes, dp: nat, k: nat, ip: nat)
  {
    && Linked(ns, dp) && 2 <= k < |ns[dp].entries| && ns[dp].entries[k].inum == ip != 0 && ip in ns
    && ns[dp].entries[k].name != "." && ns[ip].nlink >= 1
    && (ns[ip].kind == Directory ==> ip != dp && ns[ip].nlink == 1 && ns[dp].nlink >= 2 && Empty(ns[ip]) && Parent(ns, ip) == dp
                                     && |ns[ip].entries| >= 2 && ns[ip].entries[0] == Dirent(ip, ".") && ns[ip].entries[1].name != ".")
  }

  /** The panic on nlink < 1 cannot happen. */
  lemma CanRemove(ns: Nodes, root: nat, up: map<nat, nat>, dp: nat, k: nat)
    requires TreeOk(ns, root, up) && Linked(ns, dp) && k < |ns[dp].entries|
    requires ns[dp].entries[k].inum != 0 && ns[dp].entries[k].name != "." && ns[dp].entries[k].name != ".."
    ensures var ip := ns[dp].entries[k].inum; ip in ns && ns[ip].nlink >= 1 && k >= 2 && (Empty(ns[ip]) ==> Removable(ns, dp, k, ip))
  {
    var ip := ns[dp].entries[k].inum;
    assert NodeOk(ns, root, up, dp) && EntryOk(ns, root, up, dp, k);
    assert NodeOk(ns, root, up, ip);
    assert (dp, k) in Refs(ns, ip);
    SubsetSize({(dp, k)}, Refs(ns, ip));
    if Empty(ns[ip]) && ns[ip].kind == Directory {
      NamedOnce(ns, root, up, dp, k);
      assert Names(ns, ip, 1, dp);
      var x := if dp == root then (root, 1) else (Parent(ns, dp), up[dp]);
      if dp != root {
        assert NodeOk(ns, root, up, Parent(ns, dp));
        assert Unique(ns[Parent(ns, dp)].entries);
      }
      assert Names(ns, x.0, x.1, dp) && x != (ip, 1);
      assert {(ip, 1), x} <= Refs(ns, dp);
      SubsetSize({(ip, 1), x}, Refs(ns, dp));
    }
  }

  lemma UnlinkRefs(ns: Nodes, dp: nat, k: nat, ip: nat, j: nat)
    requires Removable(ns, dp, k, ip) && j != 0
    ensures var less := (if j == ip then {(dp, k)} else {}) + (if j == dp && ns[ip].kind == Directory then {(ip, 1)} else {});
            less <= Refs(ns, j) && Refs(UnlinkAt(ns, dp, k), j) == Refs(ns, j) - less
  {
    var ns' := UnlinkAt(ns, dp, k);
    forall d: nat, l: nat
      ensures Names(ns', d, l, j) <==>
              Names(ns, d, l, j) && !(j == ip && d == dp && l == k) && !(j == dp && ns[ip].kind == Directory && d == ip && l == 1)
    {
    }
  }

  lemma UnlinkDir(ns: Nodes, root: nat, up: map<nat, nat>, dp: nat, k: nat, ip: nat, d: nat)
    requires Removable(ns, dp, k, ip) && Linked(ns, d) && DirOk(ns, root, up, d) && d != 0 && d != ip
    ensures DirOk(UnlinkAt(ns, dp, k), root, up, d)
  {
    var ns' := UnlinkAt(ns, dp, k);
    forall j: nat | j < |ns'[d].entries| ensures EntryOk(ns', root, up, d, j) {
      assert EntryOk(ns, root, up, d, j);
    }
  }

  lemma UnlinkNode(ns: Nodes, root: nat, up: map<nat, nat>, dp: nat, k: nat, ip: nat, j: nat)
    requires Removable(ns, dp, k, ip) && j in ns && NodeOk(ns, root, up, j)
    ensures NodeOk(UnlinkAt(ns, dp, k), root, up, j)
  {
    hide Refs, DirOk;
    UnlinkRefs(ns, dp, k, ip, j);
    if Linked(ns, j) && j != ip {
      UnlinkDir(ns, root, up, dp, k, ip, j);
    }
  }

  lemma UnlinkOk(ns: Nodes, root: nat, up: map<nat, nat>, dp: nat, k: nat)
    requires TreeOk(ns, root, up) && Linked(ns, dp) && k < |ns[dp].entries| && ns[dp].entries[k].inum in ns
    requires Removable(ns, dp, k, ns[dp].entries[k].inum)
    ensures TreeOk(UnlinkAt(ns, dp, k), root, up)
  {
    hide NodeOk, Names, Removable;
    var ns', ip := UnlinkAt(ns, dp, k), ns[dp].entries[k].inum;
    forall j | j in ns' ensures NodeOk(ns', root, up, j) {
      assert NodeOk(ns, root, up, j);
      UnlinkNode(ns, root, up, dp, k, ip, j);
    }
    RootStays(ns, root, up, dp, k, ip);
  }

  lemma RootStays(ns: Nodes, root: nat, up: map<nat, nat>, dp: nat, k: nat, ip: nat)
    requires TreeOk(ns, root, up) && Removable(ns, dp, k, ip)
    ensures Linked(UnlinkAt(ns, dp, k), root)
  {
    assert NodeOk(ns, root, up, dp) && EntryOk(ns, root, up, dp, k);
  }

  // ---------- iput ----------

  /** Freeing an inode without links: no linked directory names it. */
  lemma FreeOk(ns: Nodes, root: nat, up: map<nat, nat>, i: nat)
    requires TreeOk(ns, root, up) && i in ns && ns[i].nlink == 0
    ensures TreeOk(ns - {i}, root, up)
  {
    var ns' := ns - {i};
    assert NodeOk(ns, root, up, i);
    assert Refs(ns, i) == {};
    forall d: nat, k: nat ensures !Names(ns, d, k, i) {
      assert Names(ns, d, k, i) ==> (d, k) in Refs(ns, i);
    }
    forall j | j in ns' ensures NodeOk(ns', root, up, j) {
      assert NodeOk(ns, root, up, j);
      FreeNode(ns, root, up, i, j);
    }
  }

  lemma FreeNode(ns: Nodes, root: nat, up: map<nat, nat>, i: nat, j: nat)
    requires i in ns && ns[i].nlink == 0 && j in ns && j != i && NodeOk(ns, root, up, j)
    requires forall d: nat, k: nat :: !Names(ns, d, k, i)
    ensures NodeOk(ns - {i}, root, up, j)
  {
    var ns' := ns - {i};
    forall d: nat, k: nat ensures Names(ns', d, k, j) <==> Names(ns, d, k, j) {
    }
    assert Refs(ns', j) == Refs(ns, j);
    if Linked(ns, j) {
      forall k: nat | k < |ns[j].entries| ensures EntryOk(ns', root, up, j, k) {
        assert EntryOk(ns, root, up, j, k) && !Names(ns, j, k, i);
      }
    }
  }

  /**
   What create returns: a panic (no inode left, or ".." of a removed directory names a freed inode),
   nothing, an existing file, or a new inode.
   */
  datatype Created = Exhausted | NoType | Refused | Found(ip: nat) | Made(ip: nat)

  class Tree {
    var nodes: Nodes
    ghost var up: map<nat, nat>
    const root: nat
    const ninodes: nat

    ghost predicate Valid()
      reads this
    {
      TreeOk(nodes, root, up)
    }

    /** The root directory as mkfs makes it. */
    constructor (n: nat)
      ensures Valid() && root == 1 && ninodes == n && nodes == map[1 := Fresh(Directory, 1, 1)]
    {
      nodes, up, root, ninodes := map[1 := Fresh(Directory, 1, 1)], map[], 1, n;
      new;
      assert Names(nodes, 1, 1, 1);
      assert Refs(nodes, 1) == {(1, 1)};
      assert EntryOk(nodes, root, up, 1, 0) && EntryOk(nodes, root, up, 1, 1);
      assert NodeOk(nodes, root, up, 1);
    }

    /** ialloc: the first free inode number. */
    method Ialloc() returns (r: Option<nat>)
      ensures r.Some? ==> 1 <= r.value < ninodes && r.value !in nodes && forall i :: 1 <= i < r.value ==> i in nodes
      ensures r.None? ==> forall i :: 1 <= i < ninodes ==> i in nodes
    {
      var inum := 1;
      while inum < ninodes
        invariant forall i :: 1 <= i < inum && i < ninodes ==> i in nodes
      {
        if inum !in nodes {
          return Some(inum);
        }
        inum := inum + 1;
      }
      r := None;
    }

    /** The two dirlink calls of create on a new directory; neither fails. */
    method Dots(i: nat, d: nat) returns (es: seq<Dirent>)
      requires i != 0
      ensures es == Fresh(Directory, i, d).entries
    {
      assert Absent([], ".");
      var dot, k1 := Dirlink([], ".", i);
      var one := dot.value;
      assert one[0] == Dirent(i, ".") && |one| == 1;
      assert Absent(one, "..");
      var both, k2 := Dirlink(one, "..", d);
      es := both.value;
    }

    /** A directory that a path resolved to; it may have been removed. */
    ghost predicate IsDir(d: Option<nat>)
      reads this
    {
      d.Some? ==> d.value in nodes && nodes[d.value].kind == Directory
    }

    /** sys_link: `ip` is what the first path names, `dp` the directory of the second. */
    method Link(ip: Option<nat>, dp: Option<nat>, name: string) returns (ok: bool, ghost k: nat)
      requires Valid() && (ip.Some? ==> ip.value in nodes) && IsDir(dp)
      modifies `nodes
      ensures ok <==> ip.Some? && old(nodes)[ip.value].kind != Directory && dp.Some? && Absent(old(nodes)[dp.value].entries, name)
      ensures ok ==> FreeSlot(old(nodes)[dp.value].entries, k) && nodes == LinkTo(old(nodes), ip.value, dp.value, k, name)
      ensures !ok ==> nodes == old(nodes)
      ensures (ok ==> Linked(old(nodes), dp.value)) ==> Valid()
      ensures ok && !Linked(old(nodes), dp.value) ==> forall up' :: !TreeOk(nodes, root, up')
    {
      hide NodeOk, Names;
      k := 0;
      if ip.None? || nodes[ip.value].kind == Directory {
        return false, k;
      }
      ghost var ns := nodes;
      var i := ip.value;
      nodes := nodes[i := nodes[i].(nlink := nodes[i].nlink + 1)];
      if dp.Some? {
        var d := dp.value;
        EntriesUnique(ns, root, up, d);
        var es, at := Dirlink(nodes[d].entries, name, i);
        if es.Some? {
          nodes := nodes[d := nodes[d].(entries := es.value)];
          LinkNeedsLinkedParent(ns, root, up, i, d, at, name);
          assert nodes == LinkTo(ns, i, d, at, name);
          if Linked(ns, d) {
            LinkOk(ns, root, up, i, d, at, name);
          }
          return true, at;
        }
      }
      nodes := nodes[i := nodes[i].(nlink := nodes[i].nlink - 1)];
      assert nodes == ns;
      ok := false;
    }

    /** sys_unlink of `name` in directory `dp`. */
    method Unlink(dp: Option<nat>, name: string) returns (ok: bool, ghost k: nat)
      requires Valid() && IsDir(dp)
      modifies `nodes
      ensures Valid()
      ensures ok ==> dp.Some? && Linked(old(nodes), dp.value) && Removes(old(nodes), dp.value, name, k) && nodes == UnlinkAt(old(nodes), dp.value, k)
      ensures !ok ==> nodes == old(nodes)
      ensures !ok && dp.Some? ==> forall j :: !Removes(old(nodes), dp.value, name, j)
    {
      hide NodeOk, Names, Removable;
      k := 0;
      if dp.None? {
        return false, k;
      }
      var d := dp.value;
      EntriesUnique(nodes, root, up, d);
      if Cut(name) == "." || Cut(name) == ".." {
        return false, k;
      }
      var off := Dirlookup(nodes[d].entries, name);
      if off.None? {
        return false, k;
      }
      k := off.value;
      if !Linked(nodes, d) {
        NothingToRemove(nodes, root, up, d, k);
        assert false;
      }
      CanRemove(nodes, root, up, d, off.value);
      var ip := nodes[d].entries[off.value].inum;
      assert nodes[ip].nlink >= 1;
      var empty := true;
      if nodes[ip].kind == Directory {
        empty := IsDirEmpty(nodes[ip].entries);
      }
      if !empty {
        return false, k;
      }
      UnlinkOk(nodes, root, up, d, off.value);
      ghost var ns := nodes;
      var dir := nodes[ip].kind == Directory;
      nodes := nodes[d := nodes[d].(entries := nodes[d].entries[off.value := Dirent(0, "")])];
      if dir {
        nodes := nodes[d := nodes[d].(nlink := nodes[d].nlink - 1)];
      }
      nodes := nodes[ip := nodes[ip].(nlink := nodes[ip].nlink - 1)];
      assert nodes == UnlinkAt(ns, d, off.value);
      ok := true;
    }

    /** create of `name` in directory `dp`. */
    method Create(dp: Option<nat>, name: string, kind: Kind) returns (r: Created, ghost k: nat)
      requires Valid() && IsDir(dp)
      modifies this
      ensures r.Made? <==> dp.Some? && Absent(old(nodes)[dp.value].entries, name) && !r.Exhausted?
      ensures r.NoType? ==> dp.Some? && !Linked(old(nodes), dp.value) && exists i :: i !in old(nodes) && Lists(old(nodes)[dp.value].entries, name, i)
      ensures r.Made? ==> r.ip !in old(nodes) && FreeSlot(old(nodes)[dp.value].entries, k)
      ensures r.Made? ==> nodes == CreateAt(old(nodes), kind, r.ip, dp.value, k, name)
      ensures r.Exhausted? ==> forall i :: 1 <= i < ninodes ==> i in old(nodes)
      ensures r.Found? ==> r.ip in nodes && nodes[r.ip].kind == kind == File && dp.Some? && Lists(old(nodes)[dp.value].entries, name, r.ip)
      ensures r.Refused? && dp.Some? ==> exists i :: i in old(nodes) && Lists(old(nodes)[dp.value].entries, name, i) && !(old(nodes)[i].kind == kind == File)
      ensures !r.Made? ==> nodes == old(nodes)
      ensures (r.Made? ==> Linked(old(nodes), dp.value)) ==> Valid()
      ensures r.Made? && !Linked(old(nodes), dp.value) ==> forall up' :: !TreeOk(nodes, root, up')
    {
      hide NodeOk, Names;
      k := 0;
      if dp.None? {
        return Refused, k;
      }
      var d := dp.value;
      EntriesUnique(nodes, root, up, d);
      var off := Dirlookup(nodes[d].entries, name);
      if off.Some? {
        var ip := nodes[d].entries[off.value].inum;
        assert Lists(nodes[d].entries, name, ip);
        if ip !in nodes {
          assert !Linked(nodes, d) by {
            if Linked(nodes, d) {
              EntryLives(nodes, root, up, d, off.value);
            }
          }
          return NoType, k;
        }
        if kind == File && nodes[ip].kind == File {
          return Found(ip), k;
        }
        return Refused, k;
      }
      var ino := Ialloc();
      if ino.None? {
        return Exhausted, k;
      }
      k := MakeNode(d, name, kind, ino.value);
      r := Made(ino.value);
    }

    /** The writes of create from the new inode on. */
    method WriteNode(d: nat, name: string, kind: Kind, i: nat) returns (ghost at: nat)
      requires d in nodes && Stored(nodes[d].entries) && Absent(nodes[d].entries, name) && i !in nodes && i != 0
      modifies `nodes
      ensures FreeSlot(old(nodes)[d].entries, at) && nodes == CreateAt(old(nodes), kind, i, d, at, name)
    {
      hide Absent, Put, Cut, Stored;
      ghost var ns := nodes;
      nodes := nodes[i := Node(kind, 1, [])];
      if kind == Directory {
        nodes := nodes[d := nodes[d].(nlink := nodes[d].nlink + 1)];
        var dots := Dots(i, d);
        nodes := nodes[i := nodes[i].(entries := dots)];
      }
      var es;
      es, at := Dirlink(nodes[d].entries, name, i);
      nodes := nodes[d := nodes[d].(entries := es.value)];
      assert nodes == CreateAt(ns, kind, i, d, at, name);
    }

    /** create from the new inode on. */
    method MakeNode(d: nat, name: string, kind: Kind, i: nat) returns (ghost at: nat)
      requires Valid() && d in nodes && nodes[d].kind == Directory && Absent(nodes[d].entries, name) && i !in nodes && i != 0
      modifies this
      ensures FreeSlot(old(nodes)[d].entries, at) && nodes == CreateAt(old(nodes), kind, i, d, at, name)
      ensures Linked(old(nodes), d) ==> Valid()
      ensures !Linked(old(nodes), d) ==> forall up' :: !TreeOk(nodes, root, up')
    {
      hide TreeOk, Linked, Absent, CreateAt;
      ghost var ns := nodes;
      EntriesUnique(ns, root, up, d);
      at := WriteNode(d, name, kind, i);
      CreateNeedsLinkedParent(ns, root, up, kind, i, d, at, name);
      if Linked(ns, d) {
        CreateOk(ns, root, up, kind, i, d, at, name);
      }
      up := up[i := at];
    }

    /** iput of the last reference to an inode without links. */
    method Iput(i: nat)
      requires Valid() && i in nodes
      modifies `nodes
      ensures Valid() && nodes == if old(nodes)[i].nlink == 0 then old(nodes) - {i} else old(nodes)
    {
      if nodes[i].nlink == 0 {
        FreeOk(nodes, root, up, i);
        nodes := nodes - {i};
      }
    }
  }

  ghost predicate Lists(es: seq<Dirent>, name: string, i: nat)
  {
    exists k :: 0 <= k < |es| && es[k] == Dirent(i, Cut(name)) && i != 0
  }

  /** Entries other than k of a directory list what they listed, and entry k lists its own name. */
  lemma PutLists(es: seq<Dirent>, k: nat, i: nat, name: string, n: string, j: nat)
    requires Absent(es, name) && FreeSlot(es, k) && i != 0
    ensures Lists(Put(es, k, Dirent(i, Cut(name))), n, j) <==> (Cut(n) == Cut(name) && j == i) || Lists(es, n, j)
  {
    var es' := Put(es, k, Dirent(i, Cut(name)));
    assert es'[k] == Dirent(i, Cut(name));
    if Lists(es, n, j) {
      var l :| 0 <= l < |es| && es[l] == Dirent(j, Cut(n)) && j != 0;
      assert es'[l] == es[l];
    }
  }

  /** sys_link adds one name for one inode, and counts it; every other name names what it named. */
  lemma LinkNames(ns: Nodes, ip: nat, dp: nat, k: nat, name: string)
    requires ip in ns && ip != 0 && dp in ns && ip != dp && Absent(ns[dp].entries, name) && FreeSlot(ns[dp].entries, k)
    ensures var ns' := LinkTo(ns, ip, dp, k, name);
            && ns'.Keys == ns.Keys
            && (forall d :: d in ns ==> ns'[d].kind == ns[d].kind && ns'[d].nlink == ns[d].nlink + if d == ip then 1 else 0)
            && (forall d, n, j :: d in ns ==>
                  (Lists(ns'[d].entries, n, j) <==> (d == dp && Cut(n) == Cut(name) && j == ip) || Lists(ns[d].entries, n, j)))
  {
    var ns' := LinkTo(ns, ip, dp, k, name);
    forall d, n, j | d in ns ensures Lists(ns'[d].entries, n, j) <==> (d == dp && Cut(n) == Cut(name) && j == ip) || Lists(ns[d].entries, n, j) {
      PutLists(ns[dp].entries, k, ip, name, n, j);
    }
  }

  /** create makes one inode of the kind asked for, with one link, and names it; a directory also has its two dots. */
  lemma CreateNames(ns: Nodes, kind: Kind, i: nat, dp: nat, k: nat, name: string)
    requires i !in ns && i != 0 && dp in ns && Absent(ns[dp].entries, name) && FreeSlot(ns[dp].entries, k)
    ensures var ns' := CreateAt(ns, kind, i, dp, k, name);
            && ns'.Keys == ns.Keys + {i} && ns'[i].kind == kind && ns'[i].nlink == 1
            && (kind == Directory ==> ns'[i].entries == [Dirent(i, "."), Dirent(dp, "..")])
            && (kind != Directory ==> ns'[i].entries == [])
            && (forall d :: d in ns ==> ns'[d].kind == ns[d].kind && ns'[d].nlink == ns[d].nlink + if d == dp && kind == Directory then 1 else 0)
            && (forall d, n, j :: d in ns ==>
                  (Lists(ns'[d].entries, n, j) <==> (d == dp && Cut(n) == Cut(name) && j == i) || Lists(ns[d].entries, n, j)))
  {
    var ns' := CreateAt(ns, kind, i, dp, k, name);
    forall d, n, j | d in ns ensures Lists(ns'[d].entries, n, j) <==> (d == dp && Cut(n) == Cut(name) && j == i) || Lists(ns[d].entries, n, j) {
      PutLists(ns[dp].entries, k, i, name, n, j);
    }
  }

  /** sys_unlink takes one name away, and the links that go with it; every other name names what it named. */
  lemma UnlinkNames(ns: Nodes, dp: nat, k: nat, name: string)
    requires dp in ns && Unique(ns[dp].entries) && Removes(ns, dp, name, k) && ns[dp].entries[k].inum != dp
    ensures var ip, ns' := ns[dp].entries[k].inum, UnlinkAt(ns, dp, k);
            && ns'.Keys == ns.Keys
            && (forall d :: d in ns ==> ns'[d].kind == ns[d].kind)
            && (forall d :: d in ns && d != dp ==> ns'[d].nlink == ns[d].nlink - if d == ip then 1 else 0)
            && ns'[dp].nlink == ns[dp].nlink - (if ns[ip].kind == Directory then 1 else 0)
            && (forall d, n, j :: d in ns ==>
                  (Lists(ns'[d].entries, n, j) <==> Lists(ns[d].entries, n, j) && !(d == dp && Cut(n) == Cut(name))))
  {
    var es, ns' := ns[dp].entries, UnlinkAt(ns, dp, k);
    var es' := ns'[dp].entries;
    forall d, n, j | d in ns ensures Lists(ns'[d].entries, n, j) <==> Lists(ns[d].entries, n, j) && !(d == dp && Cut(n) == Cut(name)) {
      if d == dp && Lists(es, n, j) && Cut(n) != Cut(name) {
        var l :| 0 <= l < |es| && es[l] == Dirent(j, Cut(n)) && j != 0;
        assert es'[l] == es[l];
      }
    }
  }

  /** A removed directory in use is no exotic state: mkdir and unlink of the same name leave one. */
  lemma CreateAfterUnlink(ns: Nodes, root: nat, up: map<nat, nat>, i: nat, dp: nat, k: nat, name: string, kind: Kind, j: nat, name': string)
    requires TreeOk(ns, root, up) && Linked(ns, dp) && Absent(ns[dp].entries, name) && FreeSlot(ns[dp].entries, k)
    requires i !in ns && i != 0 && j !in ns && j != 0 && j != i && Absent(Fresh(Directory, i, dp).entries, name')
    ensures var made := CreateAt(ns, Directory, i, dp, k, name);
            var gone := UnlinkAt(made, dp, k);
            && Removes(made, dp, name, k) && TreeOk(gone, root, up[i := k])
            && i in gone && gone[i].kind == Directory && !Linked(gone, i)
            && FreeSlot(gone[i].entries, 2) && Absent(gone[i].entries, name')
            && forall up' :: !TreeOk(CreateAt(gone, kind, j, i, 2, name'), root, up')
  {
    var made := CreateAt(ns, Directory, i, dp, k, name);
    var gone := UnlinkAt(made, dp, k);
    DotsTaken(ns, root, up, dp, name, k);
    CreateOk(ns, root, up, Directory, i, dp, k, name);
    assert NodeOk(ns, root, up, dp);
    hide NodeOk, Names, DirOk, Removable;
    CanRemove(made, root, up[i := k], dp, k);
    UnlinkOk(made, root, up[i := k], dp, k);
    CreateNeedsLinkedParent(gone, root, up[i := k], kind, j, i, 2, name');
  }

  /** Entry k of a directory is the one that sys_unlink of `name` removes. */
  ghost predicate Removes(ns: Nodes, d: nat, name: string, k: int)
    requires d in ns
  {
    && 0 <= k < |ns[d].entries| && ns[d].entries[k].inum in ns && ns[d].entries[k].inum != 0
    && ns[d].entries[k].name == Cut(name) && Cut(name) != "." && Cut(name) != ".." && Empty(ns[ns[d].entries[k].inum])
  }

  lemma EntriesUnique(ns: Nodes, root: nat, up: map<nat, nat>, d: nat)
    requires TreeOk(ns, root, up) && d in ns && ns[d].kind == Directory
    ensures Unique(ns[d].entries)
  {
    assert NodeOk(ns, root, up, d);
  }

  /** The only entries of a removed directory are its dots. */
  lemma NothingToRemove(ns: Nodes, root: nat, up: map<nat, nat>, d: nat, k: nat)
    requires TreeOk(ns, root, up) && d in ns && ns[d].kind == Directory && !Linked(ns, d) && k < |ns[d].entries|
    ensures ns[d].entries[k].inum != 0 ==> ns[d].entries[k].name == "." || ns[d].entries[k].name == ".."
  {
    assert NodeOk(ns, root, up, d);
  }

  lemma EntryLives(ns: Nodes, root: nat, up: map<nat, nat>, d: nat, k: nat)
    requires TreeOk(ns, root, up) && Linked(ns, d) && k < |ns[d].entries| && ns[d].entries[k].inum != 0
    ensures ns[d].entries[k].inum in ns
  {
    assert NodeOk(ns, root, up, d) && EntryOk(ns, root, up, d, k);
  }
}
