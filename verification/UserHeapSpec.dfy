/**
 The free list of lib/ulibc/umalloc.c as a sequence of blocks. Addresses and sizes count
 headers of eight bytes.
 */
module UserHeapSpec {

  datatype Blk = Blk(a: nat, n: nat)

  datatype Header = Header(ptr: nat, size: nat)

  function End(b: Blk): nat { b.a + b.n }

  predicate InBlock(b: Blk, u: nat) { b.a <= u < b.a + b.n }

  /** Some listed block contains the unit. */
  predicate FreeAt(l: seq<Blk>, u: nat)
  {
    exists k :: 0 <= k < |l| && InBlock(l[k], u)
  }

  /** The empty block `base` first, then real blocks in address order, no two touching. */
  ghost predicate ListOk(l: seq<Blk>, base: nat)
  {
    && |l| > 0 && l[0] == Blk(base, 0)
    && (forall k :: 0 < k < |l| ==> l[k].n > 0)
    && (forall j, k :: 0 <= j < k < |l| ==> End(l[j]) < l[k].a)
  }

  lemma Order(l: seq<Blk>, base: nat, j: nat, k: nat)
    requires ListOk(l, base) && j < |l| && k < |l|
    ensures j < k ==> End(l[j]) < l[k].a
    ensures k < j ==> End(l[k]) < l[j].a
  {
  }

  function After(l: seq<Blk>, k: nat): nat
    requires k < |l|
  {
    if k + 1 < |l| then l[k + 1].a else l[0].a
  }

  ghost predicate CellOk(mem: map<nat, Header>, l: seq<Blk>, k: nat)
    requires k < |l|
  {
    l[k].a in mem && mem[l[k].a] == Header(After(l, k), l[k].n)
  }

  /** The headers in memory make one cycle through the blocks. */
  ghost predicate Linked(mem: map<nat, Header>, l: seq<Blk>)
  {
    forall k: nat {:trigger CellOk(mem, l, k)} :: k < |l| ==> CellOk(mem, l, k)
  }

  // ---------- free ----------

  /** The block after which one at address `a` belongs. */
  ghost predicate Place(l: seq<Blk>, a: nat, k: nat)
  {
    k < |l| && l[k].a < a && (k + 1 < |l| ==> a < l[k + 1].a)
  }

  ghost predicate JoinsNext(l: seq<Blk>, k: nat, b: Blk) { k + 1 < |l| && End(b) == l[k + 1].a }

  ghost predicate JoinsPrev(l: seq<Blk>, k: nat, b: Blk)
    requires k < |l|
  {
    End(l[k]) == b.a
  }

  /** Blocks cut..skip replaced by one block. */
  ghost function Splice(l: seq<Blk>, cut: nat, skip: nat, c: Blk): (r: seq<Blk>)
    requires cut <= skip <= |l|
    ensures |r| == cut + 1 + |l| - skip && r[cut] == c
    ensures forall j :: 0 <= j < cut ==> r[j] == l[j]
    ensures forall j :: cut < j < |r| ==> r[j] == l[j - cut - 1 + skip]
  {
    l[..cut] + [c] + l[skip..]
  }

  /** The list after `b` is put behind block `k`, joined to its neighbours where they touch. */
  ghost function Freed(l: seq<Blk>, k: nat, b: Blk): (r: seq<Blk>)
    requires k < |l|
  {
    var cut := if JoinsPrev(l, k, b) then k else k + 1;
    var skip := if JoinsNext(l, k, b) then k + 2 else k + 1;
    Splice(l, cut, skip, Joined(l, k, b))
  }

  ghost function Joined(l: seq<Blk>, k: nat, b: Blk): Blk
    requires k < |l|
  {
    var n := b.n + if JoinsNext(l, k, b) then l[k + 1].n else 0;
    if JoinsPrev(l, k, b) then Blk(l[k].a, l[k].n + n) else Blk(b.a, n)
  }

  /** No unit of the block is free. */
  ghost predicate Outside(l: seq<Blk>, b: Blk)
  {
    forall u :: InBlock(b, u) ==> !FreeAt(l, u)
  }

  lemma Gap(l: seq<Blk>, base: nat, k: nat, b: Blk)
    requires ListOk(l, base) && Place(l, b.a, k) && Outside(l, b) && b.n > 0
    ensures End(l[k]) <= b.a && (k + 1 < |l| ==> End(b) <= l[k + 1].a)
    ensures JoinsPrev(l, k, b) ==> k > 0
  {
    if b.a < End(l[k]) {
      assert InBlock(b, b.a) && InBlock(l[k], b.a);
    }
    if k + 1 < |l| && l[k + 1].a < End(b) {
      assert InBlock(b, l[k + 1].a) && InBlock(l[k + 1], l[k + 1].a);
    }
  }

  lemma SpliceListOk(l: seq<Blk>, base: nat, cut: nat, skip: nat, c: Blk)
    requires ListOk(l, base) && 0 < cut <= skip <= |l| && c.n > 0
    requires End(l[cut - 1]) < c.a && (skip < |l| ==> End(c) < l[skip].a)
    ensures ListOk(Splice(l, cut, skip, c), base)
  {
    var r := Splice(l, cut, skip, c);
    forall i, j | 0 <= i < j < |r| ensures End(r[i]) < r[j].a {
      if j == cut {
        assert i < cut - 1 ==> End(l[i]) < l[cut - 1].a;
      } else if i == cut {
        assert skip < j - cut - 1 + skip ==> End(l[skip]) < l[j - cut - 1 + skip].a;
      }
    }
  }

  lemma FreedListOk(l: seq<Blk>, base: nat, k: nat, b: Blk)
    requires ListOk(l, base) && Place(l, b.a, k) && Outside(l, b) && b.n > 0
    ensures ListOk(Freed(l, k, b), base)
  {
    Gap(l, base, k, b);
    var cut := if JoinsPrev(l, k, b) then k else k + 1;
    var skip := if JoinsNext(l, k, b) then k + 2 else k + 1;
    SpliceListOk(l, base, cut, skip, Joined(l, k, b));
  }

  /** A splice covers what it kept and the new block, nothing else. */
  lemma SpliceCovers(l: seq<Blk>, cut: nat, skip: nat, c: Blk, u: nat)
    requires cut <= skip <= |l|
    ensures FreeAt(Splice(l, cut, skip, c), u) <==> FreeAt(l[..cut], u) || InBlock(c, u) || FreeAt(l[skip..], u)
    ensures FreeAt(l, u) <==> FreeAt(l[..cut], u) || FreeAt(l[cut..skip], u) || FreeAt(l[skip..], u)
  {
    var r := Splice(l, cut, skip, c);
    hide InBlock;
    Concat(l[..cut], [c] + l[skip..], u);
    Concat([c], l[skip..], u);
    assert FreeAt([c], u) <==> InBlock(c, u) by { assert [c][0] == c; }
    assert r == l[..cut] + ([c] + l[skip..]);
    Concat(l[..cut], l[cut..], u);
    Concat(l[cut..skip], l[skip..], u);
    assert l == l[..cut] + l[cut..] && l[cut..] == l[cut..skip] + l[skip..];
  }

  lemma Concat(l: seq<Blk>, m: seq<Blk>, u: nat)
    ensures FreeAt(l + m, u) <==> FreeAt(l, u) || FreeAt(m, u)
  {
    hide InBlock;
    var r := l + m;
    if FreeAt(l, u) {
      var k :| 0 <= k < |l| && InBlock(l[k], u);
      assert InBlock(r[k], u);
    }
    if FreeAt(m, u) {
      var k :| 0 <= k < |m| && InBlock(m[k], u);
      assert InBlock(r[|l| + k], u);
    }
    if FreeAt(r, u) {
      var k :| 0 <= k < |r| && InBlock(r[k], u);
      assert k < |l| ==> InBlock(l[k], u);
      assert k >= |l| ==> InBlock(m[k - |l|], u);
    }
  }

  lemma FreeAtOne(x: Blk, u: nat)
    ensures FreeAt([x], u) <==> InBlock(x, u)
  {
    assert [x][0] == x;
  }

  /** The joined block is the freed one and the blocks it replaces. */
  lemma JoinedCovers(l: seq<Blk>, k: nat, b: Blk, u: nat)
    requires k < |l| && End(l[k]) <= b.a && (k + 1 < |l| ==> End(b) <= l[k + 1].a)
    ensures var cut := if JoinsPrev(l, k, b) then k else k + 1;
            var skip := if JoinsNext(l, k, b) then k + 2 else k + 1;
            InBlock(Joined(l, k, b), u) <==> FreeAt(l[cut..skip], u) || InBlock(b, u)
  {
    FreeAtOne(l[k], u);
    assert l[k..k + 1] == [l[k]];
    if JoinsNext(l, k, b) {
      FreeAtOne(l[k + 1], u);
      Concat([l[k]], [l[k + 1]], u);
      assert l[k + 1..k + 2] == [l[k + 1]] && l[k..k + 2] == [l[k]] + [l[k + 1]];
    }
  }

  lemma FreedCovers(l: seq<Blk>, base: nat, k: nat, b: Blk, u: nat)
    requires ListOk(l, base) && Place(l, b.a, k) && Outside(l, b) && b.n > 0
    ensures FreeAt(Freed(l, k, b), u) <==> FreeAt(l, u) || InBlock(b, u)
  {
    Gap(l, base, k, b);
    var cut := if JoinsPrev(l, k, b) then k else k + 1;
    var skip := if JoinsNext(l, k, b) then k + 2 else k + 1;
    SpliceCovers(l, cut, skip, Joined(l, k, b), u);
    JoinedCovers(l, k, b, u);
  }

  /** The header writes of free. */
  ghost function FreedMem(mem: map<nat, Header>, l: seq<Blk>, k: nat, b: Blk): map<nat, Header>
    requires k < |l| && CellOk(mem, l, k) && (k + 1 < |l| ==> CellOk(mem, l, k + 1))
  {
    var p, next := l[k].a, After(l, k);
    var h := if JoinsNext(l, k, b) then Header(mem[next].ptr, b.n + mem[next].size) else Header(next, b.n);
    if JoinsPrev(l, k, b) then mem[b.a := h][p := Header(h.ptr, mem[p].size + h.size)]
    else mem[b.a := h][p := Header(b.a, mem[p].size)]
  }

  lemma FreedLinked(mem: map<nat, Header>, l: seq<Blk>, base: nat, k: nat, b: Blk)
    requires ListOk(l, base) && Linked(mem, l) && Place(l, b.a, k) && Outside(l, b) && b.n > 0
    ensures CellOk(mem, l, k) && (k + 1 < |l| ==> CellOk(mem, l, k + 1))
    ensures Linked(FreedMem(mem, l, k, b), Freed(l, k, b))
  {
    assert CellOk(mem, l, k) && (k + 1 < |l| ==> CellOk(mem, l, k + 1));
    var m, r := FreedMem(mem, l, k, b), Freed(l, k, b);
    forall j: nat | j < |r| ensures CellOk(m, r, j) {
      FreedCell(mem, l, base, k, b, j);
    }
  }

  lemma FreedCell(mem: map<nat, Header>, l: seq<Blk>, base: nat, k: nat, b: Blk, j: nat)
    requires ListOk(l, base) && Linked(mem, l) && Place(l, b.a, k) && Outside(l, b) && b.n > 0
    requires CellOk(mem, l, k) && (k + 1 < |l| ==> CellOk(mem, l, k + 1)) && j < |Freed(l, k, b)|
    ensures CellOk(FreedMem(mem, l, k, b), Freed(l, k, b), j)
  {
    hide ListOk, Outside, Freed, CellOk, Linked;
    var cut := if JoinsPrev(l, k, b) then k else k + 1;
    FreedIsSplice(l, k, b);
    if j <= cut {
      FreedLowCell(mem, l, base, k, b, j);
    } else {
      FreedHighCell(mem, l, base, k, b, j);
    }
  }

  lemma FreedLowCell(mem: map<nat, Header>, l: seq<Blk>, base: nat, k: nat, b: Blk, j: nat)
    requires ListOk(l, base) && Linked(mem, l) && Place(l, b.a, k) && Outside(l, b) && b.n > 0
    requires CellOk(mem, l, k) && (k + 1 < |l| ==> CellOk(mem, l, k + 1))
    requires j < |Freed(l, k, b)| && j <= if JoinsPrev(l, k, b) then k else k + 1
    ensures CellOk(FreedMem(mem, l, k, b), Freed(l, k, b), j)
  {
    hide ListOk, Outside, Freed;
    Gap(l, base, k, b);
    var cut := if JoinsPrev(l, k, b) then k else k + 1;
    var skip := if JoinsNext(l, k, b) then k + 2 else k + 1;
    FreedIsSplice(l, k, b);
    SpliceAfter(l, cut, skip, Joined(l, k, b), j);
    if j < cut {
      assert CellOk(mem, l, j);
      Order(l, base, j, k);
    }
  }

  lemma FreedHighCell(mem: map<nat, Header>, l: seq<Blk>, base: nat, k: nat, b: Blk, j: nat)
    requires ListOk(l, base) && Linked(mem, l) && Place(l, b.a, k) && Outside(l, b) && b.n > 0
    requires CellOk(mem, l, k) && (k + 1 < |l| ==> CellOk(mem, l, k + 1))
    requires j < |Freed(l, k, b)| && j > if JoinsPrev(l, k, b) then k else k + 1
    ensures CellOk(FreedMem(mem, l, k, b), Freed(l, k, b), j)
  {
    hide ListOk, Outside, Freed, Joined, FreedMem, After;
    Gap(l, base, k, b);
    var cut := if JoinsPrev(l, k, b) then k else k + 1;
    var skip := if JoinsNext(l, k, b) then k + 2 else k + 1;
    FreedIsSplice(l, k, b);
    SpliceAfter(l, cut, skip, Joined(l, k, b), j);
    var o := j - cut - 1 + skip;
    assert CellOk(mem, l, o);
    Order(l, base, k, o);
    Order(l, base, k + 1, o);
    FreedMemKeeps(mem, l, k, b, l[o].a);
  }

  lemma FreedMemKeeps(mem: map<nat, Header>, l: seq<Blk>, k: nat, b: Blk, a: nat)
    requires k < |l| && CellOk(mem, l, k) && (k + 1 < |l| ==> CellOk(mem, l, k + 1))
    requires a in mem && a != b.a && a != l[k].a
    ensures a in FreedMem(mem, l, k, b) && FreedMem(mem, l, k, b)[a] == mem[a]
  {
  }

  lemma FreedIsSplice(l: seq<Blk>, k: nat, b: Blk)
    requires k < |l|
    ensures Freed(l, k, b) == Splice(l, if JoinsPrev(l, k, b) then k else k + 1, if JoinsNext(l, k, b) then k + 2 else k + 1, Joined(l, k, b))
  {
  }

  lemma SpliceAfter(l: seq<Blk>, cut: nat, skip: nat, c: Blk, j: nat)
    requires 0 < cut <= skip <= |l| && j < cut + 1 + |l| - skip
    ensures After(Splice(l, cut, skip, c), j) ==
            if j + 1 < cut then After(l, j)
            else if j + 1 == cut then c.a
            else if j == cut then (if skip < |l| then l[skip].a else l[0].a)
            else After(l, j - cut - 1 + skip)
  {
  }

  // ---------- malloc ----------

  /** The block handed out: the tail of block `k`. */
  function Tail(l: seq<Blk>, k: nat, n: nat): Blk
    requires k < |l| && n <= l[k].n
  {
    Blk(l[k].a + l[k].n - n, n)
  }

  ghost function Taken(l: seq<Blk>, k: nat, n: nat): seq<Blk>
    requires k < |l| && n <= l[k].n
  {
    if l[k].n == n then l[..k] + l[k + 1..] else Splice(l, k, k + 1, Blk(l[k].a, l[k].n - n))
  }

  lemma TakenListOk(l: seq<Blk>, base: nat, k: nat, n: nat)
    requires ListOk(l, base) && 0 < k < |l| && 0 < n <= l[k].n
    ensures ListOk(Taken(l, k, n), base)
  {
    hide ListOk, Splice;
    if l[k].n == n {
      DroppedListOk(l, base, k);
    } else {
      Order(l, base, k - 1, k);
      if k + 1 < |l| {
        Order(l, base, k, k + 1);
      }
      SpliceListOk(l, base, k, k + 1, Blk(l[k].a, l[k].n - n));
    }
  }

  /** What ListOk says of one block. */
  lemma Kept(l: seq<Blk>, base: nat, k: nat)
    requires ListOk(l, base) && k < |l|
    ensures l[0] == Blk(base, 0) && (k > 0 ==> l[k].n > 0)
  {
  }

  lemma IsList(r: seq<Blk>, base: nat)
    requires |r| > 0 && r[0] == Blk(base, 0) && (forall k :: 0 < k < |r| ==> r[k].n > 0)
    requires forall j, k :: 0 <= j < k < |r| ==> End(r[j]) < r[k].a
    ensures ListOk(r, base)
  {
  }

  lemma DroppedListOk(l: seq<Blk>, base: nat, k: nat)
    requires ListOk(l, base) && 0 < k < |l|
    ensures ListOk(l[..k] + l[k + 1..], base)
  {
    hide ListOk;
    var r := l[..k] + l[k + 1..];
    Kept(l, base, 0);
    forall i | 0 < i < |r| ensures r[i].n > 0 {
      Kept(l, base, if i < k then i else i + 1);
    }
    forall i, j | 0 <= i < j < |r| ensures End(r[i]) < r[j].a {
      Order(l, base, if i < k then i else i + 1, if j < k then j else j + 1);
    }
    IsList(r, base);
  }

  /** A unit lies in one block only. */
  lemma OnlyHere(l: seq<Blk>, base: nat, k: nat, u: nat)
    requires ListOk(l, base) && k < |l| && InBlock(l[k], u)
    ensures !FreeAt(l[..k], u) && !FreeAt(l[k + 1..], u)
  {
    hide ListOk;
    forall i | 0 <= i < k ensures !InBlock(l[..k][i], u) {
      Order(l, base, i, k);
    }
    var after := l[k + 1..];
    forall i | 0 <= i < |after| ensures !InBlock(after[i], u) {
      Order(l, base, k, k + 1 + i);
    }
  }

  lemma TakenCovers(l: seq<Blk>, base: nat, k: nat, n: nat, u: nat)
    requires ListOk(l, base) && 0 < k < |l| && 0 < n <= l[k].n
    ensures FreeAt(Taken(l, k, n), u) <==> FreeAt(l, u) && !InBlock(Tail(l, k, n), u)
    ensures InBlock(Tail(l, k, n), u) ==> FreeAt(l, u)
  {
    hide ListOk, Splice, FreeAt;
    var c := Blk(l[k].a, l[k].n - n);
    SpliceCovers(l, k, k + 1, c, u);
    assert l[k..k + 1] == [l[k]];
    FreeAtOne(l[k], u);
    Concat(l[..k], l[k + 1..], u);
    if InBlock(l[k], u) {
      OnlyHere(l, base, k, u);
    }
  }

  /** The header writes of malloc: unlink an exact fit, or shrink the block and give its tail a header. */
  ghost function TakenMem(mem: map<nat, Header>, l: seq<Blk>, k: nat, n: nat): map<nat, Header>
    requires 0 < k < |l| && n <= l[k].n && CellOk(mem, l, k) && CellOk(mem, l, k - 1)
  {
    var p, prev := l[k].a, l[k - 1].a;
    if l[k].n == n then mem[prev := Header(mem[p].ptr, mem[prev].size)]
    else
      var m := mem[p := Header(mem[p].ptr, mem[p].size - n)];
      var t := Tail(l, k, n).a;
      m[t := Header(if t in m then m[t].ptr else 0, n)]
  }

  lemma TakenLinked(mem: map<nat, Header>, l: seq<Blk>, base: nat, k: nat, n: nat)
    requires ListOk(l, base) && Linked(mem, l) && 0 < k < |l| && 0 < n <= l[k].n
    ensures CellOk(mem, l, k) && CellOk(mem, l, k - 1)
    ensures Linked(TakenMem(mem, l, k, n), Taken(l, k, n))
  {
    assert CellOk(mem, l, k) && CellOk(mem, l, k - 1);
    var m, r := TakenMem(mem, l, k, n), Taken(l, k, n);
    forall j: nat | j < |r| ensures CellOk(m, r, j) {
      TakenCell(mem, l, base, k, n, j);
    }
  }

  lemma TakenCell(mem: map<nat, Header>, l: seq<Blk>, base: nat, k: nat, n: nat, j: nat)
    requires ListOk(l, base) && Linked(mem, l) && 0 < k < |l| && 0 < n <= l[k].n
    requires CellOk(mem, l, k) && CellOk(mem, l, k - 1) && j < |Taken(l, k, n)|
    ensures CellOk(TakenMem(mem, l, k, n), Taken(l, k, n), j)
  {
    hide ListOk;
    var r := Taken(l, k, n);
    var o := if l[k].n == n && j >= k then j + 1 else j;
    assert CellOk(mem, l, o);
    Order(l, base, o, k);
    Order(l, base, o, k - 1);
    if l[k].n == n {
      assert r[j] == l[o];
      assert j + 1 < |r| ==> r[j + 1] == l[if j + 1 < k then j + 1 else j + 2];
    } else {
      SpliceAfter(l, k, k + 1, Blk(l[k].a, l[k].n - n), j);
    }
  }
}
