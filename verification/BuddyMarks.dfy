/**
 The marks of one order in kern/mm/buddy.c: a bitmap of 32 blocks each, and packed 16-bit
 links that thread the marks with a non-zero bitmap into a doubly linked list.
 */
module BuddyMarks {

  const NIL: nat := 0xFFFF

  type Bits = b: seq<bool> | |b| == 32 witness seq(32, _ => false)

  predicate Zero(b: Bits) { forall i :: 0 <= i < 32 ==> !b[i] }

  type Word = w: nat | w < 0x1_0000_0000

  datatype Mark = Mark(lnks: Word, bitmap: Bits)

  // ---------- packed links ----------

  function PreLnk(l: Word): (n: nat)
    ensures n <= NIL
  {
    l / 0x10000
  }

  function NextLnk(l: Word): (n: nat)
    ensures n <= NIL
  {
    l % 0x10000
  }

  /** LNKS in 32-bit arithmetic: both halves keep their low 16 bits only. */
  function Lnks(pre: nat, next: nat): Word
  {
    pre % 0x10000 * 0x10000 + next % 0x10000
  }

  /** Links survive packing exactly when both indexes fit in 16 bits. */
  lemma LinksRoundTrip(pre: nat, next: nat)
    ensures PreLnk(Lnks(pre, next)) == pre && NextLnk(Lnks(pre, next)) == next <==> pre <= NIL && next <= NIL
  {
  }

  // ---------- bitmaps ----------

  /** Bit id & 0x1F of the 32-bit bitmap. */
  predicate Bit(b: Bits, id: nat) { b[id % 32] }

  function SetBit(b: Bits, id: nat): (r: Bits)
    ensures !Zero(r)
    ensures forall j: nat :: Bit(r, j) <==> Bit(b, j) || j % 32 == id % 32
  {
    var r := b[id % 32 := true];
    assert r[id % 32];
    r
  }

  function ClearBit(b: Bits, id: nat): (r: Bits)
    ensures forall j: nat :: Bit(r, j) <==> Bit(b, j) && j % 32 != id % 32
  {
    b[id % 32 := false]
  }

  // ---------- the list of one order ----------

  function NextOf(list: seq<nat>, j: nat): nat { if j + 1 < |list| then list[j + 1] else NIL }

  function PrevOf(list: seq<nat>, j: nat): nat { if 0 < j <= |list| then list[j - 1] else NIL }

  /** `pos` gives the place of every listed mark, so none is listed twice. */
  ghost predicate PlacesOk(list: seq<nat>, pos: seq<nat>)
  {
    forall j :: 0 <= j < |list| ==> list[j] < |pos| && pos[list[j]] == j
  }

  ghost predicate NextsOk(ms: seq<Mark>, list: seq<nat>)
  {
    forall j {:trigger ms[list[j]].lnks} :: 0 <= j < |list| ==>
      list[j] < |ms| && NextLnk(ms[list[j]].lnks) == NextOf(list, j)
  }

  ghost predicate PrevsOk(ms: seq<Mark>, list: seq<nat>)
  {
    forall j {:trigger ms[list[j]].lnks} :: 0 <= j < |list| ==>
      list[j] < |ms| && PreLnk(ms[list[j]].lnks) == PrevOf(list, j)
  }

  /** The list holds exactly the marks whose bitmap is not zero. */
  ghost predicate MembersOk(ms: seq<Mark>, list: seq<nat>, pos: seq<nat>)
  {
    && |pos| == |ms|
    && (forall j :: 0 <= j < |list| ==> list[j] < |ms| && !Zero(ms[list[j]].bitmap))
    && (forall i :: 0 <= i < |ms| && !Zero(ms[i].bitmap) ==> pos[i] < |list| && list[pos[i]] == i)
  }

  /** The links thread the marks of `list`, from `head` on, and nothing on it looks like its end. */
  ghost predicate Threaded(ms: seq<Mark>, head: nat, list: seq<nat>, pos: seq<nat>)
  {
    && head == (if list == [] then NIL else list[0])
    && NIL !in list
    && PlacesOk(list, pos) && NextsOk(ms, list) && PrevsOk(ms, list) && MembersOk(ms, list, pos)
  }

  /** As Threaded, of so few marks that 16 bits name them all. */
  ghost predicate ListOk(ms: seq<Mark>, head: nat, list: seq<nat>, pos: seq<nat>)
  {
    |ms| <= NIL && Threaded(ms, head, list, pos)
  }

  // inserting in front

  function Relink(ms: seq<Mark>, i: nat, pre: nat, next: nat): (r: seq<Mark>)
    requires i < |ms|
    ensures |r| == |ms| && r == ms[i := r[i]] && r[i].bitmap == ms[i].bitmap
    ensures pre <= NIL ==> PreLnk(r[i].lnks) == pre
    ensures next <= NIL ==> NextLnk(r[i].lnks) == next
  {
    LinksRoundTrip(pre, 0);
    ms[i := ms[i].(lnks := Lnks(pre, next))]
  }

  function FrontPos(pos: seq<nat>, i: nat): (r: seq<nat>)
    ensures |r| == |pos|
  {
    seq(|pos|, j requires 0 <= j < |pos| => if j == i then 0 else pos[j] + 1)
  }

  /** mark_blk's link writes, for a mark whose bitmap just became non-zero. */
  function Pushed(ms: seq<Mark>, head: nat, i: nat): (r: seq<Mark>)
    requires i < |ms| && (head != NIL ==> head < |ms|)
    ensures |r| == |ms|
  {
    var m := Relink(ms, i, NIL, head);
    if head != NIL then Relink(m, head, i, NextLnk(m[head].lnks)) else m
  }

  lemma PushKeepsList(ms: seq<Mark>, head: nat, list: seq<nat>, pos: seq<nat>, i: nat, bm: Bits)
    requires ListOk(ms, head, list, pos) && i < |ms| && Zero(ms[i].bitmap) && !Zero(bm)
    ensures head != NIL ==> head < |ms|
    ensures ListOk(Pushed(ms[i := ms[i].(bitmap := bm)], head, i), i, [i] + list, FrontPos(pos, i))
  {
    assert list != [] ==> pos[list[0]] == 0;
    PushThreads(ms, head, list, pos, i, bm);
  }

  /** What mark_blk asks of the mark it links and of the head it finds, for its links to be right. */
  predicate Linkable(head: nat, i: nat)
  {
    (i < NIL && head <= NIL) || (i > NIL && head == NIL)
  }

  lemma PushThreads(ms: seq<Mark>, head: nat, list: seq<nat>, pos: seq<nat>, i: nat, bm: Bits)
    requires Threaded(ms, head, list, pos) && i < |ms| && Zero(ms[i].bitmap) && !Zero(bm) && Linkable(head, i)
    ensures head != NIL ==> head < |ms|
    ensures Threaded(Pushed(ms[i := ms[i].(bitmap := bm)], head, i), i, [i] + list, FrontPos(pos, i))
  {
    hide PreLnk, NextLnk, Lnks, Relink, Pushed;
    assert list != [] ==> pos[list[0]] == 0 && list[0] in list;
    var ms' := ms[i := ms[i].(bitmap := bm)];
    SameLinks(ms, ms', list, pos);
    PushNexts(ms', head, list, pos, i);
    PushPrevs(ms', head, list, pos, i);
    PushMembers(ms, head, list, pos, i, bm);
  }

  /**
   mark_blk keeps the list of an order threaded if and only if the mark's own index is not
   taken for the end of the list, and the 16-bit links can name both ends of the new link.
   */
  lemma PushThreadsExactly(ms: seq<Mark>, head: nat, list: seq<nat>, pos: seq<nat>, i: nat, bm: Bits)
    requires Threaded(ms, head, list, pos) && i < |ms| && Zero(ms[i].bitmap) && !Zero(bm)
    ensures head != NIL ==> head < |ms|
    ensures var r := Pushed(ms[i := ms[i].(bitmap := bm)], head, i);
            (exists l, q :: Threaded(r, i, l, q)) <==> Linkable(head, i)
  {
    hide Linkable;
    assert list != [] ==> pos[list[0]] == 0 && list[0] in list;
    var r := Pushed(ms[i := ms[i].(bitmap := bm)], head, i);
    if Linkable(head, i) {
      PushThreads(ms, head, list, pos, i, bm);
    }
    forall l, q | Threaded(r, i, l, q) ensures Linkable(head, i) {
      PushedLinks(ms, head, list, pos, i, bm, l, q);
    }
  }

  lemma PushedLinks(ms: seq<Mark>, head: nat, list: seq<nat>, pos: seq<nat>, i: nat, bm: Bits, l: seq<nat>, q: seq<nat>)
    requires Threaded(ms, head, list, pos) && i < |ms| && Zero(ms[i].bitmap) && !Zero(bm)
    requires head != NIL ==> head < |ms|
    requires Threaded(Pushed(ms[i := ms[i].(bitmap := bm)], head, i), i, l, q)
    ensures Linkable(head, i)
  {
    hide Zero, PreLnk, NextLnk, Relink;
    var r := Pushed(ms[i := ms[i].(bitmap := bm)], head, i);
    assert r[i].bitmap == bm;
    assert l[q[i]] == i && i in l;
    if head != NIL {
      assert list != [] && head == list[0] && head != i;
      assert r[head].bitmap == ms[head].bitmap;
      SecondIsLinked(r, i, head, l, q);
    }
  }

  /** In a list whose first mark names the second, 16 bits hold both. */
  lemma SecondIsLinked(r: seq<Mark>, i: nat, head: nat, l: seq<nat>, q: seq<nat>)
    requires Threaded(r, i, l, q) && i < |r| && head < |r| && head != i && i != NIL && !Zero(r[head].bitmap)
    requires head <= NIL ==> NextLnk(r[i].lnks) == head
    ensures i < NIL && head <= NIL
  {
    hide Zero, PreLnk, NextLnk;
    var p := q[head];
    assert l[p] == head && p > 0;
    assert NextLnk(r[l[p - 1]].lnks) == NextOf(l, p - 1) == head;
    assert l[0] == i && NextLnk(r[l[0]].lnks) == NextOf(l, 0) == l[1] == head;
    assert PreLnk(r[l[1]].lnks) == PrevOf(l, 1) == i;
  }

  lemma PushMembers(ms: seq<Mark>, head: nat, list: seq<nat>, pos: seq<nat>, i: nat, bm: Bits)
    requires MembersOk(ms, list, pos) && PlacesOk(list, pos) && i < |ms| && Zero(ms[i].bitmap) && !Zero(bm)
    requires head != NIL ==> head < |ms|
    ensures var r := Pushed(ms[i := ms[i].(bitmap := bm)], head, i);
            MembersOk(r, [i] + list, FrontPos(pos, i)) && PlacesOk([i] + list, FrontPos(pos, i))
  {
    hide PreLnk, NextLnk, Lnks, Relink, Zero;
    var r, l, q := Pushed(ms[i := ms[i].(bitmap := bm)], head, i), [i] + list, FrontPos(pos, i);
    assert forall j :: 0 <= j < |r| ==> r[j].bitmap == if j == i then bm else ms[j].bitmap;
    forall j | 0 <= j < |l| ensures l[j] < |r| && !Zero(r[l[j]].bitmap) && q[l[j]] == j {
      if j > 0 {
        assert l[j] == list[j - 1] && pos[list[j - 1]] == j - 1;
      }
    }
  }

  lemma PushNexts(ms: seq<Mark>, head: nat, list: seq<nat>, pos: seq<nat>, i: nat)
    requires i < |ms| == |pos| && i !in list && NextsOk(ms, list) && PlacesOk(list, pos)
    requires head == (if list == [] then NIL else list[0]) && (head != NIL ==> head < |ms|) && head <= NIL
    requires NIL !in list
    ensures NextsOk(Pushed(ms, head, i), [i] + list)
  {
    hide PreLnk, NextLnk, Lnks, Relink;
    var r, l := Pushed(ms, head, i), [i] + list;
    forall j | 0 <= j < |l| ensures l[j] < |r| && NextLnk(r[l[j]].lnks) == NextOf(l, j) {
      if j > 0 {
        assert l[j] == list[j - 1] && pos[list[j - 1]] == j - 1;
        assert NextLnk(ms[list[j - 1]].lnks) == NextOf(list, j - 1);
        assert j > 1 ==> pos[list[j - 1]] != pos[list[0]];
      }
    }
  }

  lemma PushPrevs(ms: seq<Mark>, head: nat, list: seq<nat>, pos: seq<nat>, i: nat)
    requires i < |ms| == |pos| && i !in list && PrevsOk(ms, list) && PlacesOk(list, pos)
    requires head == (if list == [] then NIL else list[0]) && (head != NIL ==> head < |ms|) && Linkable(head, i)
    requires NIL !in list
    ensures PrevsOk(Pushed(ms, head, i), [i] + list)
  {
    hide PreLnk, NextLnk, Lnks, Relink;
    var r, l := Pushed(ms, head, i), [i] + list;
    forall j | 0 <= j < |l| ensures l[j] < |r| && PreLnk(r[l[j]].lnks) == PrevOf(l, j) {
      if j > 0 {
        assert l[j] == list[j - 1] && pos[list[j - 1]] == j - 1;
        assert PreLnk(ms[list[j - 1]].lnks) == PrevOf(list, j - 1);
        assert j > 1 ==> pos[list[j - 1]] != pos[list[0]];
      }
    }
  }

  // removing

  /** unmark_blk's link writes, for a mark whose bitmap just became zero. */
  function Unlinked(ms: seq<Mark>, i: nat): (r: seq<Mark>)
    requires i < |ms|
    requires var p, n := PreLnk(ms[i].lnks), NextLnk(ms[i].lnks); (p != NIL ==> p < |ms|) && (n != NIL ==> n < |ms|)
    ensures |r| == |ms|
  {
    var p, n := PreLnk(ms[i].lnks), NextLnk(ms[i].lnks);
    var m := if p != NIL then Relink(ms, p, PreLnk(ms[p].lnks), n) else ms;
    var m' := if n != NIL then Relink(m, n, p, NextLnk(m[n].lnks)) else m;
    Relink(m', i, NIL, NIL)
  }

  function UnlinkedHead(ms: seq<Mark>, head: nat, i: nat): nat
    requires i < |ms|
  {
    if PreLnk(ms[i].lnks) == NIL && head == i then NextLnk(ms[i].lnks) else head
  }

  ghost function Cut(list: seq<nat>, k: nat): (r: seq<nat>)
    requires k < |list|
    ensures |r| == |list| - 1
    ensures forall j :: 0 <= j < |r| ==> r[j] == list[if j < k then j else j + 1]
  {
    list[..k] + list[k + 1..]
  }

  function CutPos(pos: seq<nat>, k: nat): (r: seq<nat>)
    ensures |r| == |pos|
  {
    seq(|pos|, j requires 0 <= j < |pos| => if pos[j] > k then pos[j] - 1 else pos[j])
  }

  lemma LinksOf(ms: seq<Mark>, list: seq<nat>, pos: seq<nat>, k: nat)
    requires |pos| == |ms| && PlacesOk(list, pos) && NextsOk(ms, list) && PrevsOk(ms, list) && NIL !in list && k < |list|
    ensures list[k] < |ms|
    ensures PreLnk(ms[list[k]].lnks) == PrevOf(list, k) && (k > 0 ==> list[k - 1] < |ms|)
    ensures NextLnk(ms[list[k]].lnks) == NextOf(list, k) && (k + 1 < |list| ==> list[k + 1] < |ms|)
  {
    hide PreLnk, NextLnk;
    assert pos[list[k]] == k;
    assert ms[list[k]].lnks >= 0;
    assert k > 0 ==> pos[list[k - 1]] == k - 1;
    assert k + 1 < |list| ==> pos[list[k + 1]] == k + 1;
  }

  lemma UnlinkNext(ms: seq<Mark>, list: seq<nat>, pos: seq<nat>, k: nat, j: nat)
    requires |pos| == |ms| && PlacesOk(list, pos) && NextsOk(ms, list) && PrevsOk(ms, list) && NIL !in list && k < |list| && j < |list| - 1
    requires list[k] < |ms|
    requires var p, n := PreLnk(ms[list[k]].lnks), NextLnk(ms[list[k]].lnks); (p != NIL ==> p < |ms|) && (n != NIL ==> n < |ms|)
    ensures var r, l := Unlinked(ms, list[k]), Cut(list, k); l[j] < |r| && NextLnk(r[l[j]].lnks) == NextOf(l, j)
  {
    hide PreLnk, NextLnk, Lnks, Relink, NextsOk, PrevsOk;
    var o := if j < k then j else j + 1;
    LinksOf(ms, list, pos, k);
    LinksOf(ms, list, pos, o);
    assert pos[list[o]] == o && pos[list[k]] == k;
    assert k > 0 ==> pos[list[k - 1]] == k - 1;
  }

  lemma UnlinkNexts(ms: seq<Mark>, list: seq<nat>, pos: seq<nat>, k: nat)
    requires |pos| == |ms| && PlacesOk(list, pos) && NextsOk(ms, list) && PrevsOk(ms, list) && NIL !in list && k < |list|
    ensures list[k] < |ms|
    ensures var p, n := PreLnk(ms[list[k]].lnks), NextLnk(ms[list[k]].lnks); (p != NIL ==> p < |ms|) && (n != NIL ==> n < |ms|)
    ensures NextsOk(Unlinked(ms, list[k]), Cut(list, k))
  {
    hide PreLnk, NextLnk, PlacesOk, Unlinked, PrevsOk;
    LinksOf(ms, list, pos, k);
    var r, l := Unlinked(ms, list[k]), Cut(list, k);
    forall j | 0 <= j < |l| ensures l[j] < |r| && NextLnk(r[l[j]].lnks) == NextOf(l, j) {
      UnlinkNext(ms, list, pos, k, j);
    }
  }

  lemma UnlinkPrev(ms: seq<Mark>, list: seq<nat>, pos: seq<nat>, k: nat, j: nat)
    requires |pos| == |ms| && PlacesOk(list, pos) && NextsOk(ms, list) && PrevsOk(ms, list) && NIL !in list && k < |list| && j < |list| - 1
    requires list[k] < |ms|
    requires var p, n := PreLnk(ms[list[k]].lnks), NextLnk(ms[list[k]].lnks); (p != NIL ==> p < |ms|) && (n != NIL ==> n < |ms|)
    ensures var r, l := Unlinked(ms, list[k]), Cut(list, k); l[j] < |r| && PreLnk(r[l[j]].lnks) == PrevOf(l, j)
  {
    hide PreLnk, NextLnk, Lnks, Relink, NextsOk, PrevsOk;
    var o := if j < k then j else j + 1;
    LinksOf(ms, list, pos, k);
    LinksOf(ms, list, pos, o);
    assert pos[list[o]] == o && pos[list[k]] == k;
    assert k + 1 < |list| ==> pos[list[k + 1]] == k + 1;
  }

  lemma UnlinkPrevs(ms: seq<Mark>, list: seq<nat>, pos: seq<nat>, k: nat)
    requires |pos| == |ms| && PlacesOk(list, pos) && NextsOk(ms, list) && PrevsOk(ms, list) && NIL !in list && k < |list|
    ensures list[k] < |ms|
    ensures var p, n := PreLnk(ms[list[k]].lnks), NextLnk(ms[list[k]].lnks); (p != NIL ==> p < |ms|) && (n != NIL ==> n < |ms|)
    ensures PrevsOk(Unlinked(ms, list[k]), Cut(list, k))
  {
    hide PreLnk, NextLnk, PlacesOk, Unlinked, NextsOk;
    LinksOf(ms, list, pos, k);
    var r, l := Unlinked(ms, list[k]), Cut(list, k);
    forall j | 0 <= j < |l| ensures l[j] < |r| && PreLnk(r[l[j]].lnks) == PrevOf(l, j) {
      UnlinkPrev(ms, list, pos, k, j);
    }
  }

  lemma UnlinkKeepsList(ms: seq<Mark>, head: nat, list: seq<nat>, pos: seq<nat>, i: nat, bm: Bits)
    requires ListOk(ms, head, list, pos) && i < |ms| && !Zero(ms[i].bitmap) && Zero(bm)
    ensures pos[i] < |list| && list[pos[i]] == i
    ensures var p, n := PreLnk(ms[i].lnks), NextLnk(ms[i].lnks); (p != NIL ==> p < |ms|) && (n != NIL ==> n < |ms|)
    ensures var ms' := ms[i := ms[i].(bitmap := bm)];
            ListOk(Unlinked(ms', i), UnlinkedHead(ms', head, i), Cut(list, pos[i]), CutPos(pos, pos[i]))
  {
    hide Threaded, Zero, Unlinked, UnlinkedHead, PreLnk, NextLnk;
    UnlinkThreads(ms, head, list, pos, i, bm);
  }

  /** unmark_blk keeps every threaded list threaded. */
  lemma UnlinkThreads(ms: seq<Mark>, head: nat, list: seq<nat>, pos: seq<nat>, i: nat, bm: Bits)
    requires Threaded(ms, head, list, pos) && i < |ms| && !Zero(ms[i].bitmap) && Zero(bm)
    ensures pos[i] < |list| && list[pos[i]] == i
    ensures var p, n := PreLnk(ms[i].lnks), NextLnk(ms[i].lnks); (p != NIL ==> p < |ms|) && (n != NIL ==> n < |ms|)
    ensures var ms' := ms[i := ms[i].(bitmap := bm)];
            Threaded(Unlinked(ms', i), UnlinkedHead(ms', head, i), Cut(list, pos[i]), CutPos(pos, pos[i]))
  {
    hide PreLnk, NextLnk, Lnks, Relink, Zero;
    var k := pos[i];
    assert list[k] == i;
    var ms' := ms[i := ms[i].(bitmap := bm)];
    assert NextsOk(ms', list) && PrevsOk(ms', list) by { SameLinks(ms, ms', list, pos); }
    LinksOf(ms', list, pos, k);
    UnlinkNexts(ms', list, pos, k);
    UnlinkPrevs(ms', list, pos, k);
    UnlinkMembers(ms, list, pos, i, bm);
    hide NextsOk, PrevsOk, MembersOk;
    CutPlaces(list, pos, k);
  }

  lemma SameLinks(ms: seq<Mark>, ms': seq<Mark>, list: seq<nat>, pos: seq<nat>)
    requires |ms| == |ms'| == |pos| && PlacesOk(list, pos) && NextsOk(ms, list) && PrevsOk(ms, list)
    requires forall i :: 0 <= i < |ms| ==> ms'[i].lnks == ms[i].lnks
    ensures NextsOk(ms', list) && PrevsOk(ms', list)
  {
    hide PreLnk, NextLnk;
    forall j | 0 <= j < |list|
      ensures list[j] < |ms'| && NextLnk(ms'[list[j]].lnks) == NextOf(list, j) && PreLnk(ms'[list[j]].lnks) == PrevOf(list, j)
    {
      assert pos[list[j]] == j;
      assert ms'[list[j]].lnks == ms[list[j]].lnks;
    }
  }

  lemma CutPlaces(list: seq<nat>, pos: seq<nat>, k: nat)
    requires PlacesOk(list, pos) && k < |list|
    ensures PlacesOk(Cut(list, k), CutPos(pos, k))
  {
    var l := Cut(list, k);
    forall j | 0 <= j < |l| ensures l[j] < |pos| && CutPos(pos, k)[l[j]] == j {
      assert pos[list[if j < k then j else j + 1]] == if j < k then j else j + 1;
    }
  }

  lemma UnlinkMembers(ms: seq<Mark>, list: seq<nat>, pos: seq<nat>, i: nat, bm: Bits)
    requires MembersOk(ms, list, pos) && PlacesOk(list, pos) && i < |ms| && Zero(bm)
    requires pos[i] < |list| && list[pos[i]] == i
    requires var p, n := PreLnk(ms[i].lnks), NextLnk(ms[i].lnks); (p != NIL ==> p < |ms|) && (n != NIL ==> n < |ms|)
    ensures MembersOk(Unlinked(ms[i := ms[i].(bitmap := bm)], i), Cut(list, pos[i]), CutPos(pos, pos[i]))
  {
    hide PreLnk, NextLnk, Lnks, Relink, Zero;
    var k := pos[i];
    var r, l, q := Unlinked(ms[i := ms[i].(bitmap := bm)], i), Cut(list, k), CutPos(pos, k);
    assert forall j :: 0 <= j < |r| ==> r[j].bitmap == if j == i then bm else ms[j].bitmap;
    forall j | 0 <= j < |l| ensures l[j] < |r| && !Zero(r[l[j]].bitmap) {
      var o := if j < k then j else j + 1;
      assert pos[list[o]] == o;
    }
    forall j | 0 <= j < |r| && !Zero(r[j].bitmap) ensures q[j] < |l| && l[q[j]] == j {
      assert list[pos[j]] == j;
    }
  }

  /** A bitmap that stays non-zero leaves the list alone. */
  lemma BitsKeepList(ms: seq<Mark>, head: nat, list: seq<nat>, pos: seq<nat>, i: nat, bm: Bits)
    requires ListOk(ms, head, list, pos) && i < |ms| && !Zero(ms[i].bitmap) && !Zero(bm)
    ensures ListOk(ms[i := ms[i].(bitmap := bm)], head, list, pos)
  {
    hide Threaded;
    BitsThread(ms, head, list, pos, i, bm);
  }

  lemma BitsThread(ms: seq<Mark>, head: nat, list: seq<nat>, pos: seq<nat>, i: nat, bm: Bits)
    requires Threaded(ms, head, list, pos) && i < |ms| && !Zero(ms[i].bitmap) && !Zero(bm)
    ensures Threaded(ms[i := ms[i].(bitmap := bm)], head, list, pos)
  {
    hide PreLnk, NextLnk, Zero;
    SameLinks(ms, ms[i := ms[i].(bitmap := bm)], list, pos);
  }
}
