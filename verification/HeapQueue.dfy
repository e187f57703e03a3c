/** The binary heap of include/klib/queue.h:91-148. */
module HeapQueue {

  /** A strict weak order: distinct elements may tie, and not being below is transitive. */
  ghost predicate StrictWeak<T(!new)>(comp: (T, T) -> bool)
  {
    && (forall a, b :: comp(a, b) ==> !comp(b, a))
    && (forall a, b, c :: comp(a, b) && comp(b, c) ==> comp(a, c))
    && (forall a, b, c :: !comp(a, b) && !comp(b, c) ==> !comp(a, c))
  }

  /** No element is below one that comes after it. */
  ghost predicate Descending<T(!new)>(comp: (T, T) -> bool, s: seq<T>)
  {
    forall i, j :: 0 <= i < j < |s| ==> !comp(s[i], s[j])
  }

  lemma AtLeastTrans<T(!new)>(comp: (T, T) -> bool, a: T, b: T, c: T)
    requires StrictWeak(comp) && !comp(a, b) && !comp(b, c)
    ensures !comp(a, c)
  {
  }

  // ---------- the heap order, with slots numbered from 1 ----------

  /** Slot i is not above its parent. */
  ghost predicate Under<T(!new)>(comp: (T, T) -> bool, c: seq<T>, i: nat)
    requires 2 <= i < |c|
  {
    !comp(c[i / 2], c[i])
  }

  /** A slot under p is not above the parent of p. */
  ghost predicate Beneath<T(!new)>(comp: (T, T) -> bool, c: seq<T>, p: nat, i: nat)
    requires p < |c| && i < |c|
  {
    !comp(c[p / 2], c[i])
  }

  /** The heap order, but slot p may be above its parent; the slots under it are not above its parent. */
  ghost predicate HeapUp<T(!new)>(comp: (T, T) -> bool, c: seq<T>, p: nat)
  {
    && (forall i: nat {:trigger Under(comp, c, i)} :: 2 <= i < |c| && i != p ==> Under(comp, c, i))
    && (forall i: nat {:trigger Beneath(comp, c, p, i)} :: 2 <= i < |c| && i / 2 == p && p >= 2 ==> Beneath(comp, c, p, i))
  }

  /** The heap order, but slots may be above slot p, their parent; they are not above the parent of p. */
  ghost predicate HeapDown<T(!new)>(comp: (T, T) -> bool, c: seq<T>, p: nat)
  {
    && (forall i: nat {:trigger Under(comp, c, i)} :: 2 <= i < |c| && i / 2 != p ==> Under(comp, c, i))
    && (forall i: nat {:trigger Beneath(comp, c, p, i)} :: 2 <= i < |c| && i / 2 == p && p >= 2 ==> Beneath(comp, c, p, i))
  }

  ghost predicate Heap<T(!new)>(comp: (T, T) -> bool, c: seq<T>)
  {
    forall i: nat {:trigger Under(comp, c, i)} :: 2 <= i < |c| ==> Under(comp, c, i)
  }

  function Swap<T>(c: seq<T>, i: nat, j: nat): (d: seq<T>)
    requires i < |c| && j < |c|
    ensures |d| == |c|
  {
    c[i := c[j]][j := c[i]]
  }

  function Items<T>(c: seq<T>): multiset<T> { if c == [] then multiset{} else multiset(c[1..]) }

  lemma SwapItems<T>(c: seq<T>, i: nat, j: nat)
    requires 1 <= i < |c| && 1 <= j < |c|
    ensures Items(Swap(c, i, j)) == Items(c)
  {
    assert Swap(c, i, j)[1..] == c[1..][i - 1 := c[j]][j - 1 := c[i]];
  }

  lemma UpStep<T(!new)>(comp: (T, T) -> bool, c: seq<T>, p: nat)
    requires StrictWeak(comp) && HeapUp(comp, c, p) && 2 <= p < |c| && !comp(c[p], c[p / 2])
    ensures HeapUp(comp, Swap(c, p, p / 2), p / 2)
  {
    var d, q := Swap(c, p, p / 2), p / 2;
    forall i: nat | 2 <= i < |d| && i != q ensures Under(comp, d, i) {
      assert i != p ==> Under(comp, c, i);
      assert i / 2 == p ==> Beneath(comp, c, p, i);
      if i / 2 == q && i != p {
        AtLeastTrans(comp, c[p], c[q], c[i]);
      }
    }
    forall i: nat | 2 <= i < |d| && i / 2 == q && q >= 2 ensures Beneath(comp, d, q, i) {
      assert Under(comp, c, q);
      assert i != p ==> Under(comp, c, i);
      if i != p {
        AtLeastTrans(comp, c[q / 2], c[q], c[i]);
      }
    }
  }

  lemma UpEnd<T(!new)>(comp: (T, T) -> bool, c: seq<T>, p: nat)
    requires StrictWeak(comp) && HeapUp(comp, c, p) && 1 <= p < |c| && (p >= 2 ==> comp(c[p], c[p / 2]))
    ensures Heap(comp, c)
  {
  }

  lemma DownStep<T(!new)>(comp: (T, T) -> bool, c: seq<T>, p: nat, s: nat)
    requires StrictWeak(comp) && HeapDown(comp, c, p) && 1 <= p && s / 2 == p && 2 <= s < |c| && !comp(c[s], c[p])
    requires forall i: nat :: 2 <= i < |c| && i / 2 == p ==> !comp(c[s], c[i])
    ensures HeapDown(comp, Swap(c, s, p), s)
  {
    var d := Swap(c, s, p);
    forall i: nat | 2 <= i < |d| && i / 2 != s ensures Under(comp, d, i) {
      if i / 2 != p {
        assert Under(comp, c, i);
        assert i == p ==> Beneath(comp, c, p, s);
      }
    }
    forall i: nat | 2 <= i < |d| && i / 2 == s ensures Beneath(comp, d, s, i) {
      assert Under(comp, c, i);
    }
  }

  /** Without slots under p the order is whole again. */
  lemma DownLeaf<T(!new)>(comp: (T, T) -> bool, c: seq<T>, p: nat)
    requires HeapDown(comp, c, p) && 2 * p >= |c|
    ensures Heap(comp, c)
  {
  }

  /** And so it is when the larger slot under p is below p. */
  lemma DownStop<T(!new)>(comp: (T, T) -> bool, c: seq<T>, p: nat, s: nat)
    requires StrictWeak(comp) && HeapDown(comp, c, p) && p < |c| && s < |c| && comp(c[s], c[p])
    requires forall i: nat :: 2 <= i < |c| && i / 2 == p ==> !comp(c[s], c[i])
    ensures Heap(comp, c)
  {
    forall i: nat | 2 <= i < |c| ensures Under(comp, c, i) {
      if i / 2 == p {
        AtLeastTrans(comp, c[p], c[s], c[i]);
      }
    }
  }

  /** The first slot holds a largest element. */
  lemma {:induction false} TopIsMax<T(!new)>(comp: (T, T) -> bool, c: seq<T>, i: nat)
    requires StrictWeak(comp) && Heap(comp, c) && 1 <= i < |c|
    ensures !comp(c[1], c[i])
  {
    if i >= 2 {
      TopIsMax(comp, c, i / 2);
      assert Under(comp, c, i);
      AtLeastTrans(comp, c[1], c[i / 2], c[i]);
    }
  }

  lemma PushUp<T(!new)>(comp: (T, T) -> bool, c: seq<T>, x: T)
    requires Heap(comp, c) && c != []
    ensures HeapUp(comp, c + [x], |c|)
  {
    var d := c + [x];
    forall i: nat | 2 <= i < |d| && i != |c| ensures Under(comp, d, i) {
      assert Under(comp, c, i);
    }
  }

  lemma PopDown<T(!new)>(comp: (T, T) -> bool, c: seq<T>)
    requires Heap(comp, c) && |c| >= 2
    ensures var d := Swap(c, 1, |c| - 1)[..|c| - 1]; HeapDown(comp, d, 1) && Items(d) == Items(c) - multiset{c[1]}
  {
    var n := |c| - 1;
    var d := Swap(c, 1, n)[..n];
    forall i: nat | 2 <= i < |d| && i / 2 != 1 ensures Under(comp, d, i) {
      assert Under(comp, c, i);
    }
    SwapItems(c, 1, n);
    assert Swap(c, 1, n)[1..] == d[1..] + [c[1]];
  }

  lemma BestChild<T(!new)>(comp: (T, T) -> bool, c: seq<T>, p: nat, s: nat)
    requires StrictWeak(comp) && 1 <= p && 2 * p <= s < |c| && s <= 2 * p + 1
    requires s == 2 * p && s + 1 < |c| ==> !comp(c[s], c[s + 1])
    requires s == 2 * p + 1 ==> comp(c[s - 1], c[s])
    ensures s / 2 == p && forall i: nat :: 2 <= i < |c| && i / 2 == p ==> !comp(c[s], c[i])
  {
  }

  class PriorityQueue<T(!new)> {
    const comp: (T, T) -> bool
    var container: seq<T>
    var nelement: nat

    ghost predicate Valid()
      reads this
    {
      StrictWeak(comp) && |container| == nelement + 1 && Heap(comp, container)
    }

    ghost function Contents(): multiset<T>
      reads this
    {
      Items(container)
    }

    constructor (less: (T, T) -> bool, x: T)
      requires StrictWeak(less)
      ensures Valid() && comp == less && Contents() == multiset{}
    {
      comp, container, nelement := less, [x], 0;
    }

    predicate Empty()
      reads this
    {
      nelement == 0
    }

    method Top() returns (x: T)
      requires Valid() && !Empty()
      ensures x == container[1] && x in Contents() && forall y :: y in Contents() ==> !comp(x, y)
    {
      x := container[1];
      assert container[1..][0] == x;
      forall y | y in Contents() ensures !comp(x, y) {
        var i :| 0 <= i < |container[1..]| && container[1..][i] == y;
        TopIsMax(comp, container, i + 1);
      }
    }

    /** push. Slot 0 is always there, so the branch that restores it is not taken. */
    method Push(x: T)
      requires Valid()
      modifies this
      ensures Valid() && Contents() == old(Contents()) + multiset{x} && nelement == old(nelement) + 1
    {
      ghost var c := container;
      container := container + [x];
      nelement := nelement + 1;
      var p := nelement;
      assert container[1..] == c[1..] + [x];
      PushUp(comp, c, x);
      while p > 1
        invariant 1 <= p <= nelement && |container| == nelement + 1 && nelement == old(nelement) + 1
        invariant HeapUp(comp, container, p) && Items(container) == old(Contents()) + multiset{x}
      {
        if comp(container[p], container[p / 2]) {
          break;
        }
        UpStep(comp, container, p);
        SwapItems(container, p, p / 2);
        container := Swap(container, p, p / 2);
        p := p / 2;
      }
      UpEnd(comp, container, p);
    }

    method Pop()
      requires Valid()
      modifies this
      ensures Valid()
      ensures old(Empty()) ==> container == old(container) && nelement == old(nelement)
      ensures !old(Empty()) ==> nelement == old(nelement) - 1 && Contents() == old(Contents()) - multiset{old(container)[1]}
    {
      hide Heap, HeapDown, StrictWeak, Items, Swap;
      if nelement == 0 {
        return;
      }
      ghost var c := container;
      var n := nelement;
      SwapItems(container, 1, n);
      container := Swap(container, 1, n)[..n];
      nelement := n - 1;
      PopDown(comp, c);
      var p, s := 1, 2;
      while s <= nelement
        invariant 1 <= p && s == 2 * p && |container| == nelement + 1 && nelement == n - 1
        invariant HeapDown(comp, container, p) && Items(container) == old(Contents()) - multiset{c[1]}
        decreases nelement - p
      {
        if s < nelement && comp(container[s], container[s + 1]) {
          s := s + 1;
        }
        BestChild(comp, container, p, s);
        if comp(container[s], container[p]) {
          DownStop(comp, container, p, s);
          return;
        }
        DownStep(comp, container, p, s);
        SwapItems(container, s, p);
        container := Swap(container, s, p);
        p := s;
        s := p * 2;
      }
      DownLeaf(comp, container, p);
    }
  }

  /** `out` is in order, and nothing in it is below what is left. */
  ghost predicate Drained<T(!new)>(comp: (T, T) -> bool, out: seq<T>, left: multiset<T>)
  {
    Descending(comp, out) && forall i, y :: 0 <= i < |out| && y in left ==> !comp(out[i], y)
  }

  lemma NoneDrained<T(!new)>(comp: (T, T) -> bool, left: multiset<T>)
    ensures Drained(comp, [], left)
  {
  }

  lemma DrainedNext<T(!new)>(comp: (T, T) -> bool, out: seq<T>, left: multiset<T>, x: T)
    requires Drained(comp, out, left) && x in left && forall y :: y in left ==> !comp(x, y)
    ensures Drained(comp, out + [x], left - multiset{x})
    ensures multiset(out + [x]) + (left - multiset{x}) == multiset(out) + left
  {
  }

  /** Popping until the queue is empty gives everything that was pushed, largest first. */
  method Drain<T(!new)>(q: PriorityQueue<T>) returns (out: seq<T>)
    requires q.Valid()
    modifies q
    ensures q.Valid() && q.Empty()
    ensures multiset(out) == old(q.Contents()) && Descending(q.comp, out)
  {
    hide Heap, StrictWeak, Drained;
    out := [];
    NoneDrained(q.comp, q.Contents());
    while !q.Empty()
      invariant q.Valid() && multiset(out) + q.Contents() == old(q.Contents()) && Drained(q.comp, out, q.Contents())
      decreases q.nelement
    {
      var x := q.Top();
      DrainedNext(q.comp, out, q.Contents(), x);
      q.Pop();
      out := out + [x];
    }
    NothingLeft(q);
    DrainedDescends(q.comp, out, q.Contents());
  }

  lemma DrainedDescends<T(!new)>(comp: (T, T) -> bool, out: seq<T>, left: multiset<T>)
    requires Drained(comp, out, left)
    ensures Descending(comp, out)
  {
  }

  lemma NothingLeft<T(!new)>(q: PriorityQueue<T>)
    requires q.Valid() && q.Empty()
    ensures q.Contents() == multiset{}
  {
  }

  method SortAll<T(!new)>(less: (T, T) -> bool, placeholder: T, xs: seq<T>) returns (out: seq<T>)
    requires StrictWeak(less)
    ensures multiset(out) == multiset(xs) && Descending(less, out)
  {
    hide Heap;
    var q := new PriorityQueue(less, placeholder);
    for i := 0 to |xs|
      invariant q.Valid() && q.Contents() == multiset(xs[..i])
    {
      q.Push(xs[i]);
      assert xs[..i + 1] == xs[..i] + [xs[i]];
    }
    assert xs[..|xs|] == xs;
    out := Drain(q);
  }
}
