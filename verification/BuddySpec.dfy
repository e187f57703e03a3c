/**
 Buddy blocks as sets, for kern/mm/buddy.c.

 Level k stands for order MIN_ORD + k. A unit is a block of the lowest order. Block id of
 level k consists of the blocks 2 * id and 2 * id + 1 of the level below.
 */
module BuddySpec {

  const MIN_ORD: nat := 6
  const MAX_ORD: nat := 12
  const TOP: nat := MAX_ORD - MIN_ORD

  datatype Blk = Blk(k: nat, id: nat)

  /** The id of the level-k block that contains unit `u`: u shifted right by k. */
  function Up(u: nat, k: nat): nat
  {
    if k == 0 then u else Up(u, k - 1) / 2
  }

  predicate At(s: set<Blk>, u: nat, k: nat) { Blk(k, Up(u, k)) in s }

  /** Some block of the set contains the unit. */
  predicate Covered(s: set<Blk>, u: nat)
  {
    exists k :: 0 <= k <= TOP && At(s, u, k)
  }

  predicate Inside(b: Blk, u: nat) { Up(u, b.k) == b.id }

  /** The other half of the block one level up: the id with its last bit flipped. */
  function Buddy(b: Blk): Blk { Blk(b.k, if b.id % 2 == 0 then b.id + 1 else b.id - 1) }

  function Parent(b: Blk): Blk { Blk(b.k + 1, b.id / 2) }

  /** No unit is in two blocks of the set. */
  ghost predicate Disjoint(s: set<Blk>)
  {
    forall u, j, k :: 0 <= j < k <= TOP && At(s, u, j) ==> !At(s, u, k)
  }

  /** No two buddies below the top are both in the set. */
  ghost predicate Canonical(s: set<Blk>)
  {
    forall b :: b in s && b.k < TOP ==> Buddy(b) !in s
  }

  ghost predicate Levels(s: set<Blk>)
  {
    forall b :: b in s ==> b.k <= TOP
  }

  ghost predicate FreeOk(s: set<Blk>) { Disjoint(s) && Canonical(s) && Levels(s) }

  ghost predicate SameUnits(s: set<Blk>, t: set<Blk>)
  {
    forall u :: Covered(s, u) <==> Covered(t, u)
  }

  /** The block without its last `n` levels of detail: the id of its ancestor n levels up. */
  lemma {:induction false} UpUp(u: nat, k: nat, n: nat)
    ensures Up(Up(u, k), n) == Up(u, k + n)
  {
    if n > 0 {
      UpUp(u, k, n - 1);
    }
  }

  lemma UpNext(u: nat, k: nat)
    ensures Up(u, 0) == u && Up(u, k + 1) == Up(u, k) / 2
  {
  }

  lemma Halvings(u: nat)
    ensures u / 2 / 2 == u / 4 && u / 4 / 2 == u / 8 && u / 8 / 2 == u / 16 && u / 16 / 2 == u / 32 && u / 32 / 2 == u / 64
  {
  }

  lemma Shifts(u: nat)
    ensures Up(u, 1) == u / 2 && Up(u, 5) == u / 32 && Up(u, 6) == u / 64
  {
    hide Up;
    UpNext(u, 0);
    UpNext(u, 1);
    UpNext(u, 2);
    UpNext(u, 3);
    UpNext(u, 4);
    UpNext(u, 5);
    Halvings(u);
  }

  /** The first unit of a block: id shifted left by k. */
  function First(k: nat, id: nat): (u: nat)
    ensures Up(u, k) == id
    decreases k
  {
    if k == 0 then id else First(k - 1, 2 * id)
  }

  lemma FirstNext(k: nat, id: nat)
    ensures First(0, id) == id && First(k + 1, id) == First(k, 2 * id)
  {
  }

  lemma FirstTop(id: nat)
    ensures First(TOP, id) == 64 * id
  {
    hide First;
    FirstNext(5, id);
    FirstNext(4, 2 * id);
    FirstNext(3, 4 * id);
    FirstNext(2, 8 * id);
    FirstNext(1, 16 * id);
    FirstNext(0, 32 * id);
  }

  lemma {:induction false} FirstAdd(k: nat, a: nat, b: nat)
    ensures First(k, a) + First(k, b) == First(k, a + b)
    decreases k
  {
    if k > 0 {
      FirstAdd(k - 1, 2 * a, 2 * b);
    }
  }

  /** How many units a block of level k has. */
  function Length(k: nat): nat { if k == 0 then 1 else 2 * Length(k - 1) }

  lemma {:induction false} FirstIs(k: nat, id: nat)
    ensures First(k, id) == Length(k) * id
    decreases k
  {
    if k > 0 {
      FirstIs(k - 1, 2 * id);
    }
  }

  lemma TwoRuns(l: nat, id: nat, u: nat)
    ensures 2 * l * id <= u < 2 * l * id + 2 * l <==>
            l * (2 * id) <= u < l * (2 * id) + l || l * (2 * id + 1) <= u < l * (2 * id + 1) + l
  {
    var x := l * id;
    assert l * (2 * id) == 2 * x && 2 * l * id == 2 * x;
    assert l * (2 * id + 1) == l * (2 * id) + l;
  }

  /** The units of a block are one run, from its first on. */
  lemma {:induction false} InsideRun(b: Blk, u: nat)
    ensures Inside(b, u) <==> Length(b.k) * b.id <= u < Length(b.k) * b.id + Length(b.k)
    decreases b.k
  {
    if b.k > 0 {
      InsideRun(Blk(b.k - 1, 2 * b.id), u);
      InsideRun(Blk(b.k - 1, 2 * b.id + 1), u);
      TwoRuns(Length(b.k - 1), b.id, u);
    }
  }

  lemma {:induction false} FirstFirst(k: nat, n: nat, id: nat)
    ensures First(k, First(n, id)) == First(k + n, id)
    decreases n
  {
    if n > 0 {
      FirstFirst(k, n - 1, 2 * id);
    }
  }

  lemma HalfUp(id: nat)
    ensures Up(2 * id, 1) == Up(2 * id + 1, 1) == id && Up(2 * id, 0) == 2 * id && Up(2 * id + 1, 0) == 2 * id + 1
  {
    assert Up(2 * id, 1) == Up(2 * id, 0) / 2 && Up(2 * id + 1, 1) == Up(2 * id + 1, 0) / 2;
  }

  /** A canonical set with blocks around both halves of a block has one around the block. */
  lemma AroundHalves(s: set<Blk>, k: nat, id: nat, l: nat, r: nat) returns (n: nat)
    requires Canonical(s) && 0 < k <= TOP && k - 1 + l <= TOP && k - 1 + r <= TOP
    requires Blk(k - 1 + l, Up(2 * id, l)) in s && Blk(k - 1 + r, Up(2 * id + 1, r)) in s
    ensures k + n <= TOP && Blk(k + n, Up(id, n)) in s
  {
    HalfUp(id);
    hide Up;
    if l > 0 {
      UpUp(2 * id, 1, l - 1);
      n := l - 1;
    } else {
      assert Buddy(Blk(k - 1, 2 * id)) == Blk(k - 1, 2 * id + 1);
      assert r > 0;
      UpUp(2 * id + 1, 1, r - 1);
      n := r - 1;
    }
  }

  /** If every unit of a block is covered, one block of a canonical set contains it whole. */
  lemma {:induction false} CoveredBlockIsInside(s: set<Blk>, k: nat, id: nat) returns (n: nat)
    requires Canonical(s) && k <= TOP
    requires forall u :: Inside(Blk(k, id), u) ==> Covered(s, u)
    ensures k + n <= TOP && Blk(k + n, Up(id, n)) in s
    decreases k
  {
    if k == 0 {
      assert Inside(Blk(0, id), id);
      n :| 0 <= n <= TOP && At(s, id, n);
    } else {
      assert forall u :: Inside(Blk(k - 1, 2 * id), u) ==> Inside(Blk(k, id), u);
      assert forall u :: Inside(Blk(k - 1, 2 * id + 1), u) ==> Inside(Blk(k, id), u);
      var l := CoveredBlockIsInside(s, k - 1, 2 * id);
      var r := CoveredBlockIsInside(s, k - 1, 2 * id + 1);
      hide Canonical, Covered;
      n := AroundHalves(s, k, id, l, r);
    }
  }

  /** Blocks of a disjoint set that share a unit are the same block. */
  lemma Nested(s: set<Blk>, k: nat, id: nat, n: nat)
    requires Disjoint(s) && Blk(k, id) in s && k + n <= TOP && Blk(k + n, Up(id, n)) in s
    ensures n == 0
  {
    var u := First(k, id);
    UpUp(u, k, n);
    assert At(s, u, k) && At(s, u, k + n);
  }

  lemma SameUnitsInside(s: set<Blk>, t: set<Blk>, b: Blk)
    requires FreeOk(s) && FreeOk(t) && SameUnits(s, t) && b in s
    ensures b in t
  {
    forall u | Inside(b, u) ensures Covered(t, u) {
      assert At(s, u, b.k);
    }
    var n := CoveredBlockIsInside(t, b.k, b.id);
    var c := Blk(b.k + n, Up(b.id, n));
    forall u | Inside(c, u) ensures Covered(s, u) {
      assert At(t, u, c.k);
    }
    var m := CoveredBlockIsInside(s, c.k, c.id);
    UpUp(b.id, n, m);
    Nested(s, b.k, b.id, n + m);
  }

  /** The free bytes determine the free blocks. */
  lemma CanonicalForm(s: set<Blk>, t: set<Blk>)
    requires FreeOk(s) && FreeOk(t) && SameUnits(s, t)
    ensures s == t
  {
    forall b | b in s ensures b in t { SameUnitsInside(s, t, b); }
    forall b | b in t ensures b in s { SameUnitsInside(t, s, b); }
  }

  // ---------- freeing and allocating ----------

  /** No unit of the block is covered. */
  ghost predicate Apart(s: set<Blk>, b: Blk)
  {
    forall u :: Inside(b, u) ==> !Covered(s, u)
  }

  ghost predicate Gained(s: set<Blk>, b: Blk, t: set<Blk>)
  {
    forall u :: Covered(t, u) <==> Covered(s, u) || Inside(b, u)
  }

  ghost predicate Lost(s: set<Blk>, b: Blk, t: set<Blk>)
  {
    forall u :: Covered(t, u) <==> Covered(s, u) && !Inside(b, u)
  }

  /** Every unit of the block is covered. */
  ghost predicate Within(s: set<Blk>, b: Blk)
  {
    forall u :: Inside(b, u) ==> Covered(s, u)
  }

  lemma ApartNotIn(s: set<Blk>, b: Blk)
    requires Apart(s, b) && b.k <= TOP
    ensures b !in s
  {
    var u := First(b.k, b.id);
    assert Inside(b, u);
    assert b in s ==> At(s, u, b.k);
  }

  /** Adding a block whose buddy is not free. */
  lemma InsertBlock(s: set<Blk>, b: Blk)
    requires FreeOk(s) && Apart(s, b) && b.k <= TOP && (b.k < TOP ==> Buddy(b) !in s)
    ensures FreeOk(s + {b}) && Gained(s, b, s + {b})
  {
    var t := s + {b};
    InsertCovers(s, b);
    forall u, j, k | 0 <= j < k <= TOP && At(t, u, j) ensures !At(t, u, k) {
      assert Up(u, j) == b.id && j == b.k ==> Inside(b, u);
      assert Up(u, k) == b.id && k == b.k ==> Inside(b, u);
      assert At(s, u, j) ==> Covered(s, u);
      assert At(s, u, k) ==> Covered(s, u);
    }
    forall c | c in t && c.k < TOP ensures Buddy(c) !in t {
      assert Buddy(Buddy(c)) == c;
    }
  }

  lemma InsertCovers(s: set<Blk>, b: Blk)
    requires b.k <= TOP
    ensures Gained(s, b, s + {b})
  {
    var t := s + {b};
    forall u ensures Covered(t, u) <==> Covered(s, u) || Inside(b, u) {
      if Covered(s, u) {
        var k :| 0 <= k <= TOP && At(s, u, k);
        assert At(t, u, k);
      }
      if Inside(b, u) {
        assert At(t, u, b.k);
      } else if Covered(t, u) {
        var k :| 0 <= k <= TOP && At(t, u, k);
        assert At(s, u, k);
      }
    }
  }

  lemma SubsetDisjoint(s: set<Blk>, t: set<Blk>)
    requires t <= s && Disjoint(s)
    ensures Disjoint(t)
  {
    forall u: nat, j: nat, k: nat | j < k <= TOP && At(t, u, j) ensures !At(t, u, k) {
      assert At(s, u, j) && !At(s, u, k);
    }
  }

  lemma RemoveCovers(s: set<Blk>, b: Blk)
    requires Disjoint(s) && Levels(s) && b in s
    ensures Lost(s, b, s - {b})
  {
    var t := s - {b};
    forall u ensures Covered(t, u) <==> Covered(s, u) && !Inside(b, u) {
      if Covered(s, u) {
        var k :| 0 <= k <= TOP && At(s, u, k);
        assert !Inside(b, u) ==> At(t, u, k);
      }
      if Covered(t, u) {
        var k :| 0 <= k <= TOP && At(t, u, k);
        assert At(s, u, k);
        assert Inside(b, u) ==> At(s, u, b.k);
      }
    }
  }

  lemma RemoveBlock(s: set<Blk>, b: Blk)
    requires FreeOk(s) && b in s
    ensures FreeOk(s - {b}) && Lost(s, b, s - {b}) && Within(s, b)
  {
    var t := s - {b};
    RemoveCovers(s, b);
    SubsetDisjoint(s, t);
    forall u | Inside(b, u) ensures Covered(s, u) {
      assert At(s, u, b.k);
    }
  }

  lemma HalvesInside(b: Blk, u: nat)
    ensures Inside(Parent(b), u) <==> Inside(b, u) || Inside(Buddy(b), u)
    ensures !(Inside(b, u) && Inside(Buddy(b), u))
  {
  }

  /** The free buddy is taken out; the parent of the two halves is then free of free units. */
  lemma MergeStep(s: set<Blk>, b: Blk)
    requires FreeOk(s) && Apart(s, b) && b.k < TOP && Buddy(b) in s
    ensures FreeOk(s - {Buddy(b)}) && Apart(s - {Buddy(b)}, Parent(b))
    ensures forall t :: Gained(s - {Buddy(b)}, Parent(b), t) ==> Gained(s, b, t)
  {
    var c := Buddy(b);
    RemoveBlock(s, c);
    hide FreeOk, Covered, Inside;
    forall u ensures Inside(Parent(b), u) <==> Inside(b, u) || Inside(c, u) { HalvesInside(b, u); }
    forall t | Gained(s - {c}, Parent(b), t) ensures Gained(s, b, t) {
      forall u ensures Covered(t, u) <==> Covered(s, u) || Inside(b, u) {
        HalvesInside(b, u);
      }
    }
  }

  /** Splitting: of a block just taken, the upper half goes back. */
  lemma SplitStep(s: set<Blk>, p: Blk, s': set<Blk>, b: Blk, t: set<Blk>)
    requires Parent(b) == p && Lost(s, p, s') && Within(s, p) && Gained(s', Buddy(b), t)
    ensures Lost(s, b, t) && Within(s, b)
  {
    hide Covered, Inside;
    forall u ensures (Inside(p, u) <==> Inside(b, u) || Inside(Buddy(b), u)) && !(Inside(b, u) && Inside(Buddy(b), u)) {
      HalvesInside(b, u);
    }
  }

  lemma UpperHalfApart(s: set<Blk>, p: Blk, s': set<Blk>, b: Blk)
    requires Parent(b) == p && Lost(s, p, s')
    ensures Apart(s', b)
  {
    forall u | Inside(b, u) ensures !Covered(s', u) { HalvesInside(b, u); }
  }

  /** Allocation fails only when no aligned free run of the wanted size exists. */
  lemma NoAlignedRun(s: set<Blk>, k: nat, id: nat)
    requires FreeOk(s) && k <= TOP && forall b :: b in s ==> b.k < k
    ensures !Within(s, Blk(k, id))
  {
    if Within(s, Blk(k, id)) {
      var n := CoveredBlockIsInside(s, k, id);
    }
  }

  /** Freeing what was just allocated restores the free blocks. */
  lemma AllocThenFree(s: set<Blk>, b: Blk, s': set<Blk>, t: set<Blk>)
    requires FreeOk(s) && FreeOk(t) && Within(s, b) && Lost(s, b, s') && Gained(s', b, t)
    ensures t == s
  {
    hide Covered, Inside;
    assert SameUnits(s, t);
    CanonicalForm(s, t);
  }
}
