/** What several modules share. */
module Common {

  datatype Option<T> = None | Some(value: T)

  function Min(a: nat, b: nat): (m: nat)
    ensures m <= a && m <= b && (m == a || m == b)
  {
    if a < b then a else b
  }

  function Max(a: nat, b: nat): (m: nat)
    ensures a <= m && b <= m && (m == a || m == b)
  {
    if a < b then b else a
  }

  /** One more than the largest unsigned int. */
  const UINT: nat := 0x1_0000_0000

  /** The most blocks that one file-system operation logs (include/xv6/param.h). */
  const MAXOPBLOCKS: nat := 10

  /** Bit r of a number. */
  predicate NatBit(v: nat, r: nat) { if r == 0 then v % 2 == 1 else NatBit(v / 2, r - 1) }

  lemma SubsetSize<T>(a: set<T>, b: set<T>)
    requires a <= b
    ensures |a| <= |b|
  {
    assert b == a + (b - a);
  }
}
