/** The bins of small free chunks: bin i holds the chunks of 8 * i bytes, the last one freed
    first. */
module SmallBins {
  import opened Queues

  const NSMALLBINS: nat := 32

  /** `is_small`, `small_index` */
  predicate IsSmall(s: nat) {
    s / 8 < NSMALLBINS
  }

  function SmallIndex(s: nat): nat {
    s / 8
  }

  ghost predicate InBin(m: map<nat, nat>, i: nat, x: nat) {
    x in m && m[x] == 8 * i
  }

  /** The bins hold the small ones of the chunks m, each in its bin. */
  ghost predicate Holds(bins: seq<seq<nat>>, marked: set<nat>, m: map<nat, nat>) {
    && |bins| == NSMALLBINS
    && (forall i, k | 0 <= i < NSMALLBINS && 0 <= k < |bins[i]| :: InBin(m, i, bins[i][k]))
    && (forall i | 0 <= i < NSMALLBINS :: Distinct(bins[i]))
    && (forall x | x in m && IsSmall(m[x]) :: m[x] % 8 == 0 && x in bins[SmallIndex(m[x])])
    && (forall i :: i in marked <==> 0 <= i < NSMALLBINS && bins[i] != [])
  }

  function Drop(q: seq<nat>, k: nat): seq<nat>
    requires k < |q|
  {
    q[..k] + q[k + 1..]
  }

  lemma AddSmall(bins: seq<seq<nat>>, marked: set<nat>, m: map<nat, nat>, x: nat, size: nat)
    requires Holds(bins, marked, m) && x !in m && IsSmall(size) && size % 8 == 0
    ensures var i := SmallIndex(size); Holds(bins[i := [x] + bins[i]], marked + {i}, m[x := size])
  {
    var i := SmallIndex(size);
    var b := bins[i := [x] + bins[i]];
    var t := m[x := size];
    forall j, k | 0 <= j < NSMALLBINS && 0 <= k < |b[j]|
      ensures InBin(t, j, b[j][k]) && (j == i && k > 0 ==> b[j][k] != x)
    {
      if j == i && k > 0 { assert InBin(m, i, bins[i][k - 1]); }
      if j != i { assert InBin(m, j, bins[j][k]); }
    }
    forall y | y in t && IsSmall(t[y]) ensures t[y] % 8 == 0 && y in b[SmallIndex(t[y])] {
      if y != x { assert y in bins[SmallIndex(m[y])]; }
    }
    forall j, k | 0 <= j < k < |b[i]| ensures b[i][j] != b[i][k] {
      if j == 0 { assert b[i][k] != x; }
    }
    forall j | 0 <= j < NSMALLBINS ensures Distinct(b[j]) {}
  }

  lemma DropSmall(bins: seq<seq<nat>>, marked: set<nat>, m: map<nat, nat>, i: nat, k: nat)
    requires Holds(bins, marked, m) && i < NSMALLBINS && k < |bins[i]|
    ensures var q := Drop(bins[i], k);
            Holds(bins[i := q], if q == [] then marked - {i} else marked, m - {bins[i][k]})
  {
    var x := bins[i][k];
    assert InBin(m, i, x);
    var q := Drop(bins[i], k);
    var b := bins[i := q];
    var t := m - {x};
    forall y ensures y in q <==> y in bins[i] && y != x { DropElems(bins[i], k, y); }
    forall j, l | 0 <= j < NSMALLBINS && 0 <= l < |b[j]| ensures InBin(t, j, b[j][l]) {
      if j == i { assert b[j][l] in q; ElemInBin(bins, marked, m, i, b[j][l]); }
      else { assert InBin(m, j, bins[j][l]); }
    }
    forall y | y in t && IsSmall(t[y]) ensures t[y] % 8 == 0 && y in b[SmallIndex(t[y])] {
      assert y in bins[SmallIndex(m[y])];
    }
    forall j | 0 <= j < NSMALLBINS ensures Distinct(b[j]) { if j == i { DropDistinct(bins[i], k); } }
  }

  lemma ElemInBin(bins: seq<seq<nat>>, marked: set<nat>, m: map<nat, nat>, i: nat, x: nat)
    requires Holds(bins, marked, m) && i < NSMALLBINS && x in bins[i]
    ensures InBin(m, i, x)
  {
    var k :| 0 <= k < |bins[i]| && bins[i][k] == x;
  }

  lemma DropDistinct(q: seq<nat>, k: nat)
    requires k < |q| && Distinct(q)
    ensures Distinct(Drop(q, k))
  {
  }

  lemma DropElems(q: seq<nat>, k: nat, y: nat)
    requires k < |q| && Distinct(q)
    ensures y in Drop(q, k) <==> y in q && y != q[k]
  {
    var r := Drop(q, k);
    if y in q && y != q[k] {
      var i :| 0 <= i < |q| && q[i] == y;
      assert r[if i < k then i else i - 1] == y;
    }
  }
}
