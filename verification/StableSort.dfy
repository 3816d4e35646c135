/** What a tensor library's sort and nonzero compute: the unique stable ordering of the
    indices of a vector, and the positions of its nonzero entries. */
module StableSort {

  predicate Before(keys: seq<int>, a: nat, b: nat)
    requires a < |keys| && b < |keys|
  {
    keys[a] < keys[b] || (keys[a] == keys[b] && a < b)
  }

  /** p lists every index once, by ascending key and equal keys by ascending index. */
  ghost predicate IsArgsort(keys: seq<int>, p: seq<nat>) {
    && |p| == |keys|
    && (forall i | 0 <= i < |p| :: p[i] < |keys|)
    && (forall i, j | 0 <= i < j < |p| :: Before(keys, p[i], p[j]))
    && (forall r | 0 <= r < |keys| :: r in p)
  }

  /** Where a new index goes: behind every entry whose key is not larger. */
  function Place(keys: seq<int>, p: seq<nat>, x: nat): (k: nat)
    requires x < |keys| && forall i | 0 <= i < |p| :: p[i] < |keys|
    requires forall i, j | 0 <= i < j < |p| :: keys[p[i]] <= keys[p[j]]
    ensures k <= |p|
    ensures forall i | 0 <= i < k :: keys[p[i]] <= keys[x]
    ensures forall i | k <= i < |p| :: keys[x] < keys[p[i]]
  {
    if p == [] || keys[p[|p| - 1]] <= keys[x] then |p| else Place(keys, p[..|p| - 1], x)
  }

  /** The argsort of all keys but the last, seen with all keys. */
  lemma OldKeys(keys: seq<int>, p: seq<nat>)
    requires keys != [] && IsArgsort(keys[..|keys| - 1], p)
    ensures |p| == |keys| - 1 && forall i | 0 <= i < |p| :: p[i] < |keys| - 1
    ensures forall i, j | 0 <= i < j < |p| :: Before(keys, p[i], p[j])
    ensures forall r | 0 <= r < |keys| - 1 :: r in p
  {
    var front := keys[..|keys| - 1];
    forall i, j | 0 <= i < j < |p| ensures Before(keys, p[i], p[j]) {
      assert Before(front, p[i], p[j]);
    }
  }

  lemma InsertedContains(p: seq<nat>, k: nat, n: nat, r: nat)
    requires k <= |p| && (r == n || r in p)
    ensures r in p[..k] + [n] + p[k..]
  {
    var q := p[..k] + [n] + p[k..];
    if r == n {
      assert q[k] == n;
    } else {
      var i :| 0 <= i < |p| && p[i] == r;
      assert q[if i < k then i else i + 1] == r;
    }
  }

  lemma InsertedIsArgsort(keys: seq<int>, p: seq<nat>, k: nat)
    requires |p| == |keys| - 1 && forall i | 0 <= i < |p| :: p[i] < |keys| - 1
    requires forall i, j | 0 <= i < j < |p| :: Before(keys, p[i], p[j])
    requires forall r | 0 <= r < |keys| - 1 :: r in p
    requires k <= |p| && forall i | 0 <= i < k :: keys[p[i]] <= keys[|keys| - 1]
    requires forall i | k <= i < |p| :: keys[|keys| - 1] < keys[p[i]]
    ensures IsArgsort(keys, p[..k] + [|keys| - 1] + p[k..])
  {
    var n := |keys| - 1;
    var q := p[..k] + [n] + p[k..];
    forall r | 0 <= r < |keys| ensures r in q {
      InsertedContains(p, k, n, r);
    }
    forall i, j | 0 <= i < j < |q| ensures Before(keys, q[i], q[j]) {
      if i != k && j != k {
        var i', j' := if i < k then i else i - 1, if j < k then j else j - 1;
        assert q[i] == p[i'] && q[j] == p[j'];
      }
    }
  }

  /** The stable argsort, one insertion per index. */
  function Argsort(keys: seq<int>): (p: seq<nat>)
    ensures IsArgsort(keys, p)
  {
    if keys == [] then []
    else
      var n := |keys| - 1;
      var p := Argsort(keys[..n]);
      OldKeys(keys, p);
      var k := Place(keys, p, n);
      InsertedIsArgsort(keys, p, k);
      p[..k] + [n] + p[k..]
  }

  lemma SameLength(keys: seq<int>, p: seq<nat>)
    requires IsArgsort(keys, p)
    ensures |p| == |keys|
  {
  }

  lemma NotAhead(keys: seq<int>, p: seq<nat>, q: seq<nat>, k: nat)
    requires IsArgsort(keys, p) && IsArgsort(keys, q) && k < |keys| && p[..k] == q[..k]
    ensures p[k] == q[k] || Before(keys, q[k], p[k])
  {
    assert 0 <= p[k] < |keys|;
    assert p[k] in q;
    assert forall i | 0 <= i < k :: q[i] == p[i] by {
      assert forall i | 0 <= i < k :: q[i] == q[..k][i] && p[i] == p[..k][i];
    }
    assert forall i | 0 <= i < k :: Before(keys, q[i], p[k]);
    var j :| 0 <= j < |q| && q[j] == p[k];
  }

  lemma {:induction false} SamePrefix(keys: seq<int>, p: seq<nat>, q: seq<nat>, k: nat)
    requires IsArgsort(keys, p) && IsArgsort(keys, q) && k <= |keys|
    ensures |p| == |q| == |keys| && p[..k] == q[..k]
  {
    if k > 0 {
      SamePrefix(keys, p, q, k - 1);
      NotAhead(keys, p, q, k - 1);
      NotAhead(keys, q, p, k - 1);
    }
  }

  /** There is only one stable order, whatever algorithm finds it. */
  lemma ArgsortIsUnique(keys: seq<int>, p: seq<nat>)
    requires IsArgsort(keys, p)
    ensures p == Argsort(keys)
  {
    var q := Argsort(keys);
    hide Argsort, IsArgsort;
    SamePrefix(keys, p, q, |keys|);
    SameLength(keys, p);
    SameLength(keys, q);
    assert p == p[..|keys|] && q == q[..|keys|];
  }

  // ---------------------------------------------------------------- sorting a permutation

  /** p lists 0, ..., |p| - 1, each once. */
  ghost predicate IsPermutation(p: seq<nat>) {
    && (forall i | 0 <= i < |p| :: p[i] < |p|)
    && (forall i, j | 0 <= i < j < |p| :: p[i] != p[j])
    && (forall r | 0 <= r < |p| :: r in p)
  }

  lemma ArgsortIsPermutation(keys: seq<int>)
    ensures IsPermutation(Argsort(keys))
  {
    var p := Argsort(keys);
    forall i, j | 0 <= i < j < |p| ensures p[i] != p[j] {
      assert Before(keys, p[i], p[j]);
    }
  }

  lemma {:induction false} IncreasingIsIdentity(f: seq<int>, k: nat)
    requires k < |f| && (forall i | 0 <= i < |f| :: 0 <= f[i] < |f|)
    requires forall i, j | 0 <= i < j < |f| :: f[i] < f[j]
    ensures f[k] >= k && f[|f| - 1 - k] <= |f| - 1 - k
  {
    if k > 0 { IncreasingIsIdentity(f, k - 1); }
  }

  lemma SortedValuesIncrease(p: seq<nat>, q: seq<nat>)
    requires IsPermutation(p) && IsArgsort(p, q)
    ensures |q| == |p| && forall i | 0 <= i < |q| :: q[i] < |p|
    ensures forall i, j | 0 <= i < j < |q| :: p[q[i]] < p[q[j]]
  {
    forall i, j | 0 <= i < j < |q| ensures p[q[i]] < p[q[j]] {
      assert Before(p, q[i], q[j]);
    }
  }

  lemma SameEntry(p: seq<nat>, i: nat, j: nat)
    requires IsPermutation(p) && i < |p| && j < |p| && p[i] == p[j]
    ensures i == j
  {
  }

  /** Sorting a permutation inverts it. */
  lemma ArgsortInverts(p: seq<nat>)
    requires IsPermutation(p)
    ensures |Argsort(p)| == |p| && forall i | 0 <= i < |p| :: Argsort(p)[i] < |p| && p[Argsort(p)[i]] == i
    ensures forall i | 0 <= i < |p| :: Argsort(p)[p[i]] == i
  {
    var q := Argsort(p);
    hide Argsort;
    SortedValuesIncrease(p, q);
    var f: seq<int> := seq(|p|, i requires 0 <= i < |p| => p[q[i]]);
    forall i | 0 <= i < |p| ensures p[q[i]] == i {
      assert f[i] == p[q[i]];
      IncreasingIsIdentity(f, i);
      IncreasingIsIdentity(f, |p| - 1 - i);
    }
    forall i | 0 <= i < |p| ensures q[p[i]] == i {
      SameEntry(p, q[p[i]], i);
    }
  }

  // ---------------------------------------------------------------- nonzero

  /** The positions of the nonzero entries, in increasing order. */
  function Nonzero(v: seq<bool>): (p: seq<nat>)
    ensures forall i | 0 <= i < |p| :: p[i] < |v| && v[p[i]]
    ensures forall i, j | 0 <= i < j < |p| :: p[i] < p[j]
    ensures forall r | 0 <= r < |v| && v[r] :: r in p
  {
    if v == [] then []
    else
      var front := Nonzero(v[..|v| - 1]);
      if v[|v| - 1] then front + [|v| - 1] else front
  }

  function Not(v: seq<bool>): (w: seq<bool>)
    ensures |w| == |v| && forall i | 0 <= i < |v| :: w[i] == !v[i]
  {
    seq(|v|, i requires 0 <= i < |v| => !v[i])
  }

  lemma {:induction false} NonzeroCounts(v: seq<bool>)
    ensures |Nonzero(v)| + |Nonzero(Not(v))| == |v|
  {
    if v != [] {
      NonzeroCounts(v[..|v| - 1]);
      assert Not(v)[..|v| - 1] == Not(v[..|v| - 1]);
    }
  }

  /** The sort keys of a 0-1 vector, ascending and descending. */
  function Values(v: seq<bool>): (k: seq<int>)
    ensures |k| == |v| && forall i | 0 <= i < |v| :: k[i] == if v[i] then 1 else 0
  {
    seq(|v|, i requires 0 <= i < |v| => if v[i] then 1 else 0)
  }

  function Negated(v: seq<bool>): (k: seq<int>)
    ensures |k| == |v| && forall i | 0 <= i < |v| :: k[i] == if v[i] then -1 else 0
  {
    seq(|v|, i requires 0 <= i < |v| => if v[i] then -1 else 0)
  }

  lemma SplitContains(v: seq<bool>, r: nat)
    requires r < |v|
    ensures r in Nonzero(v) + Nonzero(Not(v))
  {
    if v[r] { assert r in Nonzero(v); } else { assert Not(v)[r]; assert r in Nonzero(Not(v)); }
  }

  lemma SplitIsArgsort(keys: seq<int>, v: seq<bool>, lower: int, upper: int)
    requires |keys| == |v| && lower < upper
    requires forall i | 0 <= i < |v| :: keys[i] == if v[i] then lower else upper
    ensures IsArgsort(keys, Nonzero(v) + Nonzero(Not(v)))
  {
    hide Nonzero, Not;
    NonzeroCounts(v);
    forall r | 0 <= r < |v| ensures r in Nonzero(v) + Nonzero(Not(v)) {
      SplitContains(v, r);
    }
  }

  /** Sorting two-valued keys puts the indices of the lower key first, each part in order. */
  lemma SortSplits(keys: seq<int>, v: seq<bool>, lower: int, upper: int)
    requires |keys| == |v| && lower < upper
    requires forall i | 0 <= i < |v| :: keys[i] == if v[i] then lower else upper
    ensures Argsort(keys) == Nonzero(v) + Nonzero(Not(v))
  {
    hide Nonzero, Not, Argsort, IsArgsort;
    SplitIsArgsort(keys, v, lower, upper);
    ArgsortIsUnique(keys, Nonzero(v) + Nonzero(Not(v)));
  }

  /** A descending stable sort puts the ones first, an ascending one last. */
  lemma DescendingSplits(v: seq<bool>)
    ensures Argsort(Negated(v)) == Nonzero(v) + Nonzero(Not(v))
  {
    SortSplits(Negated(v), v, -1, 0);
  }

  lemma AscendingSplits(v: seq<bool>)
    ensures Argsort(Values(v)) == Nonzero(Not(v)) + Nonzero(v)
  {
    SortSplits(Values(v), Not(v), 0, 1);
    assert Not(Not(v)) == v;
  }
}
