/** Stable sorting by a comparator, as JavaScript's `Array.prototype.sort` does it, and the facts that make a sorted
    sequence a canonical form: sorting keeps the elements as often as they occur, and two sequences with the same
    elements have one sorted form when the comparator tells all elements apart. Filtering, and permutations given by
    their positions, are here as well. */
module Sorting {

  /** A comparator usable for sorting: total and transitive. */
  ghost predicate TotalPreorder<T(!new)>(leq: (T, T) -> bool) {
    && (forall a, b :: leq(a, b) || leq(b, a))
    && (forall a, b, c :: leq(a, b) && leq(b, c) ==> leq(a, c))
  }

  ghost predicate Antisymmetric<T(!new)>(leq: (T, T) -> bool) {
    forall a, b :: leq(a, b) && leq(b, a) ==> a == b
  }

  ghost predicate TotalOrder<T(!new)>(leq: (T, T) -> bool) {
    TotalPreorder(leq) && Antisymmetric(leq)
  }

  ghost predicate SortedBy<T>(leq: (T, T) -> bool, s: seq<T>) {
    forall i, j | 0 <= i < j < |s| :: leq(s[i], s[j])
  }

  function Insert<T>(leq: (T, T) -> bool, x: T, s: seq<T>): (r: seq<T>) {
    if s == [] || leq(x, s[0]) then [x] + s else [s[0]] + Insert(leq, x, s[1..])
  }

  /** Insertion sort; elements that compare equal keep their order. */
  function SortBy<T>(leq: (T, T) -> bool, s: seq<T>): (r: seq<T>) {
    if s == [] then [] else Insert(leq, s[0], SortBy(leq, s[1..]))
  }

  lemma {:induction false} InsertKeepsMultiset<T>(leq: (T, T) -> bool, x: T, s: seq<T>)
    ensures multiset(Insert(leq, x, s)) == multiset{x} + multiset(s)
  {
    if s != [] && !leq(x, s[0]) {
      assert s == [s[0]] + s[1..];
      InsertKeepsMultiset(leq, x, s[1..]);
    }
  }

  lemma {:induction false} SortKeepsMultiset<T>(leq: (T, T) -> bool, s: seq<T>)
    ensures multiset(SortBy(leq, s)) == multiset(s)
    ensures |SortBy(leq, s)| == |s|
  {
    if s != [] {
      assert s == [s[0]] + s[1..];
      SortKeepsMultiset(leq, s[1..]);
      InsertKeepsMultiset(leq, s[0], SortBy(leq, s[1..]));
    }
    assert |multiset(SortBy(leq, s))| == |multiset(s)|;
  }

  lemma SortKeepsMembers<T>(leq: (T, T) -> bool, s: seq<T>)
    ensures forall x :: x in SortBy(leq, s) <==> x in s
  {
    SortKeepsMultiset(leq, s);
    forall x ensures x in SortBy(leq, s) <==> x in s {
      assert x in multiset(SortBy(leq, s)) <==> x in multiset(s);
    }
  }

  lemma {:induction false} InsertSorts<T(!new)>(leq: (T, T) -> bool, x: T, s: seq<T>)
    requires TotalPreorder(leq) && SortedBy(leq, s)
    ensures SortedBy(leq, Insert(leq, x, s))
  {
    if s != [] && !leq(x, s[0]) {
      InsertSorts(leq, x, s[1..]);
      var t := Insert(leq, x, s[1..]);
      InsertKeepsMultiset(leq, x, s[1..]);
      forall j | 0 <= j < |t| ensures leq(s[0], t[j]) {
        assert t[j] in multiset(t);
        if t[j] != x { assert t[j] in s[1..]; }
      }
    }
  }

  lemma {:induction false} SortSorts<T(!new)>(leq: (T, T) -> bool, s: seq<T>)
    requires TotalPreorder(leq)
    ensures SortedBy(leq, SortBy(leq, s))
  {
    if s != [] {
      SortSorts(leq, s[1..]);
      InsertSorts(leq, s[0], SortBy(leq, s[1..]));
    }
  }

  lemma HeadIsLeast<T(!new)>(leq: (T, T) -> bool, s: seq<T>, x: T)
    requires TotalPreorder(leq) && SortedBy(leq, s) && x in s
    ensures leq(s[0], x)
  {
    var i :| 0 <= i < |s| && s[i] == x;
    assert leq(s[0], s[0]);
  }

  lemma HeadAndTail<T>(s: seq<T>)
    requires s != []
    ensures multiset(s[1..]) == multiset(s) - multiset{s[0]} && s[0] in multiset(s)
  {
    assert s == [s[0]] + s[1..];
    assert multiset(s) == multiset{s[0]} + multiset(s[1..]);
  }

  lemma HeadsAgree<T(!new)>(leq: (T, T) -> bool, s: seq<T>, t: seq<T>)
    requires TotalOrder(leq) && SortedBy(leq, s) && SortedBy(leq, t)
    requires multiset(s) == multiset(t) && s != [] && t != []
    ensures s[0] == t[0]
  {
    assert s[0] in multiset(t) && t[0] in multiset(s);
    HeadIsLeast(leq, s, t[0]);
    HeadIsLeast(leq, t, s[0]);
  }

  /** Under a total order a multiset has only one sorted listing. */
  lemma {:induction false} SortedIsUnique<T(!new)>(leq: (T, T) -> bool, s: seq<T>, t: seq<T>)
    requires TotalOrder(leq)
    requires SortedBy(leq, s) && SortedBy(leq, t)
    requires multiset(s) == multiset(t)
    ensures s == t
  {
    assert |multiset(s)| == |multiset(t)|;
    if s != [] {
      HeadsAgree(leq, s, t);
      hide TotalOrder;
      HeadAndTail(s);
      HeadAndTail(t);
      SortedIsUnique(leq, s[1..], t[1..]);
      assert s == [s[0]] + s[1..] && t == [t[0]] + t[1..];
    }
  }

  /** Sorting forgets the order of its input and nothing else. */
  lemma SortIsCanonical<T(!new)>(leq: (T, T) -> bool, s: seq<T>, t: seq<T>)
    requires TotalOrder(leq)
    ensures SortBy(leq, s) == SortBy(leq, t) <==> multiset(s) == multiset(t)
  {
    SortKeepsMultiset(leq, s);
    SortKeepsMultiset(leq, t);
    if multiset(s) == multiset(t) {
      SortSorts(leq, s);
      SortSorts(leq, t);
      SortedIsUnique(leq, SortBy(leq, s), SortBy(leq, t));
    }
  }

  /** Comparison of elements by the value `f` assigns to them. */
  function By<A, B>(leq: (B, B) -> bool, f: A -> B): (A, A) -> bool {
    (a, b) => leq(f(a), f(b))
  }

  lemma ByIsTotalOrder<A(!new), B(!new)>(leq: (B, B) -> bool, f: A -> B)
    requires TotalOrder(leq) && forall a, b :: f(a) == f(b) ==> a == b
    ensures TotalOrder(By(leq, f))
  {
    var r := By(leq, f);
    forall a, b ensures r(a, b) || r(b, a) {}
    forall a, b, c | r(a, b) && r(b, c) ensures r(a, c) {
      assert leq(f(a), f(b)) && leq(f(b), f(c));
    }
  }

  // ---- filters -------------------------------------------------------------------------------

  /** `filter` */
  function Keep<T(!new)>(s: seq<T>, p: T -> bool): (r: seq<T>)
    ensures forall x :: x in r <==> x in s && p(x)
  {
    if s == [] then []
    else
      assert forall x :: x in s <==> x == s[0] || x in s[1..];
      if p(s[0]) then [s[0]] + Keep(s[1..], p) else Keep(s[1..], p)
  }

  lemma {:induction false} KeepAll<T(!new)>(s: seq<T>, p: T -> bool)
    requires forall x | x in s :: p(x)
    ensures Keep(s, p) == s
    decreases |s|
  {
    if s != [] { KeepAll(s[1..], p); }
  }

  lemma {:induction false} KeepNone<T(!new)>(s: seq<T>, p: T -> bool)
    requires forall x | x in s :: !p(x)
    ensures Keep(s, p) == []
    decreases |s|
  {
    if s != [] { KeepNone(s[1..], p); }
  }

  lemma {:induction false} KeepTwice<T(!new)>(s: seq<T>, p: T -> bool, q: T -> bool, both: T -> bool)
    requires forall x | x in s :: both(x) <==> p(x) && q(x)
    ensures Keep(Keep(s, p), q) == Keep(s, both)
    decreases |s|
  {
    if s != [] {
      KeepTwice(s[1..], p, q, both);
      var rest := Keep(s[1..], p);
      if p(s[0]) { assert ([s[0]] + rest)[1..] == rest; }
    }
  }

  lemma {:induction false} KeepLast<T(!new)>(s: seq<T>, x: T, p: T -> bool)
    ensures Keep(s + [x], p) == Keep(s, p) + if p(x) then [x] else []
    decreases |s|
  {
    if s == [] {
      assert [x][1..] == [];
    } else {
      assert (s + [x])[1..] == s[1..] + [x];
      KeepLast(s[1..], x, p);
    }
  }

  /** A filter leaves one element exactly when one position passes. */
  lemma {:induction false} KeepOne<T(!new)>(s: seq<T>, p: T -> bool)
    ensures |Keep(s, p)| == 1 <==> exists i :: OnlyAt(s, p, i)
    ensures forall i | OnlyAt(s, p, i) :: Keep(s, p) == [s[i]]
    decreases |s|
  {
    if s != [] {
      KeepOne(s[1..], p);
      if p(s[0]) {
        if |Keep(s, p)| == 1 {
          assert Keep(s[1..], p) == [];
          forall j | 0 < j < |s| ensures !p(s[j]) { assert s[1..][j - 1] in s[1..]; }
          assert OnlyAt(s, p, 0);
        }
        forall i | OnlyAt(s, p, i) ensures Keep(s, p) == [s[i]] {
          assert i == 0;
          forall x | x in s[1..] ensures !p(x) {
            var j :| 0 <= j < |s[1..]| && s[1..][j] == x;
            assert s[j + 1] == x;
          }
          KeepNone(s[1..], p);
        }
      } else {
        forall i ensures OnlyAt(s, p, i) <==> i > 0 && OnlyAt(s[1..], p, i - 1) {
          if i > 0 && OnlyAt(s[1..], p, i - 1) {
            forall j | 0 <= j < |s| && j != i ensures !p(s[j]) { if j > 0 { assert s[1..][j - 1] == s[j]; } }
          }
        }
        if i :| OnlyAt(s[1..], p, i) { assert OnlyAt(s, p, i + 1); }
      }
    }
  }

  predicate OnlyAt<T>(s: seq<T>, p: T -> bool, i: int) {
    0 <= i < |s| && p(s[i]) && forall j | 0 <= j < |s| && j != i :: !p(s[j])
  }

  // ---- permutations --------------------------------------------------------------------------

  predicate IsPermutation(p: seq<int>, n: nat) {
    && |p| == n
    && (forall i | 0 <= i < n :: 0 <= p[i] < n)
    && (forall i, j | 0 <= i < j < n :: p[i] != p[j])
  }

  ghost predicate MatchedBy<T>(p: seq<int>, s: seq<T>, t: seq<T>) {
    |s| == |t| && IsPermutation(p, |s|) && forall i | 0 <= i < |s| :: s[i] == t[p[i]]
  }

  function Without<T>(s: seq<T>, k: nat): (r: seq<T>)
    requires k < |s|
    ensures |r| == |s| - 1
  {
    s[..k] + s[k + 1..]
  }

  lemma WithoutMultiset<T>(s: seq<T>, k: nat)
    requires k < |s|
    ensures multiset(s) == multiset(Without(s, k)) + multiset{s[k]}
  {
    assert s == s[..k] + [s[k]] + s[k + 1..];
  }

  /** Sequences with the same multiset are permutations of each other. */
  lemma {:induction false} FindPermutation<T>(s: seq<T>, t: seq<T>) returns (p: seq<int>)
    requires multiset(s) == multiset(t)
    ensures MatchedBy(p, s, t)
  {
    assert |multiset(s)| == |multiset(t)|;
    if s == [] {
      p := [];
    } else {
      assert s[0] in multiset(t);
      var k :| 0 <= k < |t| && t[k] == s[0];
      WithoutMultiset(t, k);
      assert s == [s[0]] + s[1..];
      assert multiset(s[1..]) == multiset(s) - multiset{s[0]};
      assert multiset(Without(t, k)) == multiset(t) - multiset{s[0]};
      var q := FindPermutation(s[1..], Without(t, k));
      p := [k] + Shifted(q, k);
      LiftMatch(q, k, s, t);
    }
  }

  /** Positions of a sequence with element `k` taken out, as positions of the whole sequence. */
  function Shifted(q: seq<int>, k: int): (p: seq<int>)
    ensures |p| == |q| && forall i | 0 <= i < |q| :: p[i] == if q[i] < k then q[i] else q[i] + 1
  {
    seq(|q|, i requires 0 <= i < |q| => if q[i] < k then q[i] else q[i] + 1)
  }

  lemma LiftMatch<T>(q: seq<int>, k: nat, s: seq<T>, t: seq<T>)
    requires s != [] && k < |t| && t[k] == s[0] && MatchedBy(q, s[1..], Without(t, k))
    ensures MatchedBy([k] + Shifted(q, k), s, t)
  {
    var p := [k] + Shifted(q, k);
    forall i | 0 <= i < |s| ensures 0 <= p[i] < |t| && s[i] == t[p[i]] {
      if i > 0 { assert s[i] == s[1..][i - 1] == Without(t, k)[q[i - 1]]; }
    }
    forall i, j | 0 <= i < j < |s| ensures p[i] != p[j] {
      if i > 0 { assert q[i - 1] != q[j - 1]; }
    }
  }

  /** The positions that remain when position `k` is taken out. */
  function Lowered(p: seq<int>, k: int): (q: seq<int>)
    requires p != []
    ensures |q| == |p| - 1
    ensures forall i | 0 <= i < |q| :: q[i] == if p[i + 1] < k then p[i + 1] else p[i + 1] - 1
  {
    seq(|p| - 1, i requires 0 <= i < |p| - 1 => if p[i + 1] < k then p[i + 1] else p[i + 1] - 1)
  }

  lemma LowerMatch<T>(p: seq<int>, s: seq<T>, t: seq<T>)
    requires s != [] && MatchedBy(p, s, t)
    ensures MatchedBy(Lowered(p, p[0]), s[1..], Without(t, p[0])) && t[p[0]] == s[0]
  {
    var q, r := Lowered(p, p[0]), Without(t, p[0]);
    forall i | 0 <= i < |q| ensures 0 <= q[i] < |r| && s[1..][i] == r[q[i]] {
      assert p[i + 1] != p[0] && s[i + 1] == t[p[i + 1]];
    }
    forall i, j | 0 <= i < j < |q| ensures q[i] != q[j] {
      assert p[0] != p[i + 1] && p[i + 1] != p[j + 1] && p[0] != p[j + 1];
    }
  }

  lemma {:induction false} PermutationKeepsMultiset<T>(p: seq<int>, s: seq<T>, t: seq<T>)
    requires MatchedBy(p, s, t)
    ensures multiset(s) == multiset(t)
    decreases |s|
  {
    if s != [] {
      LowerMatch(p, s, t);
      hide MatchedBy;
      PermutationKeepsMultiset(Lowered(p, p[0]), s[1..], Without(t, p[0]));
      WithoutMultiset(t, p[0]);
      HeadAndTail(s);
    }
  }
}
