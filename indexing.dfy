/** The priority bucket of src/deft/indexing.py: the features of one status, kept in a list in
    priority order. Appending, inserting, removing and moving a feature rewrite the priority
    field of the features after it, so that a bucket whose features have priorities 1..n in
    list order keeps that property.

    A bucket's abstract state is a Ranking: its list of features and the priority of each
    feature involved. The specification functions below say what each operation does to a
    Ranking, the Bucket methods are proved to do exactly that to the heap, and the lemmas state
    what the operations promise about dense rankings. */
module Indexing {
  import opened Wrappers
  import opened Features

  /** The position Python uses for index i of a list of length n when slicing (l[i:]) or
      inserting (l.insert(i, x)): a negative index counts from the end and both ends clamp. */
  function Clamp(i: int, n: nat): (k: nat)
    ensures k <= n
    ensures 0 <= i <= n ==> k == i
    ensures i < 0 <= i + n ==> k == i + n
  {
    if i < 0 then (if i + n < 0 then 0 else i + n) else if i > n then n else i
  }

  /** The position l[i] and del l[i] refer to in a list of length n; None where Python raises
      IndexError. */
  function Position(i: int, n: nat): (r: Option<nat>)
    ensures r.Some? <==> 0 <= i + n && i < n
    ensures r.Some? ==> r.value < n && (r.value == i || r.value == i + n)
  {
    if 0 <= i < n then Some(i) else if i < 0 <= i + n then Some(i + n) else None
  }

  /** xs with x inserted at position k. */
  function InsertAt<T>(xs: seq<T>, k: nat, x: T): (r: seq<T>)
    requires k <= |xs|
    ensures |r| == |xs| + 1 && r[k] == x
    ensures forall i :: 0 <= i < k ==> r[i] == xs[i]
    ensures forall i :: k < i < |r| ==> r[i] == xs[i - 1]
    ensures forall y :: y in r ==> y in xs || y == x
  {
    xs[..k] + [x] + xs[k..]
  }

  /** xs without the element at position k. */
  function DeleteAt<T>(xs: seq<T>, k: nat): (r: seq<T>)
    requires k < |xs|
    ensures |r| == |xs| - 1
    ensures forall i :: 0 <= i < k ==> r[i] == xs[i]
    ensures forall i :: k <= i < |r| ==> r[i] == xs[i + 1]
    ensures forall y :: y in r ==> y in xs
  {
    xs[..k] + xs[k + 1..]
  }

  predicate Distinct<T(==)>(xs: seq<T>) {
    forall i, j :: 0 <= i < j < |xs| ==> xs[i] != xs[j]
  }

  type Priorities = map<Feature, int>

  /** A bucket's list of features, and the priority of each feature involved. */
  datatype Ranking = Ranking(order: seq<Feature>, prio: Priorities)

  predicate Covered(r: Ranking) {
    forall f :: f in r.order ==> f in r.prio
  }

  /** Ranks are dense: the feature at position i has priority i + 1. */
  predicate Dense(r: Ranking) {
    forall i :: 0 <= i < |r.order| ==> r.order[i] in r.prio && r.prio[r.order[i]] == i + 1
  }

  predicate SortedBy(xs: seq<Feature>, prio: Priorities)
    requires forall f :: f in xs ==> f in prio
  {
    forall i, j :: 0 <= i < j < |xs| ==> prio[xs[i]] <= prio[xs[j]]
  }

  /** The priorities after adding delta to the priority of each of xs[s], ..., xs[e - 1] in
      turn (a feature listed twice is changed twice). */
  function Bump(prio: Priorities, xs: seq<Feature>, s: nat, e: nat, delta: int): (r: Priorities)
    requires s <= e <= |xs| && forall f :: f in xs ==> f in prio
    ensures r.Keys == prio.Keys
    decreases e - s
  {
    if s == e then prio
    else
      var q := Bump(prio, xs, s, e - 1, delta);
      q[xs[e - 1] := q[xs[e - 1]] + delta]
  }

  /** The number of times f occurs among xs[s], ..., xs[e - 1]. */
  function Occurrences(xs: seq<Feature>, s: nat, e: nat, f: Feature): nat
    requires s <= e <= |xs|
    decreases e - s
  {
    if s == e then 0
    else Occurrences(xs, s, e - 1, f) + (if xs[e - 1] == f then 1 else 0)
  }

  /** Bucket.append: the feature goes last and its priority becomes the new length. */
  function AppendSpec(r: Ranking, newFeature: Feature): (post: Ranking)
    ensures post.order == r.order + [newFeature]
  {
    Ranking(r.order + [newFeature], r.prio[newFeature := |r.order| + 1])
  }

  /** Bucket.insert: the feature goes to index priority - 1 and every feature after it gains 1;
      the second component is the set of features whose priority is rewritten. */
  function InsertSpec(r: Ranking, newFeature: Feature): (post: (Ranking, set<Feature>))
    requires Covered(r) && newFeature in r.prio
    ensures Covered(post.0) && post.0.prio.Keys == r.prio.Keys
  {
    var k := Clamp(r.prio[newFeature] - 1, |r.order|);
    var order := InsertAt(r.order, k, newFeature);
    var s := Clamp(r.prio[newFeature], |order|);
    (Ranking(order, Bump(r.prio, order, s, |order|, 1)), set i | s <= i < |order| :: order[i])
  }

  /** Bucket.remove: the element at index priority - 1 (whichever feature it is) is deleted and
      every feature after it loses 1; IndexError when that index is out of range. */
  function RemoveSpec(r: Ranking, feature: Feature): (post: Result<(Ranking, set<Feature>)>)
    requires Covered(r) && feature in r.prio
    ensures post.Err? <==> !(-|r.order| <= r.prio[feature] - 1 < |r.order|)
    ensures post.Err? ==> post.error == IndexError
    ensures post.Ok? ==>
      Covered(post.value.0) && post.value.0.prio.Keys == r.prio.Keys && |post.value.0.order| + 1 == |r.order|
  {
    var i := r.prio[feature] - 1;
    match Position(i, |r.order|)
    case None => Err(IndexError)
    case Some(d) =>
      var order := DeleteAt(r.order, d);
      var s := Clamp(i, |order|);
      Ok((Ranking(order, Bump(r.prio, order, s, |order|, -1)), set i | s <= i < |order| :: order[i]))
  }

  /** Bucket.change_priority: remove the feature, give it the new priority, insert it again. */
  function ChangePrioritySpec(r: Ranking, feature: Feature, newPriority: int): (post: Result<(Ranking, set<Feature>)>)
    requires Covered(r) && feature in r.prio
    ensures post.Err? <==> RemoveSpec(r, feature).Err?
    ensures post.Ok? ==> |post.value.0.order| == |r.order| && feature in post.value.1
  {
    match RemoveSpec(r, feature)
    case Err(e) => Err(e)
    case Ok((removed, touched)) =>
      var (inserted, moved) := InsertSpec(Ranking(removed.order, removed.prio[feature := newPriority]), feature);
      Ok((inserted, touched + {feature} + moved))
  }

  /** One step of sorted(): x placed after every element whose priority is not greater. */
  function InsertByPriority(x: Feature, xs: seq<Feature>, prio: Priorities): (r: seq<Feature>)
    requires x in prio && forall f :: f in xs ==> f in prio
    requires SortedBy(xs, prio)
    ensures forall f :: f in r ==> f == x || f in xs
    ensures SortedBy(r, prio)
    decreases |xs|
  {
    if xs == [] then [x]
    else if prio[x] < prio[xs[0]] then [x] + xs
    else
      var rest := InsertByPriority(x, xs[1..], prio);
      assert xs == [xs[0]] + xs[1..];
      var r := [xs[0]] + rest;
      assert SortedBy(r, prio) by {
        forall i, j | 0 <= i < j < |r| ensures prio[r[i]] <= prio[r[j]] {
          if i == 0 {
            assert r[j] == rest[j - 1];
            assert r[j] == x || r[j] in xs[1..];
          } else {
            assert r[i] == rest[i - 1] && r[j] == rest[j - 1];
          }
        }
      }
      r
  }

  /** sorted(features, key=priority): an insertion sort that keeps equal priorities in their
      original order. */
  function SortByPriority(xs: seq<Feature>, prio: Priorities): (r: seq<Feature>)
    requires forall f :: f in xs ==> f in prio
    ensures forall f :: f in r ==> f in xs
    ensures SortedBy(r, prio)
    decreases |xs|
  {
    if xs == [] then []
    else
      InsertByPriority(xs[|xs| - 1], SortByPriority(xs[..|xs| - 1], prio), prio)
  }

  /** sorted() returns a permutation of its input. */
  lemma {:induction false} SortByPriorityPermutes(xs: seq<Feature>, prio: Priorities)
    requires forall f :: f in xs ==> f in prio
    ensures multiset(SortByPriority(xs, prio)) == multiset(xs)
    decreases |xs|
  {
    if xs != [] {
      var init := xs[..|xs| - 1];
      SortByPriorityPermutes(init, prio);
      InsertByPriorityPermutes(xs[|xs| - 1], SortByPriority(init, prio), prio);
      assert xs == init + [xs[|xs| - 1]];
    }
  }

  lemma {:induction false} InsertByPriorityPermutes(x: Feature, xs: seq<Feature>, prio: Priorities)
    requires x in prio && forall f :: f in xs ==> f in prio
    requires SortedBy(xs, prio)
    ensures multiset(InsertByPriority(x, xs, prio)) == multiset(xs) + multiset{x}
    decreases |xs|
  {
    if xs != [] && prio[x] >= prio[xs[0]] {
      InsertByPriorityPermutes(x, xs[1..], prio);
      assert xs == [xs[0]] + xs[1..];
    }
  }

  /** The current priority of every feature in fs. */
  function PrioritiesOf(fs: seq<Feature>): (m: Priorities)
    reads fs
    ensures forall f :: f in fs ==> f in m
    ensures forall f :: f in m ==> f in fs && m[f] == f.priority
    decreases |fs|
  {
    if fs == [] then map[]
    else PrioritiesOf(fs[..|fs| - 1])[fs[|fs| - 1] := fs[|fs| - 1].priority]
  }

  class Bucket {
    var features: seq<Feature>

    /** The bucket keeps the given features sorted by ascending priority. */
    constructor(unsorted: seq<Feature>)
      ensures features == SortByPriority(unsorted, PrioritiesOf(unsorted))
    {
      var prio := PrioritiesOf(unsorted);
      features := SortByPriority(unsorted, prio);
      assert prio == PrioritiesOf(unsorted);
    }

    /** len(bucket) */
    function Length(): (n: nat)
      reads this
      ensures n == |features|
    {
      |features|
    }

    /** bucket[n], with Python's negative indices and IndexError. */
    function Get(n: int): (r: Result<Feature>)
      reads this
      ensures r.Ok? <==> -|features| <= n < |features|
      ensures r.Err? ==> r.error == IndexError
      ensures 0 <= n < |features| ==> r == Ok(features[n])
      ensures -|features| <= n < 0 ==> r == Ok(features[|features| + n])
    {
      match Position(n, |features|)
      case None => Err(IndexError)
      case Some(k) => Ok(features[k])
    }

    /** prio records the current priority of every feature it holds, and holds the bucket's
        features and f. The methods below take such a record as a ghost argument and state
        the new priorities in its terms. */
    predicate Records(prio: Priorities, f: Feature)
      reads this, features, f, prio.Keys
    {
      (forall g :: g in features ==> g in prio) && f in prio
      && forall g :: g in prio ==> g.priority == prio[g]
    }

    /** append(f): returns the features whose priority was recorded. */
    method Append(newFeature: Feature, ghost prio: Priorities) returns (recorded: set<Feature>)
      requires Records(prio, newFeature)
      modifies this`features, newFeature`priority
      ensures var spec := AppendSpec(Ranking(old(features), prio), newFeature);
              features == spec.order && forall f :: f in prio ==> f.priority == spec.prio[f]
      ensures recorded == {newFeature}
    {
      features := features + [newFeature];
      newFeature.priority := |features|;
      recorded := {newFeature};
    }

    /** insert(f): returns the features whose priority was recorded. */
    method Insert(newFeature: Feature, ghost prio: Priorities) returns (recorded: set<Feature>)
      requires Records(prio, newFeature)
      modifies this`features, (set f | f in features + [newFeature])`priority
      ensures var spec := InsertSpec(Ranking(old(features), prio), newFeature);
              features == spec.0.order && recorded == spec.1
              && forall f :: f in prio ==> f.priority == spec.0.prio[f]
    {
      var index := newFeature.priority - 1;
      var order := InsertAt(features, Clamp(index, |features|), newFeature);
      features := order;
      recorded := ShiftFrom(order, Clamp(index + 1, |order|), 1, prio);
    }

    /** remove(f): deletes the element at index f.priority - 1; returns the features whose
        priority was recorded, or IndexError. */
    method Remove(feature: Feature, ghost prio: Priorities) returns (r: Result<set<Feature>>)
      requires Records(prio, feature)
      modifies this`features, (set f | f in features)`priority
      ensures var spec := RemoveSpec(Ranking(old(features), prio), feature);
              spec.Err? ==> r == Err(spec.error) && features == old(features)
                            && forall f :: f in prio ==> f.priority == prio[f]
      ensures var spec := RemoveSpec(Ranking(old(features), prio), feature);
              spec.Ok? ==> r == Ok(spec.value.1) && features == spec.value.0.order
                           && forall f :: f in prio ==> f.priority == spec.value.0.prio[f]
    {
      var i := feature.priority - 1;
      var d := Position(i, |features|);
      if d.None? {
        return Err(IndexError);
      }
      var order := DeleteAt(features, d.value);
      features := order;
      var recorded := ShiftFrom(order, Clamp(i, |order|), -1, prio);
      r := Ok(recorded);
    }

    /** change_priority(f, p): returns the features whose priority was recorded, or IndexError. */
    method ChangePriority(feature: Feature, newPriority: int, ghost prio: Priorities) returns (r: Result<set<Feature>>)
      requires Records(prio, feature)
      modifies this`features, (set f | f in features + [feature])`priority
      ensures var spec := ChangePrioritySpec(Ranking(old(features), prio), feature, newPriority);
              spec.Err? ==> r == Err(spec.error) && features == old(features)
                            && forall f :: f in prio ==> f.priority == prio[f]
      ensures var spec := ChangePrioritySpec(Ranking(old(features), prio), feature, newPriority);
              spec.Ok? ==> r == Ok(spec.value.1) && features == spec.value.0.order
                           && forall f :: f in prio ==> f.priority == spec.value.0.prio[f]
    {
      var removed := Remove(feature, prio);
      if removed.Err? {
        return Err(removed.error);
      }
      ghost var afterRemove := RemoveSpec(Ranking(old(features), prio), feature).value.0.prio;
      feature.priority := newPriority;
      var moved := Insert(feature, afterRemove[feature := newPriority]);
      r := Ok(removed.value + {feature} + moved);
    }
  }

  /** The loop of insert and remove: add delta to the priority of each feature of order from
      index start on, and return the set of features so recorded. */
  method ShiftFrom(order: seq<Feature>, start: nat, delta: int, ghost prio0: Priorities) returns (recorded: set<Feature>)
    requires start <= |order|
    requires forall f :: f in order ==> f in prio0
    requires forall f :: f in prio0 ==> f.priority == prio0[f]
    modifies set i | start <= i < |order| :: order[i]`priority
    ensures forall f :: f in prio0 ==> f.priority == Bump(prio0, order, start, |order|, delta)[f]
    ensures recorded == set i | start <= i < |order| :: order[i]
  {
    recorded := {};
    for j := start to |order|
      invariant forall f :: f in prio0 ==> f.priority == Bump(prio0, order, start, j, delta)[f]
      invariant recorded == set i | start <= i < j :: order[i]
    {
      var f := order[j];
      f.priority := f.priority + delta;
      recorded := recorded + {f};
    }
  }

  /** Bump adds delta once per occurrence of the feature in the range. */
  lemma {:induction false} BumpCounts(prio: Priorities, xs: seq<Feature>, s: nat, e: nat, delta: int, f: Feature)
    requires s <= e <= |xs| && forall g :: g in xs ==> g in prio
    requires f in prio
    ensures Bump(prio, xs, s, e, delta)[f] == prio[f] + delta * Occurrences(xs, s, e, f)
    decreases e - s
  {
    if s < e {
      BumpCounts(prio, xs, s, e - 1, delta, f);
      if xs[e - 1] == f {
        calc {
          delta * Occurrences(xs, s, e, f);
          delta * (Occurrences(xs, s, e - 1, f) + 1);
          delta * Occurrences(xs, s, e - 1, f) + delta;
        }
      }
    }
  }

  /** In a list without repetitions, the element at position i occurs once among xs[s..e]
      when s <= i < e, and not at all otherwise. */
  lemma {:induction false} DistinctCount(xs: seq<Feature>, s: nat, e: nat, i: nat)
    requires Distinct(xs) && s <= e <= |xs| && i < |xs|
    ensures Occurrences(xs, s, e, xs[i]) == if s <= i < e then 1 else 0
    decreases e - s
  {
    if s < e {
      DistinctCount(xs, s, e - 1, i);
    }
  }

  lemma InsertAtPermutes<T>(xs: seq<T>, k: nat, x: T)
    requires k <= |xs|
    ensures multiset(InsertAt(xs, k, x)) == multiset(xs) + multiset{x}
  {
    assert xs == xs[..k] + xs[k..];
  }

  lemma DeleteAtPermutes<T>(xs: seq<T>, k: nat)
    requires k < |xs|
    ensures multiset(DeleteAt(xs, k)) + multiset{xs[k]} == multiset(xs)
  {
    assert xs == xs[..k] + [xs[k]] + xs[k + 1..];
  }

  lemma InsertAtDistinct<T>(xs: seq<T>, k: nat, x: T)
    requires k <= |xs| && Distinct(xs) && x !in xs
    ensures Distinct(InsertAt(xs, k, x))
  {
    var r := InsertAt(xs, k, x);
    forall i, j | 0 <= i < j < |r| ensures r[i] != r[j] {
      if j < k {
      } else if j == k {
        assert r[i] == xs[i];
      } else if i == k {
        assert r[j] == xs[j - 1];
      } else if i < k {
        assert r[i] == xs[i] && r[j] == xs[j - 1];
      } else {
        assert r[i] == xs[i - 1] && r[j] == xs[j - 1];
      }
    }
  }

  lemma DeleteAtDistinct<T>(xs: seq<T>, k: nat)
    requires k < |xs| && Distinct(xs)
    ensures Distinct(DeleteAt(xs, k)) && xs[k] !in DeleteAt(xs, k)
  {
    var r := DeleteAt(xs, k);
    forall i, j | 0 <= i < j < |r| ensures r[i] != r[j] {
      if j < k {
      } else if i < k {
        assert r[i] == xs[i] && r[j] == xs[j + 1];
      } else {
        assert r[i] == xs[i + 1] && r[j] == xs[j + 1];
      }
    }
    forall j | 0 <= j < |r| ensures r[j] != xs[k] {
      if j < k {
        assert r[j] == xs[j];
      } else {
        assert r[j] == xs[j + 1];
      }
    }
  }

  lemma DenseDistinct(r: Ranking)
    requires Dense(r)
    ensures Distinct(r.order)
  {
  }

  /** Appending a feature not yet in a dense bucket keeps it dense. */
  lemma AppendKeepsDense(r: Ranking, newFeature: Feature)
    requires Dense(r) && newFeature !in r.order
    ensures Dense(AppendSpec(r, newFeature))
  {
    var post := AppendSpec(r, newFeature);
    forall i | 0 <= i < |post.order|
      ensures post.order[i] in post.prio && post.prio[post.order[i]] == i + 1
    {
      if i < |r.order| {
        assert post.order[i] == r.order[i] != newFeature;
      }
    }
  }

  /** Inserting a feature not yet in a dense bucket, at a priority in 1..n+1, puts it at index
      priority - 1 and keeps the bucket dense. */
  lemma InsertKeepsDense(r: Ranking, newFeature: Feature)
    requires Covered(r) && newFeature in r.prio
    requires Dense(r) && newFeature !in r.order
    requires 1 <= r.prio[newFeature] <= |r.order| + 1
    ensures var post := InsertSpec(r, newFeature).0;
            Dense(post) && post.order[r.prio[newFeature] - 1] == newFeature
  {
    var p := r.prio[newFeature];
    var order := InsertAt(r.order, p - 1, newFeature);
    assert Clamp(p - 1, |r.order|) == p - 1 && Clamp(p, |order|) == p;
    assert InsertSpec(r, newFeature).0 == Ranking(order, Bump(r.prio, order, p, |order|, 1));
    DenseDistinct(r);
    InsertAtDistinct(r.order, p - 1, newFeature);
    forall i | 0 <= i < |order|
      ensures Bump(r.prio, order, p, |order|, 1)[order[i]] == i + 1
    {
      InsertedAt(r, newFeature, order, p, i);
    }
  }

  /** One position of InsertKeepsDense. */
  lemma InsertedAt(r: Ranking, nf: Feature, order: seq<Feature>, p: int, i: int)
    requires Covered(r) && Dense(r) && 1 <= p <= |r.order| + 1
    requires nf in r.prio && r.prio[nf] == p && order == InsertAt(r.order, p - 1, nf)
    requires Distinct(order) && 0 <= i < |order|
    ensures Bump(r.prio, order, p, |order|, 1)[order[i]] == i + 1
  {
    BumpCounts(r.prio, order, p, |order|, 1, order[i]);
    DistinctCount(order, p, |order|, i);
    if i < p - 1 {
      assert order[i] == r.order[i];
    } else if i >= p {
      assert order[i] == r.order[i - 1];
    }
  }

  /** Removing a feature of a dense bucket deletes exactly that feature and keeps the bucket
      dense. */
  lemma RemoveKeepsDense(r: Ranking, feature: Feature)
    requires Covered(r) && feature in r.prio
    requires Dense(r) && feature in r.order
    ensures RemoveSpec(r, feature).Ok?
    ensures var post := RemoveSpec(r, feature).value.0;
            Dense(post) && feature !in post.order
            && multiset(post.order) + multiset{feature} == multiset(r.order)
  {
    var idx :| 0 <= idx < |r.order| && r.order[idx] == feature;
    var order := DeleteAt(r.order, idx);
    assert RemoveSpec(r, feature).value.0 == Ranking(order, Bump(r.prio, order, idx, |order|, -1));
    DenseDistinct(r);
    DeleteAtDistinct(r.order, idx);
    DeleteAtPermutes(r.order, idx);
    DeleteKeepsDense(r, idx);
  }

  /** Deleting the element at idx and lowering by one the priorities of those after it keeps
      the ranks dense. */
  lemma DeleteKeepsDense(r: Ranking, idx: nat)
    requires Covered(r) && Dense(r) && idx < |r.order|
    ensures var order := DeleteAt(r.order, idx);
            Dense(Ranking(order, Bump(r.prio, order, idx, |order|, -1)))
  {
    var order := DeleteAt(r.order, idx);
    DenseDistinct(r);
    DeleteAtDistinct(r.order, idx);
    forall i | 0 <= i < |order|
      ensures Bump(r.prio, order, idx, |order|, -1)[order[i]] == i + 1
    {
      BumpCounts(r.prio, order, idx, |order|, -1, order[i]);
      DistinctCount(order, idx, |order|, i);
      if i < idx {
        assert order[i] == r.order[i];
      } else {
        assert order[i] == r.order[i + 1];
      }
    }
  }


  /** The priority of a feature outside the bucket plays no part in its density. */
  lemma DenseIgnoresOthers(r: Ranking, f: Feature, p: int)
    requires Dense(r) && f !in r.order
    ensures Dense(Ranking(r.order, r.prio[f := p]))
  {
    forall i | 0 <= i < |r.order|
      ensures r.order[i] != f
    {
    }
  }

  /** Moving a feature of a dense bucket to a priority in 1..n leaves a permutation of the same
      features, dense, with the feature at index priority - 1. */
  lemma ChangePriorityMoves(r: Ranking, feature: Feature, newPriority: int)
    requires Covered(r) && feature in r.prio
    requires Dense(r) && feature in r.order
    requires 1 <= newPriority <= |r.order|
    ensures ChangePrioritySpec(r, feature, newPriority).Ok?
    ensures var post := ChangePrioritySpec(r, feature, newPriority).value.0;
            Dense(post) && multiset(post.order) == multiset(r.order)
            && post.order[newPriority - 1] == feature
  {
    RemoveKeepsDense(r, feature);
    var removed := RemoveSpec(r, feature).value.0;
    var moving := Ranking(removed.order, removed.prio[feature := newPriority]);
    assert ChangePrioritySpec(r, feature, newPriority).value.0 == InsertSpec(moving, feature).0;
    assert moving.prio[feature] == newPriority;
    DenseIgnoresOthers(removed, feature, newPriority);
    InsertKeepsDense(moving, feature);
    assert InsertSpec(moving, feature).0.order == InsertAt(moving.order, newPriority - 1, feature);
    InsertAtPermutes(moving.order, newPriority - 1, feature);
  }
}
