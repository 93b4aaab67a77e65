/** Facts about finite sequences and multisets that several modules share. */
module Collections {

  datatype Option<+T> = None | Some(value: T)

  function Map<A, B>(f: A -> B, s: seq<A>): (r: seq<B>)
    ensures |r| == |s|
    ensures forall k :: 0 <= k < |s| ==> r[k] == f(s[k])
  {
    seq(|s|, k requires 0 <= k < |s| => f(s[k]))
  }

  /** The naturals below n, in order. */
  function Indices(n: nat): (r: seq<nat>)
    ensures |r| == n
    ensures forall k :: 0 <= k < n ==> r[k] == k
  {
    seq(n, k => k)
  }

  function SetBelow(n: nat): (r: set<nat>)
    ensures forall k: nat :: k in r <==> k < n
  {
    if n == 0 then {} else SetBelow(n - 1) + {n - 1}
  }

  lemma {:induction false} SetBelowSize(n: nat)
    ensures |SetBelow(n)| == n
    ensures multiset(SetBelow(n)) == multiset(Indices(n))
  {
    if n > 0 {
      SetBelowSize(n - 1);
      AddedElement(SetBelow(n - 1), n - 1);
      NextIndex(n - 1);
    }
  }

  lemma NextIndex(n: nat)
    ensures multiset(Indices(n + 1)) == multiset(Indices(n)) + multiset{n}
  {
    assert Indices(n + 1) == Indices(n) + [n];
  }

  lemma AddedElement(s: set<nat>, x: nat)
    requires x !in s
    ensures multiset(s + {x}) == multiset(s) + multiset{x}
    ensures |s + {x}| == |s| + 1
  {
  }

  lemma Regroup<T>(a: seq<T>, b: seq<T>, c: seq<T>)
    ensures (a + b) + c == a + (b + c)
  {
  }

  predicate NoDuplicates<T(==)>(s: seq<T>) {
    forall i, j :: 0 <= i < j < |s| ==> s[i] != s[j]
  }

  /** Positions below n, each before the next. */
  predicate Increasing(at: seq<nat>, n: nat) {
    && (forall a :: 0 <= a < |at| ==> at[a] < n)
    && forall a, b :: 0 <= a < b < |at| ==> at[a] < at[b]
  }

  /** `chosen` is what is kept of s, in order, and `at` says where it was. */
  predicate Selects<T(==)>(keep: T -> bool, s: seq<T>, chosen: seq<T>, at: seq<nat>) {
    && |at| == |chosen| && Increasing(at, |s|)
    && (forall a :: 0 <= a < |at| ==> s[at[a]] == chosen[a] && keep(chosen[a]))
    && (forall i :: 0 <= i < |s| && keep(s[i]) ==> i in at)
  }

  lemma SelectsKept<T>(keep: T -> bool, s: seq<T>, chosen: seq<T>, at: seq<nat>, x: T)
    requires Selects(keep, s, chosen, at) && keep(x)
    ensures Selects(keep, s + [x], chosen + [x], at + [|s|])
  {
    var longer := at + [|s|];
    forall i | 0 <= i < |s + [x]| && keep((s + [x])[i])
      ensures i in longer
    {
      if i < |s| {
        assert i in at;
      } else {
        assert longer[|at|] == i;
      }
    }
  }

  lemma SelectsDropped<T>(keep: T -> bool, s: seq<T>, chosen: seq<T>, at: seq<nat>, x: T)
    requires Selects(keep, s, chosen, at) && !keep(x)
    ensures Selects(keep, s + [x], chosen, at)
  {
  }

  function RemoveAt<T>(s: seq<T>, k: nat): (r: seq<T>)
    requires k < |s|
    ensures multiset(r) == multiset(s) - multiset{s[k]}
    ensures multiset(s) == multiset(r) + multiset{s[k]}
  {
    assert s == s[..k] + [s[k]] + s[k+1..];
    s[..k] + s[k+1..]
  }

  /** A sequence whose multiset has no repeated element has no duplicates. */
  lemma NoDuplicatesFromMultiset<T>(s: seq<T>)
    requires forall x :: multiset(s)[x] <= 1
    ensures NoDuplicates(s)
  {
    forall i, j | 0 <= i < j < |s|
      ensures s[i] != s[j]
    {
      var rest := RemoveAt(s, i);
      assert rest[j-1] == s[j];
      assert multiset(rest)[s[i]] == multiset(s)[s[i]] - 1;
    }
  }

  /** Mapping a function over two rearrangements of one another gives rearrangements. */
  lemma {:induction false} MapOfPermutation<A, B>(f: A -> B, s: seq<A>, t: seq<A>)
    requires multiset(s) == multiset(t)
    ensures multiset(Map(f, s)) == multiset(Map(f, t))
    decreases |s|
  {
    if |s| == 0 {
      assert |multiset(t)| == 0;
    } else {
      assert s[0] in multiset(t);
      var k :| 0 <= k < |t| && t[k] == s[0];
      MapOfPermutation(f, RemoveAt(s, 0), RemoveAt(t, k));
      MapSplit(f, s, 0);
      MapSplit(f, t, k);
    }
  }

  lemma MapSplit<A, B>(f: A -> B, t: seq<A>, k: nat)
    requires k < |t|
    ensures multiset(Map(f, t)) == multiset(Map(f, RemoveAt(t, k))) + multiset{f(t[k])}
  {
    assert Map(f, RemoveAt(t, k)) == RemoveAt(Map(f, t), k);
  }
}
