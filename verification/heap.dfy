/** A binary max-heap in the prefix of an array, as push_heap and pop_heap keep it. */
module Heap {

  function Parent(k: int): (p: int)
    requires k > 0
    ensures 0 <= p < k
  {
    (k - 1) / 2
  }

  ghost predicate IsHeap(s: seq<int>) {
    forall k :: 0 < k < |s| ==> s[k] <= s[Parent(k)]
  }

  lemma {:induction false} RootIsMax(s: seq<int>, k: nat)
    requires IsHeap(s) && k < |s|
    ensures s[k] <= s[0]
    decreases k
  {
    if k > 0 { RootIsMax(s, Parent(k)); }
  }

  method Swap(a: array<int>, n: nat, i: nat, j: nat)
    requires i < n <= a.Length && j < n
    modifies a
    ensures a[..n] == old(a[..n][i := a[j]][j := a[i]]) && a[n..] == old(a[n..])
    ensures multiset(a[..n]) == multiset(old(a[..n]))
  {
    a[i], a[j] := a[j], a[i];
    assert a[..n] == old(a[..n][i := a[j]][j := a[i]]);
  }

  /** A heap but for the entry at i, which may be larger than its ancestors. */
  ghost predicate AlmostUp(s: seq<int>, i: int) {
    && (forall k :: 0 < k < |s| && k != i ==> s[k] <= s[Parent(k)])
    && (forall k :: 0 < k < |s| && 0 < i == Parent(k) ==> s[k] <= s[Parent(i)])
  }

  lemma UpStep(s: seq<int>, i: nat)
    requires 0 < i < |s| && AlmostUp(s, i) && s[i] > s[Parent(i)]
    ensures AlmostUp(s[i := s[Parent(i)]][Parent(i) := s[i]], Parent(i))
  {
  }

  /** Make a heap of a[..n] whose last entry is new. */
  method PushHeap(a: array<int>, n: nat)
    requires 0 < n <= a.Length && IsHeap(a[..n - 1])
    modifies a
    ensures IsHeap(a[..n]) && multiset(a[..n]) == multiset(old(a[..n]))
    ensures a[n..] == old(a[n..])
  {
    var i := n - 1;
    assert forall k :: 0 < k < n - 1 ==> a[k] == a[..n - 1][k] && a[Parent(k)] == a[..n - 1][Parent(k)];
    while i > 0 && a[Parent(i)] < a[i]
      invariant i < n && AlmostUp(a[..n], i)
      invariant multiset(a[..n]) == multiset(old(a[..n])) && a[n..] == old(a[n..])
      decreases i
    {
      UpStep(a[..n], i);
      Swap(a, n, i, Parent(i));
      i := Parent(i);
    }
  }

  /** A heap but for the entry at i, which may be smaller than its children. */
  ghost predicate AlmostDown(s: seq<int>, i: int) {
    && (forall k :: 0 < k < |s| && Parent(k) != i ==> s[k] <= s[Parent(k)])
    && (forall k :: 0 < k < |s| && 0 < i == Parent(k) ==> s[k] <= s[Parent(i)])
  }

  lemma DownStep(s: seq<int>, i: nat, c: nat)
    requires i < c < |s| && Parent(c) == i && AlmostDown(s, i) && s[i] < s[c]
    requires forall k :: 0 < k < |s| && Parent(k) == i ==> s[k] <= s[c]
    ensures AlmostDown(s[i := s[c]][c := s[i]], c)
  {
  }

  /** Move the largest entry of a[..n] to its end and make a heap of the rest. */
  method PopHeap(a: array<int>, n: nat)
    requires 0 < n <= a.Length && IsHeap(a[..n])
    modifies a
    ensures a[n - 1] == old(a[0]) && IsHeap(a[..n - 1])
    ensures multiset(a[..n]) == multiset(old(a[..n]))
    ensures a[n..] == old(a[n..])
  {
    LastToFront(a, n);
    ghost var swapped := a[..];
    LastApart(swapped, n - 1);
    SiftDown(a, n - 1);
    LastApart(a[..], n - 1);
  }

  /** Exchange the first and the last entry. */
  method LastToFront(a: array<int>, n: nat)
    requires 0 < n <= a.Length && IsHeap(a[..n])
    modifies a
    ensures a[n - 1] == old(a[0]) && AlmostDown(a[..n - 1], 0)
    ensures multiset(a[..n]) == multiset(old(a[..n]))
    ensures a[n..] == old(a[n..])
  {
    ghost var s := a[..n];
    Swap(a, n, 0, n - 1);
    assert a[..n][..n - 1] == a[..n - 1] && a[..n][n - 1] == a[n - 1];
  }

  lemma LastApart(s: seq<int>, m: nat)
    requires m < |s|
    ensures multiset(s[..m + 1]) == multiset(s[..m]) + multiset{s[m]}
  {
    assert s[..m + 1] == s[..m] + [s[m]];
  }

  /** The larger child of entry i. */
  method LargerChild(a: array<int>, m: nat, i: nat) returns (c: nat)
    requires m <= a.Length && 2 * i + 1 < m
    ensures i < c < m && Parent(c) == i
    ensures forall k :: 0 < k < m && Parent(k) == i ==> a[k] <= a[c]
  {
    c := 2 * i + 1;
    if c + 1 < m && a[c] < a[c + 1] {
      c := c + 1;
    }
    assert forall k :: 0 < k < m && Parent(k) == i ==> k == 2 * i + 1 || k == 2 * i + 2;
  }

  /** Restore the heap order of a[..m] after its root was replaced. */
  method SiftDown(a: array<int>, m: nat)
    requires m < a.Length && AlmostDown(a[..m], 0)
    modifies a
    ensures IsHeap(a[..m]) && multiset(a[..m]) == multiset(old(a[..m]))
    ensures a[m..] == old(a[m..])
  {
    var i := 0;
    while 2 * i + 1 < m
      invariant i <= m && AlmostDown(a[..m], i)
      invariant multiset(a[..m]) == multiset(old(a[..m])) && a[m..] == old(a[m..])
      decreases m - i
    {
      var c := LargerChild(a, m, i);
      if a[c] <= a[i] {
        return;
      }
      DownStep(a[..m], i, c);
      Swap(a, m, i, c);
      i := c;
    }
  }
}
