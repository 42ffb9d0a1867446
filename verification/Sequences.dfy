/** Positions in a sequence. */
module Sequences {

  predicate Increasing(p: seq<nat>) {
    forall i, j :: 0 <= i < j < |p| ==> p[i] < p[j]
  }

  lemma IncreasingSnoc(p: seq<nat>, n: nat)
    requires Increasing(p) && forall i :: 0 <= i < |p| ==> p[i] < n
    ensures Increasing(p + [n])
  {
  }

  /** What holds of two pairs of sequences position by position holds of their concatenations. */
  lemma RelatedConcat<A, B>(xs: seq<A>, es: seq<B>, ys: seq<A>, fs: seq<B>, related: (A, B) -> bool)
    requires |xs| == |es| && forall i :: 0 <= i < |xs| ==> related(xs[i], es[i])
    requires |ys| == |fs| && forall i :: 0 <= i < |ys| ==> related(ys[i], fs[i])
    ensures forall i :: 0 <= i < |xs + ys| ==> related((xs + ys)[i], (es + fs)[i])
  {
  }

  predicate Ordered<A>(xs: seq<A>, before: (A, A) -> bool) {
    forall i, j :: 0 <= i < j < |xs| ==> before(xs[i], xs[j])
  }

  lemma OrderedConcat<A>(xs: seq<A>, ys: seq<A>, before: (A, A) -> bool)
    requires Ordered(xs, before) && Ordered(ys, before)
    requires forall i, j :: 0 <= i < |xs| && 0 <= j < |ys| ==> before(xs[i], ys[j])
    ensures Ordered(xs + ys, before)
  {
    var both := xs + ys;
    forall i, j | 0 <= i < j < |both| ensures before(both[i], both[j]) {
      assert both[i] == if i < |xs| then xs[i] else ys[i - |xs|];
      assert both[j] == if j < |xs| then xs[j] else ys[j - |xs|];
    }
  }

  /** ys belong to the chosen ones of the first n positions, which are p, in order. */
  predicate Selected<B>(n: nat, chosen: nat -> bool, related: (nat, B) -> bool, ys: seq<B>, p: seq<nat>) {
    |p| == |ys| && Increasing(p) &&
    (forall i :: 0 <= i < |p| ==> p[i] < n && related(p[i], ys[i])) &&
    (forall k :: 0 <= k < n ==> (k in p <==> chosen(k)))
  }

  lemma SelectedNone<B>(chosen: nat -> bool, related: (nat, B) -> bool)
    ensures Selected(0, chosen, related, [], [])
  {
  }

  lemma SelectedSnoc<B>(n: nat, chosen: nat -> bool, related: (nat, B) -> bool, ys: seq<B>, p: seq<nat>, y: B)
    requires Selected(n, chosen, related, ys, p) && chosen(n) && related(n, y)
    ensures Selected(n + 1, chosen, related, ys + [y], p + [n])
  {
    IncreasingSnoc(p, n);
  }

  lemma SelectedSkip<B>(n: nat, chosen: nat -> bool, related: (nat, B) -> bool, ys: seq<B>, p: seq<nat>)
    requires Selected(n, chosen, related, ys, p) && !chosen(n)
    ensures Selected(n + 1, chosen, related, ys, p)
  {
  }
}
