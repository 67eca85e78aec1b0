/** Small facts about sequences that the proofs share. */
module Sequences {

  lemma Reassociate<T>(a: seq<T>, b: seq<T>, c: seq<T>)
    ensures a + (b + c) == (a + b) + c
  {
  }

  lemma EmptyHead<T>(s: seq<T>)
    ensures [] + s == s
  {
  }

  lemma FirstIsMember<T>(s: seq<T>)
    ensures s == [] || s[0] in s
  {
  }

  lemma DropOne<T>(s: seq<T>, n: nat)
    requires n < |s|
    ensures s[n..][1..] == s[n + 1..]
  {
  }

  lemma SliceOfPrefix<T>(s: seq<T>, n: nat, lo: nat, hi: nat)
    requires lo <= hi <= n <= |s|
    ensures s[..n][lo..hi] == s[lo..hi]
  {
  }

  lemma SliceSnoc<T>(s: seq<T>, lo: nat, hi: nat)
    requires lo <= hi < |s|
    ensures s[lo..hi + 1] == s[lo..hi] + [s[hi]]
  {
  }

  lemma PrefixSnoc<T>(s: seq<T>, n: nat)
    requires n < |s|
    ensures s[..n + 1] == s[..n] + [s[n]]
    ensures s[..n + 1][..n] == s[..n]
  {
  }

  lemma MultisetSnoc<T>(s: seq<T>, x: T)
    ensures multiset(s + [x]) == multiset(s) + multiset{x}
  {
  }

  /** One step of a conservation argument: what a step adds to the total it either holds or lets go. */
  lemma Rebalance<T>(held: multiset<T>, held': multiset<T>, added: multiset<T>, dropped: multiset<T>,
                     earlier: multiset<T>, total: multiset<T>)
    requires held' + dropped == held + added
    requires held + earlier == total
    ensures held' + (earlier + dropped) == total + added
  {
    assert held' + (earlier + dropped) == (held' + dropped) + earlier;
    assert (held + added) + earlier == (held + earlier) + added;
  }

  /** What holds at 0 and goes from each number below `n` to the next holds at `n`. */
  lemma {:induction false} StepByStep(p: nat -> bool, n: nat)
    requires p(0) && forall k: nat | k < n && p(k) :: p(k + 1)
    ensures p(n)
  {
    if n > 0 {
      StepByStep(p, n - 1);
    }
  }
}
