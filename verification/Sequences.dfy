/** Facts about sequences, as lists and as bags. */
module Sequences {

  lemma Assoc<T>(a: seq<T>, b: seq<T>, c: seq<T>)
    ensures a + b + c == a + (b + c)
  {
  }

  lemma DropLastBag<T>(xs: seq<T>)
    requires |xs| > 0
    ensures multiset(xs[..|xs| - 1]) == multiset(xs) - multiset{xs[|xs| - 1]}
    ensures multiset(xs) == multiset(xs[..|xs| - 1]) + multiset{xs[|xs| - 1]}
  {
    assert xs == xs[..|xs| - 1] + [xs[|xs| - 1]];
  }

  lemma SpliceBag<T>(xs: seq<T>, x: T, at: nat)
    requires at <= |xs|
    ensures multiset(xs[..at] + [x] + xs[at..]) == multiset(xs) + multiset{x}
  {
    assert xs == xs[..at] + xs[at..];
  }

  lemma TakeBag<T>(xs: seq<T>, n: nat)
    requires n <= |xs|
    ensures multiset(xs[..n]) <= multiset(xs)
  {
    assert xs == xs[..n] + xs[n..];
  }

  lemma SubBagOfSameSize<T>(a: multiset<T>, b: multiset<T>)
    requires a <= b && |a| >= |b|
    ensures a == b
  {
    assert b == a + (b - a);
  }

  lemma ConsBag<T>(xs: seq<T>, x: T)
    ensures multiset([x] + xs) == multiset([] + xs) + multiset{x}
  {
    assert [] + xs == xs;
  }

  lemma BehindBag<T>(pre: seq<T>, xs: seq<T>, ys: seq<T>, y: T)
    requires multiset(ys) == multiset(xs) + multiset{y}
    ensures multiset(pre + ys) == multiset(pre + xs) + multiset{y}
  {
  }

  /** Taking the same element out of two lists with the same bag leaves the same bag. */
  lemma RemoveBag<T>(xs: seq<T>, ys: seq<T>, k: nat)
    requires multiset(xs) == multiset(ys) && |xs| > 0 && k < |ys| && ys[k] == xs[0]
    ensures multiset(xs[1..]) == multiset(ys[..k] + ys[k + 1..])
  {
    assert xs == [xs[0]] + xs[1..];
    assert ys == ys[..k] + [ys[k]] + ys[k + 1..];
    assert multiset(xs) == multiset(xs[1..]) + multiset{xs[0]};
    assert multiset(ys) == multiset(ys[..k] + ys[k + 1..]) + multiset{xs[0]};
    CancelBag(multiset(xs[1..]), multiset(ys[..k] + ys[k + 1..]), multiset{xs[0]});
  }

  lemma CancelBag<T>(a: multiset<T>, b: multiset<T>, x: multiset<T>)
    requires a + x == b + x
    ensures a == b
  {
    assert a == (a + x) - x && b == (b + x) - x;
  }

  lemma MiddleBag<T>(p: seq<T>, x: T, q: seq<T>)
    ensures multiset(p + ([x] + q)) == multiset(p + q) + multiset{x}
  {
  }
}
