/** Insertion-ordered sets, the behaviour of Java's `LinkedHashSet` as this
    service uses it: adding an element already present changes nothing, and
    iteration yields elements in the order they were first added. A set is
    represented by the sequence of its elements in iteration order. */
module OrderedSet {

  /** No element occurs twice. */
  predicate NoDuplicates<T(==)>(s: seq<T>) {
    forall i, j :: 0 <= i < j < |s| ==> s[i] != s[j]
  }

  /** `LinkedHashSet.add`: a new element goes to the end, a present one is ignored. */
  function Insert<T(==)>(s: seq<T>, x: T): (r: seq<T>)
    ensures NoDuplicates(s) ==> NoDuplicates(r)
    ensures x in r
    ensures forall i :: 0 <= i < |r| ==> r[i] in s || r[i] == x
    ensures forall i :: 0 <= i < |s| ==> s[i] in r
    ensures |s| <= |r| <= |s| + 1
    ensures r[..|s|] == s
  {
    if x in s then s else s + [x]
  }

  /** Collecting a sequence into a `LinkedHashSet`: every element is added in turn. */
  function FromSeq<T(==)>(xs: seq<T>): (r: seq<T>)
    ensures NoDuplicates(r)
    ensures forall i :: 0 <= i < |r| ==> r[i] in xs
    ensures forall i :: 0 <= i < |xs| ==> xs[i] in r
    ensures |r| <= |xs|
    decreases |xs|
  {
    if xs == [] then [] else Insert(FromSeq(xs[..|xs| - 1]), xs[|xs| - 1])
  }

  /** Position of the first occurrence of `y` in `xs`. */
  function FirstIndex<T(==)>(xs: seq<T>, y: T): (i: nat)
    requires y in xs
    ensures i < |xs| && xs[i] == y
    ensures forall j :: 0 <= j < i ==> xs[j] != y
  {
    if xs[0] == y then 0 else 1 + FirstIndex(xs[1..], y)
  }

  /** Applies `f` to every element, keeping the order. */
  function MapSeq<A, B>(f: A -> B, xs: seq<A>): (r: seq<B>)
    ensures |r| == |xs|
    ensures forall i :: 0 <= i < |xs| ==> r[i] == f(xs[i])
  {
    seq(|xs|, i requires 0 <= i < |xs| => f(xs[i]))
  }

  /** `f` never maps two different elements of `xs` to the same value. */
  ghost predicate InjectiveOn<A, B>(f: A -> B, xs: seq<A>) {
    forall a, b :: a in xs && b in xs && f(a) == f(b) ==> a == b
  }

  /** Adding an element twice is the same as adding it once. */
  lemma InsertIdempotent<T>(s: seq<T>, x: T)
    ensures Insert(Insert(s, x), x) == Insert(s, x)
  {
  }

  /** Appending one element does not move the first occurrence of an earlier one. */
  lemma {:induction false} FirstIndexAppend<T>(xs: seq<T>, x: T, y: T)
    requires y in xs
    ensures FirstIndex(xs + [x], y) == FirstIndex(xs, y)
  {
    if xs[0] != y {
      assert (xs + [x])[1..] == xs[1..] + [x];
      FirstIndexAppend(xs[1..], x, y);
    }
  }

  /** A fresh element appended at the end is first found at the end. */
  lemma FirstIndexFresh<T>(xs: seq<T>, x: T)
    requires x !in xs
    ensures FirstIndex(xs + [x], x) == |xs|
  {
  }

  /** A sequence without duplicates is its own ordered set. */
  lemma {:induction false} FromSeqNoDuplicates<T>(xs: seq<T>)
    requires NoDuplicates(xs)
    ensures FromSeq(xs) == xs
    decreases |xs|
  {
    if xs != [] {
      var init := xs[..|xs| - 1];
      assert NoDuplicates(init);
      FromSeqNoDuplicates(init);
      assert xs[|xs| - 1] !in init;
      assert init + [xs[|xs| - 1]] == xs;
    }
  }

  /** The elements of `FromSeq(xs)` appear in the order of their first occurrence in `xs`. */
  lemma {:induction false} FromSeqFirstOccurrenceOrder<T>(xs: seq<T>)
    ensures forall i, j :: 0 <= i < j < |FromSeq(xs)| ==>
      FirstIndex(xs, FromSeq(xs)[i]) < FirstIndex(xs, FromSeq(xs)[j])
    decreases |xs|
  {
    if xs != [] {
      var init, x := xs[..|xs| - 1], xs[|xs| - 1];
      assert xs == init + [x];
      var r := FromSeq(init);
      FromSeqFirstOccurrenceOrder(init);
      forall y | y in init
        ensures FirstIndex(xs, y) == FirstIndex(init, y)
      {
        FirstIndexAppend(init, x, y);
      }
      if x !in r {
        FirstIndexFresh(init, x);
        assert FromSeq(xs) == r + [x];
      }
    }
  }

  /** Mapping distributes over appending one element. */
  lemma MapSeqSnoc<A, B>(f: A -> B, xs: seq<A>, x: A)
    ensures MapSeq(f, xs + [x]) == MapSeq(f, xs) + [f(x)]
  {
  }

  /** Under an injective map, membership of an image is membership of the preimage. */
  lemma MapSeqMember<A, B>(f: A -> B, r: seq<A>, xs: seq<A>, x: A)
    requires InjectiveOn(f, xs)
    requires x in xs
    requires forall i :: 0 <= i < |r| ==> r[i] in xs
    ensures f(x) in MapSeq(f, r) <==> x in r
  {
    if f(x) in MapSeq(f, r) {
      var k :| 0 <= k < |r| && MapSeq(f, r)[k] == f(x);
      assert r[k] in xs;
    }
    if x in r {
      var k :| 0 <= k < |r| && r[k] == x;
      assert MapSeq(f, r)[k] == f(x);
    }
  }

  /** Collecting into an ordered set commutes with a map that is injective on the elements. */
  lemma {:induction false} FromSeqMap<A, B>(f: A -> B, xs: seq<A>)
    requires InjectiveOn(f, xs)
    ensures FromSeq(MapSeq(f, xs)) == MapSeq(f, FromSeq(xs))
    decreases |xs|
  {
    if xs != [] {
      var init, x := xs[..|xs| - 1], xs[|xs| - 1];
      assert xs == init + [x];
      assert InjectiveOn(f, init);
      FromSeqMap(f, init);
      MapSeqSnoc(f, init, x);
      var r := FromSeq(init);
      assert MapSeq(f, xs)[..|xs| - 1] == MapSeq(f, init);
      assert FromSeq(MapSeq(f, xs)) == Insert(MapSeq(f, r), f(x));
      assert FromSeq(xs) == Insert(r, x);
      MapSeqMember(f, r, xs, x);
      if x !in r {
        MapSeqSnoc(f, r, x);
      }
    }
  }
}
