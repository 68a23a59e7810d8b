/**
 * The 7-bag sequencer: an empty bag is refilled with one piece of each of
 * the seven kinds, and each draw removes one chosen piece from the bag.
 * The random choice is a parameter: `choice` picks the element at index
 * `choice % |bag|`, so every element of the bag can be drawn.
 */
module Bag {
  import opened Pieces

  /** The refill, in the order the bag is extended with. */
  const AllKinds: seq<Kind> := [I, O, T, S, Z, J, L]

  /** Every kind occurs exactly once in a refill. */
  lemma AllKindsOnce(k: Kind)
    ensures multiset(AllKinds)[k] == 1
  {
  }

  /** The bag a draw picks from: the bag itself, or a full refill when it is empty. */
  function Refilled(bag: seq<Kind>): (full: seq<Kind>)
    ensures |full| > 0
  {
    if |bag| == 0 then AllKinds else bag
  }

  /** The list with the first occurrence of `x` deleted. */
  function RemoveFirst(s: seq<Kind>, x: Kind): (r: seq<Kind>)
    requires x in s
    ensures |r| == |s| - 1
  {
    if s[0] == x then s[1..] else [s[0]] + RemoveFirst(s[1..], x)
  }

  /** Deleting one occurrence takes exactly one `x` out of the multiset of the list. */
  lemma {:induction false} RemoveFirstMultiset(s: seq<Kind>, x: Kind)
    requires x in s
    ensures multiset(s) == multiset{x} + multiset(RemoveFirst(s, x))
  {
    assert s == [s[0]] + s[1..];
    if s[0] != x {
      RemoveFirstMultiset(s[1..], x);
    }
  }

  /** What is deleted is the first occurrence: the list is cut at the first index holding `x`. */
  lemma {:induction false} RemoveFirstCutsAtFirst(s: seq<Kind>, x: Kind, i: nat)
    requires i < |s| && s[i] == x && x !in s[..i]
    ensures RemoveFirst(s, x) == s[..i] + s[i + 1..]
  {
    if i == 0 {
      assert s[..0] + s[1..] == s[1..];
    } else {
      var t := s[1..];
      assert s[0] in s[..i];
      assert t[..i - 1] == s[1..i];
      assert x !in t[..i - 1] by {
        forall q | 1 <= q < i ensures s[q] != x {
          assert s[q] == s[..i][q];
        }
      }
      RemoveFirstCutsAtFirst(t, x, i - 1);
      assert s[..i] == [s[0]] + t[..i - 1];
      assert s[i + 1..] == t[i..];
    }
  }

  /** The index a random choice selects in a list of `n` elements: `choice` itself when it is in range. */
  function Pick(choice: nat, n: nat): (i: nat)
    requires n > 0
    ensures i < n
    ensures choice < n ==> i == choice
  {
    choice % n
  }

  /** The kind drawn and the bag left behind. */
  datatype Drawn = Drawn(kind: Kind, rest: seq<Kind>)

  /**
   * One draw: refill if empty, pick the element at the chosen index and
   * remove (the first occurrence of) it. The drawn kind was in the bag, and
   * the bag loses exactly that one occurrence.
   */
  function Draw(bag: seq<Kind>, choice: nat): (d: Drawn)
    ensures d.kind in Refilled(bag)
    ensures |d.rest| == |Refilled(bag)| - 1
  {
    var full := Refilled(bag);
    var k := full[Pick(choice, |full|)];
    Drawn(k, RemoveFirst(full, k))
  }

  /** The bag left behind and the kind drawn together make up the refilled bag. */
  lemma DrawMultiset(bag: seq<Kind>, choice: nat)
    ensures multiset(Refilled(bag)) == multiset{Draw(bag, choice).kind} + multiset(Draw(bag, choice).rest)
  {
    var d := Draw(bag, choice);
    RemoveFirstMultiset(Refilled(bag), d.kind);
  }

  /** Any element of the (refilled) bag is the outcome of some choice. */
  lemma EveryElementDrawable(bag: seq<Kind>, n: nat)
    requires n < |Refilled(bag)|
    ensures Draw(bag, n).kind == Refilled(bag)[n]
  {
  }

  /** No kind occurs twice in the bag. */
  predicate AtMostOnce(bag: seq<Kind>) {
    forall k: Kind :: multiset(bag)[k] <= 1
  }

  /** A draw keeps the bag within one refill: no kind is ever present twice. */
  lemma DrawStaysWithinRefill(bag: seq<Kind>, choice: nat)
    requires AtMostOnce(bag)
    ensures AtMostOnce(Draw(bag, choice).rest)
  {
    var d := Draw(bag, choice);
    DrawMultiset(bag, choice);
    if bag == [] {
      RefilledEmpty(bag);
    }
    forall k: Kind ensures multiset(d.rest)[k] <= 1 {
      assert multiset(d.rest)[k] <= multiset(Refilled(bag))[k];
    }
  }

  /** The kinds drawn by a run of draws and the bag left behind. */
  datatype Run = Run(kinds: seq<Kind>, bag: seq<Kind>)

  /** A run of draws, one per choice, each from the bag the previous one left. */
  function DrawMany(bag: seq<Kind>, choices: seq<nat>): (run: Run)
    ensures |run.kinds| == |choices|
    decreases |choices|
  {
    if choices == [] then Run([], bag)
    else
      var d := Draw(bag, choices[0]);
      var more := DrawMany(d.rest, choices[1..]);
      Run([d.kind] + more.kinds, more.bag)
  }

  /** One step of a run: the first draw, then the run on the remaining choices from the bag it leaves. */
  lemma DrawManyCons(bag: seq<Kind>, choices: seq<nat>)
    requires choices != []
    ensures var d := Draw(bag, choices[0]);
      var more := DrawMany(d.rest, choices[1..]);
      DrawMany(bag, choices) == Run([d.kind] + more.kinds, more.bag)
  {
  }

  /**
   * At most |bag| draws from a bag never refill it: the kinds drawn and the
   * bag left behind together are the original bag.
   */
  lemma {:induction false} DrawWithinBag(bag: seq<Kind>, choices: seq<nat>)
    requires |choices| <= |bag|
    ensures multiset(DrawMany(bag, choices).kinds) + multiset(DrawMany(bag, choices).bag) == multiset(bag)
    ensures |DrawMany(bag, choices).bag| == |bag| - |choices|
    decreases |choices|
  {
    if choices != [] {
      assert Refilled(bag) == bag;
      var d := Draw(bag, choices[0]);
      DrawMultiset(bag, choices[0]);
      DrawWithinBag(d.rest, choices[1..]);
      var more := DrawMany(d.rest, choices[1..]);
      assert DrawMany(bag, choices) == Run([d.kind] + more.kinds, more.bag);
      assert multiset([d.kind] + more.kinds) == multiset{d.kind} + multiset(more.kinds);
      assert d.kind in multiset(bag);
      assert multiset(bag) == multiset{d.kind} + multiset(d.rest);
    }
  }

  /** Putting one draw in front of a run. */
  lemma ConsCounts(k: Kind, rest: seq<Kind>, kinds: seq<Kind>, base: multiset<Kind>, n: nat)
    requires forall x: Kind :: multiset(kinds)[x] == multiset(rest)[x] + n
    requires multiset{k} + multiset(rest) == base
    ensures forall x: Kind :: multiset([k] + kinds)[x] == base[x] + n
  {
    assert multiset([k] + kinds) == multiset{k} + multiset(kinds);
  }

  /**
   * A run of draws empties the bag it starts from, and draws every kind as
   * often as that bag held it plus n times.
   */
  ghost predicate Rounds(bag: seq<Kind>, choices: seq<nat>, n: nat)
  {
    var run := DrawMany(bag, choices);
    run.bag == [] && forall k: Kind :: multiset(run.kinds)[k] == multiset(bag)[k] + n
  }

  /** A draw from a non-empty bag in front of a run that has the property. */
  lemma NonEmptyStep(bag: seq<Kind>, choices: seq<nat>, n: nat)
    requires bag != [] && choices != []
    requires Rounds(Draw(bag, choices[0]).rest, choices[1..], n)
    ensures Rounds(bag, choices, n)
  {
    var d := Draw(bag, choices[0]);
    assert Refilled(bag) == bag;
    DrawMultiset(bag, choices[0]);
    DrawManyCons(bag, choices);
    var more := DrawMany(d.rest, choices[1..]);
    ConsCounts(d.kind, d.rest, more.kinds, multiset(bag), n);
  }

  /** An empty bag is refilled with every kind exactly once. */
  lemma RefilledEmpty(bag: seq<Kind>)
    requires bag == []
    ensures forall k: Kind :: multiset(Refilled(bag))[k] == 1
  {
    forall k: Kind ensures multiset(Refilled(bag))[k] == 1 {
      AllKindsOnce(k);
    }
  }

  /** A draw from an empty bag, which refills it, in front of a run that has the property. */
  lemma RefillStep(bag: seq<Kind>, choices: seq<nat>, n: nat)
    requires bag == [] && choices != [] && n > 0
    requires Rounds(Draw(bag, choices[0]).rest, choices[1..], n - 1)
    ensures Rounds(bag, choices, n)
  {
    var d := Draw(bag, choices[0]);
    DrawMultiset(bag, choices[0]);
    RefilledEmpty(bag);
    DrawManyCons(bag, choices);
    var more := DrawMany(d.rest, choices[1..]);
    ConsCounts(d.kind, d.rest, more.kinds, multiset(Refilled(bag)), n - 1);
  }

  /** Draws continuing from a bag, as many as the bag holds plus n full refills. */
  lemma {:induction false} RoundsFrom(bag: seq<Kind>, choices: seq<nat>, n: nat)
    requires |choices| == |bag| + 7 * n
    ensures Rounds(bag, choices, n)
    decreases |choices|
  {
    if choices == [] {
      assert bag == [] && n == 0;
      assert DrawMany(bag, choices) == Run([], []);
    } else if bag == [] {
      assert |Draw(bag, choices[0]).rest| == 6;
      RoundsFrom(Draw(bag, choices[0]).rest, choices[1..], n - 1);
      RefillStep(bag, choices, n);
    } else {
      RoundsFrom(Draw(bag, choices[0]).rest, choices[1..], n);
      NonEmptyStep(bag, choices, n);
    }
  }

  /** Seven draws starting from an empty bag give each kind exactly once and leave the bag empty. */
  lemma SevenDrawsFromEmpty(choices: seq<nat>)
    requires |choices| == 7
    ensures DrawMany([], choices).bag == []
    ensures forall k: Kind :: multiset(DrawMany([], choices).kinds)[k] == 1
  {
    RoundsFrom([], choices, 1);
  }

  /**
   * Bag-aligned fairness: from an empty bag, 7n draws leave the bag empty
   * and draw every kind exactly n times.
   */
  lemma BagAlignedFairness(choices: seq<nat>, n: nat)
    requires |choices| == 7 * n
    ensures DrawMany([], choices).bag == []
    ensures forall k: Kind :: multiset(DrawMany([], choices).kinds)[k] == n
  {
    RoundsFrom([], choices, n);
  }
}
