/** The estimation scale, the estimation fields and the snapping rule that
    turns the mean of a field's votes into a card of the deck
    (FIBO_DECK, ESTIMATION_FIELDS and nearest_fibo in app.py). */
module Deck {

  /** The legal card values, in ascending order. */
  const FIBO_DECK: seq<int> := [1, 2, 3, 5, 8, 13, 21, 34]

  /** The five dimensions every feature is estimated on. */
  const ESTIMATION_FIELDS: seq<string> :=
    ["Business Value", "Time Complexity", "OE/RR Value", "Job Size", "Story Points"]

  function Abs(x: int): int {
    if x < 0 then -x else x
  }

  /** The distance of card `d` from the rational value `num / den`, multiplied
      by `den`. For `den > 0` this orders cards exactly as `|d - num / den|`
      does (lemma DistOrdersLikeRealDistance), without any division. */
  function Dist(d: int, num: int, den: int): int {
    Abs(d * den - num)
  }

  /** Python's `min(deck, key=...)`: scans left to right and replaces the
      current best only by a strictly nearer card, so the first nearest card
      is returned. */
  function FirstNearest(deck: seq<int>, num: int, den: int): (i: nat)
    requires |deck| > 0
    ensures i < |deck|
    ensures forall k :: 0 <= k < |deck| ==> Dist(deck[i], num, den) <= Dist(deck[k], num, den)
    ensures forall k :: 0 <= k < i ==> Dist(deck[i], num, den) < Dist(deck[k], num, den)
    decreases |deck|
  {
    if |deck| == 1 then 0
    else
      var best := FirstNearest(deck[..|deck| - 1], num, den);
      if Dist(deck[|deck| - 1], num, den) < Dist(deck[best], num, den) then |deck| - 1 else best
  }

  /** `nearest_fibo(num / den)`: the card of the deck nearest to the mean;
      of two equally near cards, the smaller one. */
  function NearestFibo(num: int, den: int): (r: int)
    requires den > 0
    ensures r in FIBO_DECK
    ensures forall d :: d in FIBO_DECK ==> Dist(r, num, den) <= Dist(d, num, den)
    ensures forall d :: d in FIBO_DECK && Dist(d, num, den) == Dist(r, num, den) ==> r <= d
  {
    var i := FirstNearest(FIBO_DECK, num, den);
    assert forall k, l :: 0 <= k < l < |FIBO_DECK| ==> FIBO_DECK[k] < FIBO_DECK[l];
    FIBO_DECK[i]
  }

  /** The mean `num / den` as the source's true division computes it, taken
      exactly. */
  function Mean(num: int, den: int): real
    requires den > 0
  {
    num as real / den as real
  }

  function RealAbs(x: real): real {
    if x < 0.0 then -x else x
  }

  /** Comparing scaled integer distances is comparing the real distances
      `|d - num / den|` that the source computes. */
  lemma DistOrdersLikeRealDistance(a: int, b: int, num: int, den: int)
    requires den > 0
    ensures Dist(a, num, den) <= Dist(b, num, den)
        <==> RealAbs(a as real - Mean(num, den)) <= RealAbs(b as real - Mean(num, den))
  {
    var m, n := Dist(a, num, den), Dist(b, num, den);
    var x, y := RealAbs(a as real - Mean(num, den)), RealAbs(b as real - Mean(num, den));
    DistAsReal(a, num, den);
    DistAsReal(b, num, den);
    ScaledOrder(m, n, x, y, den as real);
  }

  lemma DistAsReal(d: int, num: int, den: int)
    requires den > 0
    ensures Dist(d, num, den) as real == RealAbs(d as real - Mean(num, den)) * den as real
  {
    var v := num as real / den as real;
    var c := den as real;
    assert num as real == v * c;
    assert (d * den - num) as real == (d as real - v) * c;
    ScaledAbs(d as real - v, c);
  }

  lemma ScaledAbs(x: real, c: real)
    requires c > 0.0
    ensures RealAbs(x * c) == RealAbs(x) * c
  {
  }

  lemma ScaledOrder(m: int, n: int, x: real, y: real, c: real)
    requires c > 0.0 && m as real == x * c && n as real == y * c
    ensures m <= n <==> x <= y
  {
    if x <= y {
      assert y * c - x * c == (y - x) * c;
    } else {
      assert x * c - y * c == (x - y) * c;
    }
  }

  /** The three properties of NearestFibo determine its result: any card
      that is nearest and smallest among the nearest is that result. */
  lemma NearestFiboUnique(num: int, den: int, c: int)
    requires den > 0
    requires c in FIBO_DECK
    requires forall d :: d in FIBO_DECK ==> Dist(c, num, den) <= Dist(d, num, den)
    requires forall d :: d in FIBO_DECK && Dist(d, num, den) == Dist(c, num, den) ==> c <= d
    ensures c == NearestFibo(num, den)
  {
  }

  /** A card is its own nearest card. */
  lemma NearestFiboOfCard(d: int, n: int)
    requires d in FIBO_DECK && n > 0
    ensures NearestFibo(d * n, n) == d
  {
    var r := NearestFibo(d * n, n);
    assert Dist(d, d * n, n) == 0;
    assert Dist(r, d * n, n) == 0;
    assert (r - d) * n == 0;
  }

  /** Mean 10.5 of the votes 8 and 13 lies halfway between two cards and
      snaps to the smaller one, 8. */
  lemma NearestFiboTieExample()
    ensures NearestFibo(21, 2) == 8
  {
    NearestFiboUnique(21, 2, 8);
  }

  /** Mean 16/3 of the votes 3, 5 and 8 snaps to 5. */
  lemma NearestFiboMeanExample()
    ensures NearestFibo(16, 3) == 5
  {
    NearestFiboUnique(16, 3, 5);
  }
}
