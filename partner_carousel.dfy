/**
  The favourites carousel (`components/PartnerCarousel.tsx`): a current index over the
  partner list, moved forwards and backwards modulo the list's length by the buttons and
  by the timer, with a row of at most ten dots.
*/
module PartnerCarousel {
  import opened Wrappers
  import opened Types
  import PlaceCard

  /** Only the first ten partners get a dot (`partners.slice(0, 10)`). */
  const MaxDots := 10

  /** `(prev + 1) % partners.length`. */
  function NextIndex(i: nat, n: nat): (r: nat)
    requires n > 0
    ensures r < n
    ensures i < n - 1 ==> r == i + 1
    ensures i == n - 1 ==> r == 0
  {
    (i + 1) % n
  }

  /** `(prev - 1 + partners.length) % partners.length`; the operand is never negative here. */
  function PrevIndex(i: nat, n: nat): (r: nat)
    requires n > 0
    ensures r < n
    ensures 0 < i < n ==> r == i - 1
    ensures i == 0 ==> r == n - 1
  {
    (i - 1 + n) % n
  }

  /** Going back undoes going forwards, and the other way round. */
  lemma NextPrevInverse(i: nat, n: nat)
    requires i < n
    ensures PrevIndex(NextIndex(i, n), n) == i
    ensures NextIndex(PrevIndex(i, n), n) == i
  {
  }

  /** The index after `k` steps forwards. */
  function Advance(i: nat, n: nat, k: nat): (r: nat)
    requires n > 0 && i < n
    ensures r < n
  {
    if k == 0 then i else NextIndex(Advance(i, n, k - 1), n)
  }

  /** Up to a full round, `k` steps forwards from `i` land on `i + k`, wrapped once past the end. */
  lemma {:induction false} AdvanceWraps(i: nat, n: nat, k: nat)
    requires n > 0 && i < n && k <= n
    ensures Advance(i, n, k) == if i + k < n then i + k else i + k - n
  {
    if k > 0 {
      AdvanceWraps(i, n, k - 1);
    }
  }

  /** The number of steps forwards from `i` to `j`. */
  function StepsTo(i: nat, j: nat, n: nat): (k: nat)
    requires i < n && j < n
    ensures k < n
  {
    if i <= j then j - i else j + n - i
  }

  /**
    The timer shows every partner in turn: each index comes up within fewer than `n` ticks,
    and the `n`-th tick is back where it started.
  */
  lemma {:induction false} AdvanceCycles(i: nat, n: nat)
    requires n > 0 && i < n
    ensures Advance(i, n, n) == i
    ensures forall j :: 0 <= j < n ==> Advance(i, n, StepsTo(i, j, n)) == j
  {
    AdvanceWraps(i, n, n);
    forall j | 0 <= j < n ensures Advance(i, n, StepsTo(i, j, n)) == j {
      AdvanceWraps(i, n, StepsTo(i, j, n));
    }
  }

  /** The buttons and the timer exist only for two or more partners. */
  predicate Navigable(n: nat) {
    n > 1
  }

  /** The dots: one per partner among the first ten, lit at the current index. */
  function Dots(n: nat, current: nat): (dots: seq<bool>)
    ensures |dots| == if n < MaxDots then n else MaxDots
    ensures forall i :: 0 <= i < |dots| ==> (dots[i] <==> i == current)
  {
    var count := if n < MaxDots then n else MaxDots;
    seq(count, i requires 0 <= i < count => i == current)
  }

  /** One dot is lit while the current partner is among the first ten, none after that. */
  lemma LitDots(n: nat, current: nat)
    requires current < n
    ensures PlaceCard.CountTrue(Dots(n, current)) == if current < MaxDots then 1 else 0
  {
    var dots := Dots(n, current);
    if current < MaxDots {
      SingleTrue(dots, current);
    } else {
      NoTrue(dots);
    }
  }

  lemma {:induction false} SingleTrue(bs: seq<bool>, p: nat)
    requires p < |bs|
    requires forall i :: 0 <= i < |bs| ==> (bs[i] <==> i == p)
    ensures PlaceCard.CountTrue(bs) == 1
  {
    if p == 0 {
      NoTrue(bs[1..]);
    } else {
      assert !bs[0];
      forall i | 0 <= i < |bs[1..]| ensures bs[1..][i] <==> i == p - 1 {
        assert bs[1..][i] == bs[i + 1];
      }
      SingleTrue(bs[1..], p - 1);
    }
  }

  lemma {:induction false} NoTrue(bs: seq<bool>)
    requires forall i :: 0 <= i < |bs| ==> !bs[i]
    ensures PlaceCard.CountTrue(bs) == 0
  {
    if bs != [] {
      NoTrue(bs[1..]);
    }
  }

  /** The current partner exists whenever there is a partner to show. */
  predicate IndexShows(index: nat, n: nat) {
    n == 0 || index < n
  }

  /**
    With two partners showing the second, un-favouriting one keeps the index at 1 while the
    list has length 1: `partners[currentIndex]` is `undefined` and the next line reads a
    field of it.
  */
  method ShrinkScenario(p: Place, q: Place) returns (c: Carousel)
    ensures c.partners == [p] && c.currentIndex == 1
    ensures !c.Valid()
  {
    c := new Carousel([p, q]);
    c.Next();
    c.ReceivePartnersAsWritten([p]);
  }

  /** The same steps with the index reconciled leave the remaining partner on show. */
  method ShrinkScenarioReconciled(p: Place, q: Place) returns (c: Carousel)
    ensures c.Valid() && c.Current() == Some(p)
  {
    c := new Carousel([p, q]);
    c.Next();
    c.SetPartners([p]);
  }

  /** The index the carousel should show after the list changes: kept if still valid, else the first. */
  function ReconciledIndex(index: nat, n: nat): (r: nat)
    ensures IndexShows(r, n)
    ensures index < n ==> r == index
  {
    if index < n then index else 0
  }

  /** The carousel's state: the partners it was given and `currentIndex`. */
  class Carousel {
    var partners: seq<Place>
    var currentIndex: nat

    /** The current partner exists whenever there is one to show. */
    predicate Valid()
      reads this
    {
      IndexShows(currentIndex, |partners|)
    }

    constructor(partners: seq<Place>)
      ensures Valid()
      ensures this.partners == partners && currentIndex == 0
    {
      this.partners := partners;
      currentIndex := 0;
    }

    /** `partners[currentIndex]`; an empty list renders nothing. */
    function Current(): (p: Option<Place>)
      reads this
      requires Valid()
      ensures p.None? <==> partners == []
      ensures p.Some? ==> p.value in partners
    {
      if partners == [] then None else Some(partners[currentIndex])
    }

    /** The star ranking of the current partner, on the place card's scale. */
    function CurrentRating(): (r: int)
      reads this
      requires Valid() && partners != []
      ensures r <= PlaceCard.MaxStars
      ensures PlaceCard.VoteCount(partners[currentIndex]) >= 0 ==> 0 <= r
    {
      PlaceCard.Rating(PlaceCard.VoteCount(partners[currentIndex]))
    }

    /** The right-hand button, and equally one firing of the six-second interval (set up only for two or more partners). */
    method Next()
      requires Valid()
      modifies this
      ensures Valid() && partners == old(partners)
      ensures currentIndex == if Navigable(|partners|) then NextIndex(old(currentIndex), |partners|) else old(currentIndex)
    {
      if Navigable(|partners|) {
        currentIndex := NextIndex(currentIndex, |partners|);
      }
    }

    /** The left-hand button. */
    method Prev()
      requires Valid()
      modifies this
      ensures Valid() && partners == old(partners)
      ensures currentIndex == if Navigable(|partners|) then PrevIndex(old(currentIndex), |partners|) else old(currentIndex)
    {
      if Navigable(|partners|) {
        currentIndex := PrevIndex(currentIndex, |partners|);
      }
    }

    /**
      A new partner list from the parent, as the component has it: `useState(0)` is only
      read at the first render, so the old index stays whatever the new length is.
    */
    method ReceivePartnersAsWritten(ps: seq<Place>)
      modifies this
      ensures partners == ps && currentIndex == old(currentIndex)
    {
      partners := ps;
    }

    /** A new partner list from the parent, with the index reconciled so the current partner exists. */
    method SetPartners(ps: seq<Place>)
      requires Valid()
      modifies this
      ensures Valid()
      ensures partners == ps && currentIndex == ReconciledIndex(old(currentIndex), |ps|)
    {
      partners := ps;
      currentIndex := ReconciledIndex(currentIndex, |ps|);
    }
  }
}
