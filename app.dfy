/**
  The application's own state and handlers (`App.tsx`): favourites and their counts, the
  reviews kept per place name, the review dialog, the chat history with the places and
  route found in each reply, and the hidden five-click unlock of the admin panel.
*/
module App {
  import opened Wrappers
  import opened Text
  import opened Types
  import Parser
  import PlaceCard

  const AnonymousAuthor := "Viajante Anônimo"
  const Apology := "Desculpe, viajante. Tivemos um problema com a bússola mágica."
  /** Clicks on the title closer together than this many milliseconds form a streak. */
  const ClickWindow := 1000
  const ClicksToUnlock := 5

  // ---------------------------------------------------------------------------
  // Statistics kept per place name.
  // ---------------------------------------------------------------------------

  /** `favCounts[name] || 0`. */
  function CountOf(counts: map<string, int>, name: string): int {
    if name in counts then counts[name] else 0
  }

  /** `allReviews[name] || []`. */
  function ReviewsOf(reviews: map<string, seq<Review>>, name: string): seq<Review> {
    if name in reviews then reviews[name] else []
  }

  /** `enrichPlaceWithStats`: the place with the counts and reviews recorded under its name. */
  function Enrich(p: Place, counts: map<string, int>, reviews: map<string, seq<Review>>): (r: Place)
    ensures r.(favoriteCount := p.favoriteCount, reviews := p.reviews) == p
    ensures r.favoriteCount == Some(CountOf(counts, p.name))
    ensures r.reviews == Some(ReviewsOf(reviews, p.name))
  {
    p.(favoriteCount := Some(CountOf(counts, p.name)), reviews := Some(ReviewsOf(reviews, p.name)))
  }

  /** Enriching twice is enriching once, and two places of one name get the same statistics. */
  lemma EnrichByName(p: Place, q: Place, counts: map<string, int>, reviews: map<string, seq<Review>>)
    requires p.name == q.name
    ensures Enrich(Enrich(p, counts, reviews), counts, reviews) == Enrich(p, counts, reviews)
    ensures Enrich(p, counts, reviews).favoriteCount == Enrich(q, counts, reviews).favoriteCount
    ensures Enrich(p, counts, reviews).reviews == Enrich(q, counts, reviews).reviews
  {
  }

  /** `foundPlaces.map(enrichPlaceWithStats)`. */
  function EnrichAll(ps: seq<Place>, counts: map<string, int>, reviews: map<string, seq<Review>>): (r: seq<Place>)
    ensures |r| == |ps|
    ensures forall k :: 0 <= k < |ps| ==> r[k] == Enrich(ps[k], counts, reviews)
  {
    seq(|ps|, k requires 0 <= k < |ps| => Enrich(ps[k], counts, reviews))
  }

  // ---------------------------------------------------------------------------
  // Favourites.
  // ---------------------------------------------------------------------------

  /** `favorites.some(f => f.name === name)`: favourites are told apart by name, not by id. */
  predicate IsFavorite(favorites: seq<Place>, name: string) {
    exists k :: 0 <= k < |favorites| && favorites[k].name == name
  }

  /** `favorites.filter(f => f.name !== name)`. */
  function WithoutName(favorites: seq<Place>, name: string): (r: seq<Place>)
    ensures |r| <= |favorites|
    ensures forall k :: 0 <= k < |r| ==> r[k] in favorites && r[k].name != name
    ensures |r| == |favorites| <==> !IsFavorite(favorites, name)
  {
    if favorites == [] then []
    else (if favorites[0].name == name then [] else [favorites[0]]) + WithoutName(favorites[1..], name)
  }

  /**
    Removing a name keeps exactly the favourites of other names, leaves none of that name,
    and changes nothing when the name was not there.
  */
  lemma {:induction false} WithoutNameMembers(favorites: seq<Place>, name: string)
    ensures forall p :: p in WithoutName(favorites, name) <==> p in favorites && p.name != name
    ensures !IsFavorite(WithoutName(favorites, name), name)
    ensures !IsFavorite(favorites, name) ==> WithoutName(favorites, name) == favorites
  {
    if favorites != [] {
      WithoutNameMembers(favorites[1..], name);
      assert favorites == [favorites[0]] + favorites[1..];
      var r := WithoutName(favorites, name);
      forall k | 0 <= k < |r| ensures r[k].name != name {
        assert r[k] in r;
      }
      if !IsFavorite(favorites, name) {
        assert favorites[0].name != name;
        forall k | 0 <= k < |favorites[1..]| ensures favorites[1..][k].name != name {
          assert favorites[1..][k] == favorites[k + 1];
        }
      }
    }
  }

  /** A list whose names are pairwise different. */
  predicate UniqueNames(favorites: seq<Place>) {
    forall i, j :: 0 <= i < j < |favorites| ==> favorites[i].name != favorites[j].name
  }

  /** `Math.max(0, (prev[name] || 0) - 1)`. */
  function Decremented(counts: map<string, int>, name: string): (r: map<string, int>)
    ensures CountOf(r, name) == if CountOf(counts, name) > 0 then CountOf(counts, name) - 1 else 0
    ensures forall n :: n != name ==> CountOf(r, n) == CountOf(counts, n)
  {
    var c := CountOf(counts, name) - 1;
    counts[name := if c > 0 then c else 0]
  }

  /** `(prev[name] || 0) + 1`. */
  function Incremented(counts: map<string, int>, name: string): (r: map<string, int>)
    ensures CountOf(r, name) == CountOf(counts, name) + 1
    ensures forall n :: n != name ==> CountOf(r, n) == CountOf(counts, n)
  {
    counts[name := CountOf(counts, name) + 1]
  }

  /** No count is negative. */
  predicate CountsNatural(counts: map<string, int>) {
    forall n :: n in counts ==> counts[n] >= 0
  }

  /** The place a toggle prepends: enriched, with the count it is about to have. */
  function Added(place: Place, counts: map<string, int>, reviews: map<string, seq<Review>>): (r: Place)
    ensures r.name == place.name
    ensures r.favoriteCount == Some(CountOf(counts, place.name) + 1)
  {
    Enrich(place, counts, reviews).(favoriteCount := Some(CountOf(counts, place.name) + 1))
  }

  /** The favourites after `handleToggleFavorite(place)`. */
  function ToggledFavorites(favorites: seq<Place>, counts: map<string, int>, reviews: map<string, seq<Review>>, place: Place): seq<Place> {
    if IsFavorite(favorites, place.name) then WithoutName(favorites, place.name)
    else [Added(place, counts, reviews)] + favorites
  }

  /** The counts after `handleToggleFavorite(place)`. */
  function ToggledCounts(favorites: seq<Place>, counts: map<string, int>, place: Place): map<string, int> {
    if IsFavorite(favorites, place.name) then Decremented(counts, place.name)
    else Incremented(counts, place.name)
  }

  /** A toggle flips whether the name is a favourite, and moves its count by one, never below zero. */
  lemma ToggleFlips(favorites: seq<Place>, counts: map<string, int>, reviews: map<string, seq<Review>>, place: Place)
    ensures IsFavorite(ToggledFavorites(favorites, counts, reviews, place), place.name)
      <==> !IsFavorite(favorites, place.name)
    ensures CountsNatural(counts) ==> CountsNatural(ToggledCounts(favorites, counts, place))
    ensures !IsFavorite(favorites, place.name) ==>
      CountOf(ToggledCounts(favorites, counts, place), place.name) == CountOf(counts, place.name) + 1
  {
    if IsFavorite(favorites, place.name) {
      WithoutNameMembers(favorites, place.name);
    } else {
      assert ToggledFavorites(favorites, counts, reviews, place)[0].name == place.name;
    }
  }

  /** Toggling a new place twice gives back the favourites and the counts as they were read. */
  lemma ToggleTwice(favorites: seq<Place>, counts: map<string, int>, reviews: map<string, seq<Review>>, place: Place)
    requires !IsFavorite(favorites, place.name) && CountsNatural(counts)
    ensures var f1 := ToggledFavorites(favorites, counts, reviews, place);
      var c1 := ToggledCounts(favorites, counts, place);
      && ToggledFavorites(f1, c1, reviews, place) == favorites
      && forall n :: CountOf(ToggledCounts(f1, c1, place), n) == CountOf(counts, n)
  {
    var f1 := ToggledFavorites(favorites, counts, reviews, place);
    assert f1[0].name == place.name;
    assert IsFavorite(f1, place.name);
    assert f1[1..] == favorites;
    assert WithoutName(f1, place.name) == WithoutName(favorites, place.name);
    WithoutNameMembers(favorites, place.name);
    var c1 := ToggledCounts(favorites, counts, place);
    assert c1 == Incremented(counts, place.name);
    assert CountOf(counts, place.name) >= 0;
    assert ToggledCounts(f1, c1, place) == Decremented(c1, place.name);
  }

  /** Toggling keeps the names of the favourites pairwise different. */
  lemma {:induction false} ToggleKeepsNamesUnique(favorites: seq<Place>, counts: map<string, int>, reviews: map<string, seq<Review>>, place: Place)
    requires UniqueNames(favorites)
    ensures UniqueNames(ToggledFavorites(favorites, counts, reviews, place))
  {
    if IsFavorite(favorites, place.name) {
      WithoutNameUnique(favorites, place.name);
    } else {
      var r := ToggledFavorites(favorites, counts, reviews, place);
      forall i, j | 0 <= i < j < |r| ensures r[i].name != r[j].name {
        if i == 0 {
          assert r[j] == favorites[j - 1];
        } else {
          assert r[i] == favorites[i - 1] && r[j] == favorites[j - 1];
        }
      }
    }
  }

  /** In a list of distinct names, the head's name occurs nowhere in the tail. */
  lemma HeadNameFresh(favorites: seq<Place>)
    requires favorites != [] && UniqueNames(favorites)
    ensures forall p :: p in favorites[1..] ==> p.name != favorites[0].name
  {
    forall p | p in favorites[1..] ensures p.name != favorites[0].name {
      var m :| 0 <= m < |favorites[1..]| && favorites[1..][m] == p;
      assert favorites[m + 1] == p;
    }
  }

  lemma {:induction false} WithoutNameUnique(favorites: seq<Place>, name: string)
    requires UniqueNames(favorites)
    ensures UniqueNames(WithoutName(favorites, name))
  {
    if favorites != [] {
      TailUnique(favorites);
      WithoutNameUnique(favorites[1..], name);
      var rest := WithoutName(favorites[1..], name);
      if favorites[0].name != name {
        WithoutNameMembers(favorites[1..], name);
        HeadNameFresh(favorites);
        ConsUnique(favorites[0], rest);
        assert WithoutName(favorites, name) == [favorites[0]] + rest;
      } else {
        assert WithoutName(favorites, name) == [] + rest;
      }
    }
  }

  lemma TailUnique(favorites: seq<Place>)
    requires favorites != [] && UniqueNames(favorites)
    ensures UniqueNames(favorites[1..])
  {
    forall i, j | 0 <= i < j < |favorites[1..]| ensures favorites[1..][i].name != favorites[1..][j].name {
      assert favorites[1..][i] == favorites[i + 1] && favorites[1..][j] == favorites[j + 1];
    }
  }

  lemma ConsUnique(head: Place, rest: seq<Place>)
    requires UniqueNames(rest)
    requires forall p :: p in rest ==> p.name != head.name
    ensures UniqueNames([head] + rest)
  {
    var r := [head] + rest;
    forall i, j | 0 <= i < j < |r| ensures r[i].name != r[j].name {
      if i == 0 {
        assert r[j] == rest[j - 1];
        assert r[j] in rest;
      } else {
        assert r[i] == rest[i - 1] && r[j] == rest[j - 1];
      }
    }
  }

  // ---------------------------------------------------------------------------
  // Updating a place everywhere, and the carousel.
  // ---------------------------------------------------------------------------

  /** `list.map(p => p.id === updated.id ? updated : p)`. */
  function ReplaceById(ps: seq<Place>, updated: Place): (r: seq<Place>)
    ensures |r| == |ps|
    ensures forall k :: 0 <= k < |ps| ==> r[k] == if ps[k].id == updated.id then updated else ps[k]
  {
    seq(|ps|, k requires 0 <= k < |ps| => if ps[k].id == updated.id then updated else ps[k])
  }

  /** Applying the same update twice changes nothing more, and an unknown id changes nothing. */
  lemma ReplaceByIdStable(ps: seq<Place>, updated: Place)
    ensures ReplaceById(ReplaceById(ps, updated), updated) == ReplaceById(ps, updated)
    ensures (forall k :: 0 <= k < |ps| ==> ps[k].id != updated.id) ==> ReplaceById(ps, updated) == ps
  {
  }

  /** `!!p.imageUrl`. */
  predicate HasImage(p: Place) {
    p.imageUrl.Some? && p.imageUrl.value != ""
  }

  /** `favorites.filter(p => !!p.imageUrl)`. */
  function CarouselItems(favorites: seq<Place>): (r: seq<Place>)
    ensures |r| <= |favorites|
    ensures forall p :: p in r <==> p in favorites && HasImage(p)
  {
    if favorites == [] then []
    else (if HasImage(favorites[0]) then [favorites[0]] else []) + CarouselItems(favorites[1..])
  }

  /** The carousel keeps the favourites' order: it works piece by piece over a split list. */
  lemma {:induction false} CarouselItemsConcat(a: seq<Place>, b: seq<Place>)
    ensures CarouselItems(a + b) == CarouselItems(a) + CarouselItems(b)
  {
    if a != [] {
      assert (a + b)[1..] == a[1..] + b;
      CarouselItemsConcat(a[1..], b);
    } else {
      assert a + b == b;
    }
  }

  // ---------------------------------------------------------------------------
  // Reviews and the secret trigger.
  // ---------------------------------------------------------------------------

  /** `!s.trim()`: the text is empty once white space is trimmed. */
  function TrimsToEmpty(s: string): (b: bool)
    ensures b <==> IsBlank(s)
  {
    TrimSlice(s);
    Trim(s) == []
  }

  /** `user?.name || 'Viajante Anônimo'`. */
  function Author(userName: Option<string>): (a: string)
    ensures a != ""
    ensures userName.Some? && userName.value != "" ==> a == userName.value
    ensures !(userName.Some? && userName.value != "") ==> a == AnonymousAuthor
  {
    if userName.Some? && userName.value != "" then userName.value else AnonymousAuthor
  }

  /** `{ ...prev, [name]: [review, ...(prev[name] || [])] }`. */
  function WithReview(reviews: map<string, seq<Review>>, name: string, review: Review): (r: map<string, seq<Review>>)
    ensures ReviewsOf(r, name) == [review] + ReviewsOf(reviews, name)
    ensures forall n :: n != name ==> ReviewsOf(r, n) == ReviewsOf(reviews, n)
  {
    reviews[name := [review] + ReviewsOf(reviews, name)]
  }

  /** A saved review is the first one shown on every card of that name, and no other card changes. */
  lemma SavedReviewShown(p: Place, counts: map<string, int>, reviews: map<string, seq<Review>>, name: string, review: Review)
    ensures p.name == name ==>
      Enrich(p, counts, WithReview(reviews, name, review)).reviews == Some([review] + ReviewsOf(reviews, name))
    ensures p.name != name ==>
      Enrich(p, counts, WithReview(reviews, name, review)) == Enrich(p, counts, reviews)
  {
  }

  /**
    One click on the title: the new streak length and whether it unlocked the panel. A
    click within the window extends the streak, any other starts a new one; the fifth
    click of a streak unlocks and ends it.
  */
  function Click(count: int, last: int, now: int): (r: (int, bool))
    ensures r.1 <==> now - last < ClickWindow && count + 1 == ClicksToUnlock
    ensures r.1 ==> r.0 == 0
    ensures !r.1 ==> r.0 == if now - last < ClickWindow then count + 1 else 1
  {
    var c := if now - last < ClickWindow then count + 1 else 1;
    if c == ClicksToUnlock then (0, true) else (c, false)
  }

  /** The streak stays between 0 and 4. */
  lemma ClickBounded(count: int, last: int, now: int)
    requires 0 <= count < ClicksToUnlock
    ensures 0 <= Click(count, last, now).0 < ClicksToUnlock
  {
  }

  /** The outcome of a series of clicks at the given times: the final streak and whether any unlocked. */
  function Clicks(count: int, last: int, times: seq<int>): (int, bool)
    decreases |times|
  {
    if times == [] then (count, false)
    else
      var (c, unlocked) := Click(count, last, times[0]);
      var (c', later) := Clicks(c, times[0], times[1..]);
      (c', unlocked || later)
  }

  /** A fresh click followed by four quick ones unlocks the panel, whatever came before. */
  lemma FiveQuickClicks(count: int, last: int, times: seq<int>)
    requires |times| == ClicksToUnlock
    requires times[0] - last >= ClickWindow
    requires forall k :: 1 <= k < |times| ==> times[k] - times[k - 1] < ClickWindow
    ensures Clicks(count, last, times).1
  {
    assert times[1..][1..] == times[2..];
    assert times[2..][1..] == times[3..];
    assert times[3..][1..] == times[4..];
    assert Click(count, last, times[0]) == (1, false);
    assert Click(1, times[0], times[1]) == (2, false);
    assert Click(2, times[1], times[2]) == (3, false);
    assert Click(3, times[2], times[3]) == (4, false);
    assert Click(4, times[3], times[4]) == (0, true);
    assert Clicks(4, times[3], times[4..]).1;
    assert Clicks(3, times[2], times[3..]).1;
    assert Clicks(2, times[1], times[2..]).1;
    assert Clicks(1, times[0], times[1..]).1;
  }

  /** A slow click never unlocks: the panel needs four quick clicks just before the last one. */
  lemma SlowClickNeverUnlocks(count: int, last: int, now: int)
    requires now - last >= ClickWindow
    ensures Click(count, last, now) == (1, false)
  {
  }

  // ---------------------------------------------------------------------------
  // Chat replies.
  // ---------------------------------------------------------------------------

  /** `parsePlacesFromText(text).map(enrichPlaceWithStats)`, with `ids` standing for the random identities. */
  function FoundPlaces(text: string, ids: nat -> string, counts: map<string, int>, reviews: map<string, seq<Review>>): seq<Place> {
    var entries := Parser.Entries(text);
    EnrichAll(seq(|entries|, k requires 0 <= k < |entries| => Parser.ToPlace(ids(k), entries[k])), counts, reviews)
  }

  /**
    Every place of a reply is one `Nome:` block of the text, in order, carrying the
    favourite count and the reviews kept under its name; a text without `Nome:` finds none.
  */
  lemma FoundPlacesShape(text: string, ids: nat -> string, counts: map<string, int>, reviews: map<string, seq<Review>>)
    ensures var found := FoundPlaces(text, ids, counts, reviews);
      && |found| == |Parser.Entries(text)|
      && (forall k :: 0 <= k < |found| ==>
            && found[k].name == Parser.Entries(text)[k].name
            && found[k].id == ids(k)
            && found[k].favoriteCount == Some(CountOf(counts, found[k].name))
            && found[k].reviews == Some(ReviewsOf(reviews, found[k].name)))
      && (!Contains(text, Parser.NameLabel) ==> found == [])
  {
    var entries := Parser.Entries(text);
    var found := FoundPlaces(text, ids, counts, reviews);
    forall k | 0 <= k < |found| ensures found[k].name == entries[k].name && found[k].id == ids(k) {
      var p := Parser.ToPlace(ids(k), entries[k]);
      assert found[k] == Enrich(p, counts, reviews);
      assert found[k].name == p.name && found[k].id == p.id;
    }
    if !Contains(text, Parser.NameLabel) {
      Parser.NoNameNoPlaces(text);
    }
  }

  /** What the parsing loop returns, enriched, is `FoundPlaces`. */
  lemma FoundPlacesParsed(text: string, ids: nat -> string, counts: map<string, int>, reviews: map<string, seq<Review>>, parsed: seq<Place>)
    requires |parsed| == |Parser.Entries(text)|
    requires forall k :: 0 <= k < |parsed| ==> parsed[k] == Parser.ToPlace(ids(k), Parser.Entries(text)[k])
    ensures EnrichAll(parsed, counts, reviews) == FoundPlaces(text, ids, counts, reviews)
  {
  }

  /** The model's message for a reply: its places only when some were found. */
  function Reply(id: string, text: string, found: seq<Place>, route: Option<Route>): (m: Message)
    ensures m.role == Model && m.text == text && m.route == route
    ensures m.places.None? <==> found == []
    ensures m.places.Some? ==> m.places.value == found
  {
    Message(id, Model, text, if |found| > 0 then Some(found) else None, route)
  }

  // ---------------------------------------------------------------------------
  // The application state.
  // ---------------------------------------------------------------------------

  /** The state `App` keeps, in `useState` fields and in the two `useRef` counters. */
  class AppState {
    var favorites: seq<Place>
    var favCounts: map<string, int>
    var allReviews: map<string, seq<Review>>
    var showReviewModal: bool
    var reviewTarget: Option<Place>
    var reviewText: string
    var messages: seq<Message>
    var currentPlaces: seq<Place>
    var activeRoute: Option<Route>
    var input: string
    var loading: bool
    /** `user?.name`, the signed-in traveller's name. */
    var userName: Option<string>
    var titleClickCount: int
    var lastTitleClickTime: int
    var isAdminAccessEnabled: bool
    var isAdminOpen: bool

    /**
      The invariants the handlers keep: the click streak is below five and no favourite
      count is negative.
    */
    predicate Valid()
      reads this
    {
      && 0 <= titleClickCount < ClicksToUnlock
      && CountsNatural(favCounts)
    }

    /** The state after loading `favorites`, `favCounts` and `allReviews` from storage. */
    constructor(favorites: seq<Place>, favCounts: map<string, int>, allReviews: map<string, seq<Review>>, userName: Option<string>)
      requires CountsNatural(favCounts)
      ensures Valid()
      ensures this.favorites == favorites && this.favCounts == favCounts && this.allReviews == allReviews
      ensures this.userName == userName
      ensures messages == [] && currentPlaces == [] && activeRoute == None && input == "" && !loading
      ensures !showReviewModal && reviewTarget == None && reviewText == ""
      ensures titleClickCount == 0 && lastTitleClickTime == 0 && !isAdminAccessEnabled && !isAdminOpen
    {
      this.favorites := favorites;
      this.favCounts := favCounts;
      this.allReviews := allReviews;
      showReviewModal := false;
      reviewTarget := None;
      reviewText := "";
      messages := [];
      currentPlaces := [];
      activeRoute := None;
      input := "";
      loading := false;
      this.userName := userName;
      titleClickCount := 0;
      lastTitleClickTime := 0;
      isAdminAccessEnabled := false;
      isAdminOpen := false;
    }

    /** The places of the carousel, from the current favourites. */
    function Carousel(): (r: seq<Place>)
      reads this
      ensures forall p :: p in r ==> p in favorites && HasImage(p)
    {
      CarouselItems(favorites)
    }

    /**
      `handleSecretTrigger` at time `now` (the value of `Date.now()`): the fifth click of a
      quick streak enables and opens the admin panel.
    */
    method SecretTrigger(now: int)
      requires Valid()
      modifies this
      ensures Valid()
      ensures titleClickCount == Click(old(titleClickCount), old(lastTitleClickTime), now).0
      ensures lastTitleClickTime == now
      ensures isAdminAccessEnabled == (old(isAdminAccessEnabled) || Click(old(titleClickCount), old(lastTitleClickTime), now).1)
      ensures isAdminOpen == (old(isAdminOpen) || Click(old(titleClickCount), old(lastTitleClickTime), now).1)
      ensures favorites == old(favorites) && favCounts == old(favCounts) && allReviews == old(allReviews)
      ensures messages == old(messages) && currentPlaces == old(currentPlaces) && activeRoute == old(activeRoute)
      ensures reviewTarget == old(reviewTarget) && reviewText == old(reviewText) && showReviewModal == old(showReviewModal)
      ensures input == old(input) && loading == old(loading) && userName == old(userName)
    {
      if now - lastTitleClickTime < ClickWindow {
        titleClickCount := titleClickCount + 1;
      } else {
        titleClickCount := 1;
      }
      lastTitleClickTime := now;
      if titleClickCount == ClicksToUnlock {
        isAdminAccessEnabled := true;
        isAdminOpen := true;
        titleClickCount := 0;
      }
    }
    /** `handleToggleFavorite(place)`; adding a favourite also opens the review dialog for it. */
    method ToggleFavorite(place: Place)
      requires Valid()
      modifies this
      ensures Valid()
      ensures favorites == ToggledFavorites(old(favorites), old(favCounts), old(allReviews), place)
      ensures favCounts == ToggledCounts(old(favorites), old(favCounts), place)
      ensures IsFavorite(favorites, place.name) <==> !IsFavorite(old(favorites), place.name)
      ensures old(UniqueNames(favorites)) ==> UniqueNames(favorites)
      ensures reviewTarget == if IsFavorite(old(favorites), place.name) then old(reviewTarget) else Some(place)
      ensures showReviewModal == (old(showReviewModal) || !IsFavorite(old(favorites), place.name))
      ensures allReviews == old(allReviews) && reviewText == old(reviewText)
      ensures messages == old(messages) && currentPlaces == old(currentPlaces) && activeRoute == old(activeRoute)
      ensures input == old(input) && loading == old(loading) && userName == old(userName)
      ensures titleClickCount == old(titleClickCount) && lastTitleClickTime == old(lastTitleClickTime)
      ensures isAdminAccessEnabled == old(isAdminAccessEnabled) && isAdminOpen == old(isAdminOpen)
    {
      ToggleFlips(favorites, favCounts, allReviews, place);
      if UniqueNames(favorites) {
        ToggleKeepsNamesUnique(favorites, favCounts, allReviews, place);
      }
      var isFav := IsFavorite(favorites, place.name);
      SetFavorites(ToggledFavorites(favorites, favCounts, allReviews, place), ToggledCounts(favorites, favCounts, place));
      if !isFav {
        OpenReview(place);
      }
    }

    /** `setFavorites` and `setFavCounts`. */
    method SetFavorites(fs: seq<Place>, counts: map<string, int>)
      requires Valid() && CountsNatural(counts)
      modifies this
      ensures Valid()
      ensures favorites == fs && favCounts == counts && allReviews == old(allReviews)
      ensures reviewTarget == old(reviewTarget) && reviewText == old(reviewText) && showReviewModal == old(showReviewModal)
      ensures messages == old(messages) && currentPlaces == old(currentPlaces) && activeRoute == old(activeRoute)
      ensures input == old(input) && loading == old(loading) && userName == old(userName)
      ensures titleClickCount == old(titleClickCount) && lastTitleClickTime == old(lastTitleClickTime)
      ensures isAdminAccessEnabled == old(isAdminAccessEnabled) && isAdminOpen == old(isAdminOpen)
    {
      favorites := fs;
      favCounts := counts;
    }

    /** Opens the review dialog for `place`. */
    method OpenReview(place: Place)
      requires Valid()
      modifies this
      ensures Valid()
      ensures reviewTarget == Some(place) && showReviewModal && reviewText == old(reviewText)
      ensures favorites == old(favorites) && favCounts == old(favCounts) && allReviews == old(allReviews)
      ensures messages == old(messages) && currentPlaces == old(currentPlaces) && activeRoute == old(activeRoute)
      ensures input == old(input) && loading == old(loading) && userName == old(userName)
      ensures titleClickCount == old(titleClickCount) && lastTitleClickTime == old(lastTitleClickTime)
      ensures isAdminAccessEnabled == old(isAdminAccessEnabled) && isAdminOpen == old(isAdminOpen)
    {
      reviewTarget := Some(place);
      showReviewModal := true;
    }

    /** `handleUpdatePlace(updated)`: the place with the same id is replaced in the favourites and in the map's places. */
    method UpdatePlace(updated: Place)
      requires Valid()
      modifies this
      ensures Valid()
      ensures favorites == ReplaceById(old(favorites), updated)
      ensures currentPlaces == ReplaceById(old(currentPlaces), updated)
      ensures favCounts == old(favCounts) && allReviews == old(allReviews)
      ensures reviewTarget == old(reviewTarget) && reviewText == old(reviewText) && showReviewModal == old(showReviewModal)
      ensures messages == old(messages) && activeRoute == old(activeRoute)
      ensures input == old(input) && loading == old(loading) && userName == old(userName)
      ensures titleClickCount == old(titleClickCount) && lastTitleClickTime == old(lastTitleClickTime)
      ensures isAdminAccessEnabled == old(isAdminAccessEnabled) && isAdminOpen == old(isAdminOpen)
    {
      favorites := ReplaceById(favorites, updated);
      currentPlaces := ReplaceById(currentPlaces, updated);
    }

    /** Typing in the review dialog. */
    method EditReviewText(text: string)
      modifies this
      ensures reviewText == text
      ensures favorites == old(favorites) && favCounts == old(favCounts) && allReviews == old(allReviews)
      ensures reviewTarget == old(reviewTarget) && showReviewModal == old(showReviewModal)
      ensures messages == old(messages) && currentPlaces == old(currentPlaces) && activeRoute == old(activeRoute)
      ensures input == old(input) && loading == old(loading) && userName == old(userName)
      ensures titleClickCount == old(titleClickCount) && lastTitleClickTime == old(lastTitleClickTime)
      ensures isAdminAccessEnabled == old(isAdminAccessEnabled) && isAdminOpen == old(isAdminOpen)
    {
      reviewText := text;
    }

    /**
      `handleSaveReview`, with `reviewId` and `date` standing for the random identity and
      today's date: without a target or with a blank text the dialog only closes; otherwise
      the review goes first in the list kept under the target's name and the dialog is reset.
    */
    method SaveReview(reviewId: string, date: string)
      requires Valid()
      modifies this
      ensures Valid()
      ensures !showReviewModal
      ensures old(reviewTarget).None? || IsBlank(old(reviewText)) ==>
        allReviews == old(allReviews) && reviewTarget == old(reviewTarget) && reviewText == old(reviewText)
      ensures old(reviewTarget).Some? && !IsBlank(old(reviewText)) ==>
        && allReviews == WithReview(old(allReviews), old(reviewTarget).value.name,
                                    Review(reviewId, Author(userName), old(reviewText), date))
        && reviewTarget == None && reviewText == ""
      ensures favorites == old(favorites) && favCounts == old(favCounts)
      ensures messages == old(messages) && currentPlaces == old(currentPlaces) && activeRoute == old(activeRoute)
      ensures input == old(input) && loading == old(loading) && userName == old(userName)
      ensures titleClickCount == old(titleClickCount) && lastTitleClickTime == old(lastTitleClickTime)
      ensures isAdminAccessEnabled == old(isAdminAccessEnabled) && isAdminOpen == old(isAdminOpen)
    {
      if reviewTarget.None? || TrimsToEmpty(reviewText) {
        showReviewModal := false;
      } else {
        StoreReview(reviewTarget.value.name, Review(reviewId, Author(userName), reviewText, date));
        SkipReview();
      }
    }

    /** `setAllReviews` with `review` put first under `name`. */
    method StoreReview(name: string, review: Review)
      requires Valid()
      modifies this
      ensures Valid()
      ensures allReviews == WithReview(old(allReviews), name, review)
      ensures favorites == old(favorites) && favCounts == old(favCounts)
      ensures reviewTarget == old(reviewTarget) && reviewText == old(reviewText) && showReviewModal == old(showReviewModal)
      ensures messages == old(messages) && currentPlaces == old(currentPlaces) && activeRoute == old(activeRoute)
      ensures input == old(input) && loading == old(loading) && userName == old(userName)
      ensures titleClickCount == old(titleClickCount) && lastTitleClickTime == old(lastTitleClickTime)
      ensures isAdminAccessEnabled == old(isAdminAccessEnabled) && isAdminOpen == old(isAdminOpen)
    {
      allReviews := WithReview(allReviews, name, review);
    }

    /** The dialog's `Pular` button: closed and cleared without saving. */
    method SkipReview()
      requires Valid()
      modifies this
      ensures Valid()
      ensures !showReviewModal && reviewTarget == None && reviewText == ""
      ensures favorites == old(favorites) && favCounts == old(favCounts) && allReviews == old(allReviews)
      ensures messages == old(messages) && currentPlaces == old(currentPlaces) && activeRoute == old(activeRoute)
      ensures input == old(input) && loading == old(loading) && userName == old(userName)
      ensures titleClickCount == old(titleClickCount) && lastTitleClickTime == old(lastTitleClickTime)
      ensures isAdminAccessEnabled == old(isAdminAccessEnabled) && isAdminOpen == old(isAdminOpen)
    {
      showReviewModal := false;
      reviewTarget := None;
      reviewText := "";
    }

    /** Typing in the chat box. */
    method EditInput(text: string)
      modifies this
      ensures input == text
      ensures favorites == old(favorites) && favCounts == old(favCounts) && allReviews == old(allReviews)
      ensures reviewTarget == old(reviewTarget) && reviewText == old(reviewText) && showReviewModal == old(showReviewModal)
      ensures messages == old(messages) && currentPlaces == old(currentPlaces) && activeRoute == old(activeRoute)
      ensures loading == old(loading) && userName == old(userName)
      ensures titleClickCount == old(titleClickCount) && lastTitleClickTime == old(lastTitleClickTime)
      ensures isAdminAccessEnabled == old(isAdminAccessEnabled) && isAdminOpen == old(isAdminOpen)
    {
      input := text;
    }

    /**
      The synchronous start of `handleSend(custom)`, with `messageId` standing for
      `Date.now().toString()`: the text sent is `custom` when it is a non-empty string and
      the chat box otherwise; a blank text, or a reply still pending, sends nothing. A sent
      text is appended as the traveller's message, the chat box is cleared unless the text
      came from `custom`, and the state waits for a reply. `sent` is the text handed to the
      model, if any.
    */
    method BeginSend(custom: Option<string>, messageId: string) returns (sent: Option<string>)
      requires Valid()
      modifies this
      ensures Valid()
      ensures var text := if PlaceCard.Truthy(custom) then custom.value else old(input);
        && (sent.None? <==> IsBlank(text) || old(loading))
        && (sent.None? ==> messages == old(messages) && input == old(input) && loading == old(loading))
        && (sent.Some? ==>
              && sent.value == text
              && messages == old(messages) + [Message(messageId, User, text, None, None)]
              && input == (if PlaceCard.Truthy(custom) then old(input) else "")
              && loading)
      ensures favorites == old(favorites) && favCounts == old(favCounts) && allReviews == old(allReviews)
      ensures reviewTarget == old(reviewTarget) && reviewText == old(reviewText) && showReviewModal == old(showReviewModal)
      ensures currentPlaces == old(currentPlaces) && activeRoute == old(activeRoute) && userName == old(userName)
      ensures titleClickCount == old(titleClickCount) && lastTitleClickTime == old(lastTitleClickTime)
      ensures isAdminAccessEnabled == old(isAdminAccessEnabled) && isAdminOpen == old(isAdminOpen)
    {
      var text := if PlaceCard.Truthy(custom) then custom.value else input;
      if TrimsToEmpty(text) || loading {
        sent := None;
      } else {
        PushMessage(Message(messageId, User, text, None, None), !PlaceCard.Truthy(custom));
        sent := Some(text);
      }
    }

    /** Appends the traveller's `message`, clears the chat box when `clear` holds, and waits for a reply. */
    method PushMessage(message: Message, clear: bool)
      requires Valid()
      modifies this
      ensures Valid()
      ensures messages == old(messages) + [message]
      ensures input == (if clear then "" else old(input)) && loading
      ensures favorites == old(favorites) && favCounts == old(favCounts) && allReviews == old(allReviews)
      ensures reviewTarget == old(reviewTarget) && reviewText == old(reviewText) && showReviewModal == old(showReviewModal)
      ensures currentPlaces == old(currentPlaces) && activeRoute == old(activeRoute) && userName == old(userName)
      ensures titleClickCount == old(titleClickCount) && lastTitleClickTime == old(lastTitleClickTime)
      ensures isAdminAccessEnabled == old(isAdminAccessEnabled) && isAdminOpen == old(isAdminOpen)
    {
      messages := messages + [message];
      if clear {
        input := "";
      }
      loading := true;
    }

    /**
      The rest of `handleSend` once the model answered `responseText`: the places and the
      route read from the answer are attached to the model's message, the map shows the
      places when there are any and the route when there is one, and the wait is over.
      `ids` stands for the random identities and `replyId` for the message identity.
    */
    method CompleteSend(responseText: string, ids: nat -> string, replyId: string)
      requires Valid()
      modifies this
      ensures Valid()
      ensures var found := FoundPlaces(responseText, ids, old(favCounts), old(allReviews));
        var route := Parser.RouteOf(responseText);
        && messages == old(messages) + [Reply(replyId, responseText, found, route)]
        && currentPlaces == (if found != [] then found else old(currentPlaces))
        && activeRoute == (if route.Some? then route else old(activeRoute))
      ensures !loading
      ensures favorites == old(favorites) && favCounts == old(favCounts) && allReviews == old(allReviews)
      ensures reviewTarget == old(reviewTarget) && reviewText == old(reviewText) && showReviewModal == old(showReviewModal)
      ensures input == old(input) && userName == old(userName)
      ensures titleClickCount == old(titleClickCount) && lastTitleClickTime == old(lastTitleClickTime)
      ensures isAdminAccessEnabled == old(isAdminAccessEnabled) && isAdminOpen == old(isAdminOpen)
    {
      var parsed := Parser.ParsePlacesFromText(responseText, ids);
      var found := EnrichAll(parsed, favCounts, allReviews);
      var route := Parser.ParseRouteFromText(responseText);
      FoundPlacesParsed(responseText, ids, favCounts, allReviews, parsed);
      ShowReply(Reply(replyId, responseText, found, route), found, route);
    }

    /** Appends the model's `reply`, shows `found` and `route` on the map when there are any, and ends the wait. */
    method ShowReply(reply: Message, found: seq<Place>, route: Option<Route>)
      requires Valid()
      modifies this
      ensures Valid()
      ensures messages == old(messages) + [reply]
      ensures currentPlaces == (if found != [] then found else old(currentPlaces))
      ensures activeRoute == (if route.Some? then route else old(activeRoute))
      ensures !loading
      ensures favorites == old(favorites) && favCounts == old(favCounts) && allReviews == old(allReviews)
      ensures reviewTarget == old(reviewTarget) && reviewText == old(reviewText) && showReviewModal == old(showReviewModal)
      ensures input == old(input) && userName == old(userName)
      ensures titleClickCount == old(titleClickCount) && lastTitleClickTime == old(lastTitleClickTime)
      ensures isAdminAccessEnabled == old(isAdminAccessEnabled) && isAdminOpen == old(isAdminOpen)
    {
      messages := messages + [reply];
      if route.Some? {
        activeRoute := route;
      }
      if |found| > 0 {
        currentPlaces := found;
      }
      loading := false;
    }

    /** The `catch` and `finally` of `handleSend`: the apology is appended and the wait is over. */
    method FailSend(errorId: string)
      requires Valid()
      modifies this
      ensures Valid()
      ensures messages == old(messages) + [Message(errorId, Model, Apology, None, None)]
      ensures !loading
      ensures favorites == old(favorites) && favCounts == old(favCounts) && allReviews == old(allReviews)
      ensures reviewTarget == old(reviewTarget) && reviewText == old(reviewText) && showReviewModal == old(showReviewModal)
      ensures currentPlaces == old(currentPlaces) && activeRoute == old(activeRoute)
      ensures input == old(input) && userName == old(userName)
      ensures titleClickCount == old(titleClickCount) && lastTitleClickTime == old(lastTitleClickTime)
      ensures isAdminAccessEnabled == old(isAdminAccessEnabled) && isAdminOpen == old(isAdminOpen)
    {
      messages := messages + [Message(errorId, Model, Apology, None, None)];
      loading := false;
    }
  }
}
