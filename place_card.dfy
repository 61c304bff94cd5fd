/**
  What a place card computes from its place (`components/PlaceCard.tsx`): the star ranking
  earned by favourites, the five stars, the vote label, and the WhatsApp and Instagram
  links its buttons open.
*/
module PlaceCard {
  import opened Wrappers
  import opened Text
  import opened Types

  const MaxStars := 5
  const WhatsAppPrefix := "https://wa.me/"
  const InstagramPrefix := "https://instagram.com/"

  /** The count a card shows: `place.favoriteCount || 0`. */
  function VoteCount(p: Place): int {
    p.favoriteCount.GetOr(0)
  }

  /**
    `Math.min(5, Math.floor(count / 2))`: one star for every two favourites, at most five.
    (Dafny's `/` by a positive divisor rounds down, as `Math.floor` does.)
  */
  function Rating(count: int): (r: int)
    ensures r <= MaxStars
    ensures r == MaxStars || 2 * r <= count < 2 * r + 2
    ensures r == MaxStars <==> count >= 2 * MaxStars
    ensures 0 <= r <==> 0 <= count
  {
    if count / 2 < MaxStars then count / 2 else MaxStars
  }

  /** More favourites never lower the ranking. */
  lemma RatingMonotonic(a: int, b: int)
    requires a <= b
    ensures Rating(a) <= Rating(b)
  {
  }

  /** The five stars, left to right: star `i` is filled when `i < rating`. */
  function Stars(rating: int): (stars: seq<bool>)
    ensures |stars| == MaxStars
    ensures forall i :: 0 <= i < MaxStars ==> (stars[i] <==> i < rating)
  {
    seq(MaxStars, i requires 0 <= i < MaxStars => i < rating)
  }

  /** The number of `true`s in `bs`. */
  function CountTrue(bs: seq<bool>): (n: nat)
    ensures n <= |bs|
  {
    if bs == [] then 0 else (if bs[0] then 1 else 0) + CountTrue(bs[1..])
  }

  /** `true`s exactly on a prefix of length `k` count `k`. */
  lemma {:induction false} CountPrefix(bs: seq<bool>, k: nat)
    requires k <= |bs|
    requires forall i :: 0 <= i < |bs| ==> (bs[i] <==> i < k)
    ensures CountTrue(bs) == k
  {
    if bs != [] {
      var k' := if k > 0 then k - 1 else 0;
      assert forall i :: 0 <= i < |bs[1..]| ==> (bs[1..][i] <==> i < k') by {
        forall i | 0 <= i < |bs[1..]| ensures bs[1..][i] <==> i < k' {
          assert bs[1..][i] == bs[i + 1];
        }
      }
      CountPrefix(bs[1..], k');
    }
  }

  /** A card shows exactly as many filled stars as its ranking, for every vote count. */
  lemma FilledStars(count: int)
    requires 0 <= count
    ensures CountTrue(Stars(Rating(count))) == Rating(count)
  {
    CountPrefix(Stars(Rating(count)), Rating(count));
  }

  /** `count === 1 ? 'voto' : 'votos'`. */
  function VoteWord(count: int): (w: string)
    ensures w == "voto" || w == "votos"
    ensures w == "voto" <==> count == 1
  {
    if count == 1 then "voto" else "votos"
  }

  /** A JavaScript value of type string is truthy when it is present and not empty. */
  predicate Truthy(v: Option<string>) {
    v.Some? && v.value != ""
  }

  /**
    `handleWhatsApp`: nothing without a number, otherwise `https://wa.me/` and the number's
    digits. The button itself is only shown when the value is truthy.
  */
  function WhatsAppUrl(whatsapp: Option<string>): (url: Option<string>)
    ensures url.Some? <==> Truthy(whatsapp)
    ensures url.Some? ==> StartsWith(url.value, WhatsAppPrefix)
    ensures url.Some? ==> forall i :: |WhatsAppPrefix| <= i < |url.value| ==> IsDigit(url.value[i])
  {
    if Truthy(whatsapp) then Some(WhatsAppPrefix + Digits(whatsapp.value)) else None
  }

  /** The typed form of a number does not matter: only its digits reach the link. */
  lemma WhatsAppDigitsOnly(a: string, b: string)
    requires a != [] && b != []
    requires Digits(a) == Digits(b)
    ensures WhatsAppUrl(Some(a)) == WhatsAppUrl(Some(b))
  {
  }

  /** Formatting characters around the digits do not change the link. */
  lemma WhatsAppIgnoresFormatting(pre: string, digits: string, post: string)
    requires forall i :: 0 <= i < |pre| ==> !IsDigit(pre[i])
    requires forall i :: 0 <= i < |post| ==> !IsDigit(post[i])
    requires forall i :: 0 <= i < |digits| ==> IsDigit(digits[i])
    requires digits != []
    ensures WhatsAppUrl(Some(pre + digits + post)) == Some(WhatsAppPrefix + digits)
  {
    DigitsAround(pre, digits, post);
  }

  lemma DigitsAround(pre: string, digits: string, post: string)
    requires forall i :: 0 <= i < |pre| ==> !IsDigit(pre[i])
    requires forall i :: 0 <= i < |post| ==> !IsDigit(post[i])
    requires forall i :: 0 <= i < |digits| ==> IsDigit(digits[i])
    ensures Digits(pre + digits + post) == digits
  {
    DigitsConcat(pre, digits);
    DigitsConcat(pre + digits, post);
    NoDigits(pre);
    NoDigits(post);
    DigitsOfDigits(digits);
  }

  lemma {:induction false} NoDigits(s: string)
    requires forall i :: 0 <= i < |s| ==> !IsDigit(s[i])
    ensures Digits(s) == []
  {
    if s != [] {
      NoDigits(s[1..]);
    }
  }

  /**
    `handleInstagram`: nothing without a value; a value starting with `http` is opened as it
    is, anything else becomes `https://instagram.com/` and the value with its first `@` deleted.
  */
  function InstagramUrl(instagram: Option<string>): (url: Option<string>)
    ensures url.Some? <==> Truthy(instagram)
    ensures url.Some? ==> StartsWith(url.value, "http")
    ensures url.Some? && StartsWith(instagram.value, "http") ==> url == instagram
  {
    if !Truthy(instagram) then None
    else if StartsWith(instagram.value, "http") then instagram
    else
      var url := InstagramPrefix + RemoveFirst(instagram.value, '@');
      assert url[..4] == InstagramPrefix[..4];
      Some(url)
  }

  /** A handle written `@name` is opened as `https://instagram.com/name`. */
  lemma InstagramHandle(name: string)
    ensures InstagramUrl(Some("@" + name)) == Some(InstagramPrefix + name)
  {
    var v := "@" + name;
    assert !StartsWith(v, "http") by { assert v[0] == '@'; }
    assert IndexOfChar(v, '@') == 0;
    assert RemoveFirst(v, '@') == v[..0] + v[1..] == name;
  }

  /**
    A value that does not start with `http` loses only its first `@`: a plain handle is
    appended as it is, and in `pre@post` the later `@`s of `post` are kept.
  */
  lemma {:induction false} InstagramPlain(pre: string, post: string)
    requires NoChar(pre, '@')
    ensures pre != "" && !StartsWith(pre, "http") ==> InstagramUrl(Some(pre)) == Some(InstagramPrefix + pre)
    ensures !StartsWith(pre + "@" + post, "http") ==>
      InstagramUrl(Some(pre + "@" + post)) == Some(InstagramPrefix + pre + post)
  {
    IndexOfCharAfter(pre, '@', post);
    var v := pre + "@" + post;
    assert v[..|pre|] == pre && v[|pre| + 1..] == post;
    assert RemoveFirst(v, '@') == pre + post;
    assert InstagramPrefix + (pre + post) == InstagramPrefix + pre + post;
  }

  /** Following a link the card built gives the same link again. */
  lemma InstagramStable(instagram: Option<string>)
    ensures InstagramUrl(InstagramUrl(instagram)) == InstagramUrl(instagram)
  {
  }
}
