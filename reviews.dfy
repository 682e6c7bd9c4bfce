/** The review rules shared by the services page and the home page: the
    10-day expiry, the eager pruning of the stored array, the newest-first
    listing, the star string and the avatar initials. */
module Reviews {
  import opened Wrappers
  import opened JsText
  import opened Collections
  import opened Records
  import opened Storage

  /** Ten days in milliseconds (1000 * 60 * 60 * 24 * 10). */
  const TenDaysMs: int := 864_000_000

  /** `review.timestamp` is truthy: present and not 0. */
  predicate HasTimestamp(r: Review) {
    r.timestamp.Some? && r.timestamp.value != 0
  }

  /** `isReviewExpired(review)` at clock `now`: a review without a truthy
      timestamp never expires; otherwise it expires once it is more than ten
      days old. The source divides the age by one day and compares with 10;
      for integer milliseconds that is the same as comparing the age with
      ten days. */
  function IsReviewExpired(r: Review, now: int): (expired: bool)
    ensures !HasTimestamp(r) ==> !expired
    ensures HasTimestamp(r) ==> (expired <==> now - r.timestamp.value > TenDaysMs)
  {
    if !HasTimestamp(r) then false
    else now - r.timestamp.value > TenDaysMs
  }

  /** A review that has expired stays expired as the clock advances. */
  lemma ExpiryIsMonotone(r: Review, now: int, later: int)
    requires now <= later
    requires IsReviewExpired(r, now)
    ensures IsReviewExpired(r, later)
  {
  }

  /** The boundary: exactly ten days old is kept, one millisecond more is expired. */
  lemma ExpiryBoundary(r: Review)
    requires HasTimestamp(r)
    ensures !IsReviewExpired(r, r.timestamp.value + TenDaysMs)
    ensures IsReviewExpired(r, r.timestamp.value + TenDaysMs + 1)
  {
  }

  /** The filter callback `review => !isReviewExpired(review)`. */
  function IsActive(now: int): Review -> bool {
    r => !IsReviewExpired(r, now)
  }

  /** `reviews.filter(review => !isReviewExpired(review))`. */
  function ActiveReviews(s: seq<Review>, now: int): (r: seq<Review>)
    ensures |r| <= |s|
    ensures forall i :: 0 <= i < |r| ==> r[i] in s && !IsReviewExpired(r[i], now)
    ensures forall i :: 0 <= i < |s| && !IsReviewExpired(s[i], now) ==> s[i] in r
  {
    Filter(s, IsActive(now))
  }

  /** Pruning at a fixed clock is idempotent, and the second pass drops
      nothing (so it does not write). */
  lemma ActiveReviewsIdempotent(s: seq<Review>, now: int)
    ensures ActiveReviews(ActiveReviews(s, now), now) == ActiveReviews(s, now)
    ensures |ActiveReviews(ActiveReviews(s, now), now)| == |ActiveReviews(s, now)|
  {
    FilterIdempotent(s, IsActive(now));
  }

  /** Pruning drops something exactly when some review has expired. */
  lemma ActiveReviewsShorterIffExpired(s: seq<Review>, now: int)
    ensures |ActiveReviews(s, now)| < |s| <==> exists i :: 0 <= i < |s| && IsReviewExpired(s[i], now)
  {
    FilterKeepsAll(s, IsActive(now));
  }

  /** `cleanExpiredReviews()`: reads the reviews, keeps the unexpired ones in
      order, and writes them back only if that dropped something. */
  method CleanExpiredReviews(st: LocalStorage, now: int) returns (active: seq<Review>)
    modifies st`reviews, st`writes
    ensures active == ActiveReviews(old(st.Reviews()), now)
    ensures forall i :: 0 <= i < |st.Reviews()| ==> !IsReviewExpired(st.Reviews()[i], now)
    ensures |active| != |old(st.Reviews())| ==>
              st.reviews == Some(active) && st.writes == old(st.writes) + [ReviewsKey]
    ensures |active| == |old(st.Reviews())| ==>
              st.reviews == old(st.reviews) && st.writes == old(st.writes)
  {
    var reviews := st.Reviews();
    active := ActiveReviews(reviews, now);
    if |active| != |reviews| {
      st.SaveReviews(active);
    } else {
      FilterKeepsAll(reviews, IsActive(now));
    }
  }

  /** The sort key `review.timestamp || 0`. */
  function SortKey(r: Review): int {
    match r.timestamp
    case Some(t) => t
    case None => 0
  }

  /** Newest first: keys never increase along the sequence. */
  ghost predicate NewestFirst(s: seq<Review>) {
    forall i, j :: 0 <= i < j < |s| ==> SortKey(s[i]) >= SortKey(s[j])
  }

  /** A review no older than the head of a newest-first sequence can go in
      front of it. */
  lemma ConsNewestFirst(h: Review, t: seq<Review>)
    requires NewestFirst(t)
    requires t == [] || SortKey(h) >= SortKey(t[0])
    ensures NewestFirst([h] + t)
  {
    var s := [h] + t;
    forall i, j | 0 <= i < j < |s| ensures SortKey(s[i]) >= SortKey(s[j]) {
      if i > 0 {
        assert s[i] == t[i - 1] && s[j] == t[j - 1];
      } else {
        assert s[j] == t[j - 1];
      }
    }
  }

  /** Inserts `x` into a newest-first sequence before the first review whose
      key is not greater than its own. */
  function InsertNewestFirst(x: Review, s: seq<Review>): (r: seq<Review>)
    requires NewestFirst(s)
    ensures NewestFirst(r)
    ensures multiset(r) == multiset(s) + multiset{x}
    ensures |r| == |s| + 1
    ensures r[0] == x || (s != [] && r[0] == s[0])
  {
    if s == [] || SortKey(x) >= SortKey(s[0]) then
      ConsNewestFirst(x, s);
      [x] + s
    else
      var t := s[1..];
      assert s == [s[0]] + t;
      var rest := InsertNewestFirst(x, t);
      assert t != [] ==> SortKey(s[0]) >= SortKey(t[0]);
      ConsNewestFirst(s[0], rest);
      ConsMultiset(s[0], rest, t, x);
      [s[0]] + rest
  }

  /** Putting the same review in front of both sides keeps an insertion's
      multiset balance. */
  lemma ConsMultiset(h: Review, rest: seq<Review>, t: seq<Review>, x: Review)
    requires multiset(rest) == multiset(t) + multiset{x}
    ensures multiset([h] + rest) == multiset([h] + t) + multiset{x}
  {
    assert multiset([h] + rest) == multiset{h} + multiset(rest);
    assert multiset([h] + t) == multiset{h} + multiset(t);
  }

  /** `reviews.sort((a, b) => (b.timestamp || 0) - (a.timestamp || 0))`:
      the stable sort that `Array.prototype.sort` performs, newest first. */
  function SortNewestFirst(s: seq<Review>): (r: seq<Review>)
    ensures NewestFirst(r)
    ensures multiset(r) == multiset(s)
    ensures |r| == |s|
  {
    if s == [] then []
    else
      assert s == [s[0]] + s[1..];
      InsertNewestFirst(s[0], SortNewestFirst(s[1..]))
  }

  /** "The key is `k`". */
  function KeyIs(k: int): Review -> bool {
    r => SortKey(r) == k
  }

  /** Inserting keeps `x` ahead of every review with the same key. */
  lemma {:induction false} InsertStable(x: Review, s: seq<Review>, k: int)
    requires NewestFirst(s)
    ensures Filter(InsertNewestFirst(x, s), KeyIs(k)) == Filter([x] + s, KeyIs(k))
  {
    if s != [] && SortKey(x) < SortKey(s[0]) {
      var h, t := s[0], s[1..];
      assert s == [h] + t;
      assert InsertNewestFirst(x, s) == [h] + InsertNewestFirst(x, t);
      InsertStable(x, t, k);
      FilterConsCongruent(h, InsertNewestFirst(x, t), [x] + t, KeyIs(k));
      FilterSwap(h, x, t, KeyIs(k));
    }
  }

  /** The sort is stable: for every key, the reviews with that key appear in
      the sorted list in their original relative order. */
  lemma {:induction false} SortStable(s: seq<Review>, k: int)
    ensures Filter(SortNewestFirst(s), KeyIs(k)) == Filter(s, KeyIs(k))
  {
    if s != [] {
      var p, t := KeyIs(k), SortNewestFirst(s[1..]);
      assert Filter(SortNewestFirst(s), p) == Filter([s[0]] + t, p) by {
        InsertStable(s[0], t, k);
      }
      assert Filter([s[0]] + t, p) == Filter([s[0]] + s[1..], p) by {
        SortStable(s[1..], k);
        FilterConcat([s[0]], t, p);
        FilterConcat([s[0]], s[1..], p);
      }
      assert [s[0]] + s[1..] == s;
    }
  }

  /** A review at least as new as every other one, placed ahead of them,
      comes out of the sort first. */
  lemma SortKeepsNewestHeadFirst(x: Review, s: seq<Review>)
    requires forall i :: 0 <= i < |s| ==> SortKey(s[i]) <= SortKey(x)
    ensures SortNewestFirst([x] + s)[0] == x
  {
    var t := SortNewestFirst(s);
    assert ([x] + s)[1..] == s;
    if t != [] {
      assert t[0] in multiset(s);
    }
  }

  /** `sortedReviews.slice(0, limit)`: the newest `limit` active reviews. */
  function LatestReviews(active: seq<Review>, limit: nat): (r: seq<Review>)
    ensures |r| == if limit < |active| then limit else |active|
    ensures NewestFirst(r)
    ensures multiset(r) <= multiset(active)
  {
    var sorted := SortNewestFirst(active);
    PrefixMultiset(sorted, Take(sorted, limit));
    Take(sorted, limit)
  }

  /** A prefix holds no more of each review than the whole sequence. */
  lemma PrefixMultiset(s: seq<Review>, p: seq<Review>)
    requires p <= s
    ensures multiset(p) <= multiset(s)
  {
    assert s == p + s[|p|..];
    assert multiset(s) == multiset(p) + multiset(s[|p|..]);
  }

  /** Every review left out of the listing is no newer than every review shown. */
  lemma LatestAreNewest(active: seq<Review>, limit: nat, y: Review)
    requires y in multiset(active) - multiset(LatestReviews(active, limit))
    ensures forall i :: 0 <= i < |LatestReviews(active, limit)| ==>
              SortKey(LatestReviews(active, limit)[i]) >= SortKey(y)
  {
    var sorted := SortNewestFirst(active);
    var r := LatestReviews(active, limit);
    var rest := sorted[|r|..];
    assert y in rest by {
      assert sorted == r + rest;
      assert multiset(active) == multiset(r) + multiset(rest);
    }
    PrefixDominates(sorted, |r|, y);
  }

  /** In a newest-first sequence, every review past position `n` is no newer
      than any review before it. */
  lemma PrefixDominates(sorted: seq<Review>, n: nat, y: Review)
    requires NewestFirst(sorted)
    requires n <= |sorted| && y in sorted[n..]
    ensures forall i :: 0 <= i < n ==> SortKey(sorted[i]) >= SortKey(y)
  {
    var j :| 0 <= j < |sorted[n..]| && sorted[n..][j] == y;
    assert sorted[n + j] == y;
  }

  /** A review at least as new as every other one, placed ahead of them,
      heads every non-empty listing. */
  lemma LatestLedByNewest(x: Review, s: seq<Review>, limit: nat)
    requires 1 <= limit
    requires forall i :: 0 <= i < |s| ==> SortKey(s[i]) <= SortKey(x)
    ensures LatestReviews([x] + s, limit) != [] && LatestReviews([x] + s, limit)[0] == x
  {
    SortKeepsNewestHeadFirst(x, s);
  }

  /** `loadUserReviews()` up to its rendering: prune, sort, and keep the
      newest `limit`. */
  method LoadUserReviews(st: LocalStorage, now: int, limit: nat) returns (shown: seq<Review>)
    modifies st`reviews, st`writes
    ensures shown == LatestReviews(ActiveReviews(old(st.Reviews()), now), limit)
    ensures st.Reviews() == ActiveReviews(old(st.Reviews()), now)
    ensures |ActiveReviews(old(st.Reviews()), now)| == |old(st.Reviews())| ==>
              st.reviews == old(st.reviews) && st.writes == old(st.writes)
  {
    var active := CleanExpiredReviews(st, now);
    if |active| != |old(st.Reviews())| {
    } else {
      FilterKeepsAll(old(st.Reviews()), IsActive(now));
    }
    if |active| == 0 {
      shown := [];
      return;
    }
    shown := LatestReviews(active, limit);
  }

  /** A string of `n` copies of `c` (`c.repeat(n)`). */
  function Repeat(c: char, n: nat): (r: string)
    ensures |r| == n && forall i :: 0 <= i < n ==> r[i] == c
  {
    seq(n, _ => c)
  }

  /** `'★'.repeat(rating) + '☆'.repeat(5 - rating)`. `repeat` throws on a
      negative count, so the rating must lie in 0..5. The card's markup does
      not use this string; it draws the same split of filled and empty
      star icons. */
  function Stars(rating: int): (r: string)
    requires 0 <= rating <= 5
    ensures |r| == 5
    ensures forall i :: 0 <= i < rating ==> r[i] == '★'
    ensures forall i :: rating <= i < 5 ==> r[i] == '☆'
  {
    Repeat('★', rating) + Repeat('☆', 5 - rating)
  }

  predicate IsNonEmpty(w: string) {
    w != []
  }

  /** The space-separated words of a name that are not empty. */
  function NonEmptyWords(name: string): seq<string> {
    Filter(Split(name, ' '), (w: string) => IsNonEmpty(w))
  }

  /** `words.map(n => n[0]).join('')`: an empty word gives `undefined`,
      which `join` renders as nothing. */
  function FirstChars(words: seq<string>): string {
    if words == [] then []
    else (if words[0] == [] then [] else [words[0][0]]) + FirstChars(words[1..])
  }

  /** The first characters are those of the non-empty words, one each, in order. */
  lemma {:induction false} FirstCharsOfNonEmpty(words: seq<string>)
    ensures |FirstChars(words)| == |Filter(words, (w: string) => IsNonEmpty(w))|
    ensures forall i :: 0 <= i < |FirstChars(words)| ==>
              var ne := Filter(words, (w: string) => IsNonEmpty(w));
              ne[i] != [] && FirstChars(words)[i] == ne[i][0]
  {
    if words != [] {
      FirstCharsOfNonEmpty(words[1..]);
    }
  }

  /** `name.split(' ').map(n => n[0]).join('').toUpperCase().substring(0, 2)`:
      the upper-cased first letters of the first two non-empty words. */
  function Initials(name: string): (r: string)
    ensures |r| == if |NonEmptyWords(name)| < 2 then |NonEmptyWords(name)| else 2
    ensures forall i :: 0 <= i < |r| ==>
              NonEmptyWords(name)[i] != [] && r[i] == UpperChar(NonEmptyWords(name)[i][0])
  {
    FirstCharsOfNonEmpty(Split(name, ' '));
    Substring(ToUpper(FirstChars(Split(name, ' '))), 0, 2)
  }
}
