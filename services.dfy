/** The services page: the review form and the list of the newest six
    active reviews. Expiry, pruning, sorting and the card texts are shared
    with the home page and live in `Reviews`. */
module Services {
  import opened Wrappers
  import opened Collections
  import opened Records
  import opened Storage
  import opened Reviews

  /** The services page shows at most six reviews. */
  const ServicesLimit: nat := 6

  /** The review form's fields as `FormData.get` returns them; `rating` is
      the result of `parseInt`. */
  datatype ReviewForm = ReviewForm(name: string, role: string, rating: int, project: string, message: string)

  /** The record the review form builds: an empty role reads `Client`, an
      empty project `General Project`, and the creation time is kept as the
      timestamp. */
  function NewReview(form: ReviewForm, id: string, date: string, now: int): (r: Review)
    ensures r.id == id && r.name == form.name && r.rating == form.rating
    ensures r.message == form.message && r.date == date
    ensures form.role != [] ==> r.role == form.role
    ensures form.role == [] ==> r.role == "Client"
    ensures form.project != [] ==> r.project == form.project
    ensures form.project == [] ==> r.project == "General Project"
    ensures r.timestamp == Some(now)
    ensures SortKey(r) == now
    ensures !IsReviewExpired(r, now)
  {
    Review(
      id, form.name,
      if form.role == [] then "Client" else form.role,
      form.rating,
      if form.project == [] then "General Project" else form.project,
      form.message, date, Some(now))
  }

  /** A review made at `now` stays listed for exactly ten days: it has
      expired at `later` iff more than ten days have passed, unless the
      clock read 0, in which case it never expires. */
  lemma NewReviewLifetime(form: ReviewForm, id: string, date: string, now: int, later: int)
    ensures now != 0 ==> (IsReviewExpired(NewReview(form, id, date, now), later) <==> later - now > TenDaysMs)
    ensures now == 0 ==> !IsReviewExpired(NewReview(form, id, date, now), later)
  {
  }

  /** `saveReview(review)`: prepends the review to the stored array. */
  method SaveReview(st: LocalStorage, review: Review)
    modifies st`reviews, st`writes
    ensures st.reviews == Some([review] + old(st.Reviews()))
    ensures st.writes == old(st.writes) + [ReviewsKey]
  {
    var reviews := st.Reviews();
    reviews := [review] + reviews;
    st.SaveReviews(reviews);
  }

  /** `loadUserReviews()` on the services page: prune, sort, keep six. */
  method LoadServicesReviews(st: LocalStorage, now: int) returns (shown: seq<Review>)
    modifies st`reviews, st`writes
    ensures shown == LatestReviews(ActiveReviews(old(st.Reviews()), now), ServicesLimit)
    ensures |shown| <= ServicesLimit
    ensures st.Reviews() == ActiveReviews(old(st.Reviews()), now)
    ensures |ActiveReviews(old(st.Reviews()), now)| == |old(st.Reviews())| ==>
              st.reviews == old(st.reviews) && st.writes == old(st.writes)
  {
    shown := LoadUserReviews(st, now, ServicesLimit);
  }

  /** The review form's submit handler: build, prepend, then reload the
      list. The new review survives the pruning that follows, at the head of
      the store; it is listed first when no stored review is dated later. */
  method SubmitReview(st: LocalStorage, form: ReviewForm, id: string, date: string, now: int)
    returns (shown: seq<Review>)
    modifies st`reviews, st`writes
    ensures var r := NewReview(form, id, date, now);
            st.Reviews() == [r] + ActiveReviews(old(st.Reviews()), now)
            && shown == LatestReviews([r] + ActiveReviews(old(st.Reviews()), now), ServicesLimit)
    ensures 1 <= |shown| <= ServicesLimit
    ensures (forall i :: 0 <= i < |old(st.Reviews())| ==> SortKey(old(st.Reviews())[i]) <= now) ==>
              shown[0] == NewReview(form, id, date, now)
  {
    var review := NewReview(form, id, date, now);
    ghost var before := st.Reviews();
    SaveReview(st, review);
    FilterCons(review, before, IsActive(now));
    shown := LoadServicesReviews(st, now);
    if forall i :: 0 <= i < |before| ==> SortKey(before[i]) <= now {
      NewReviewLeads(review, before, now);
    }
  }

  /** A review made at `now` heads the services listing after pruning,
      when no stored review is dated later. */
  lemma NewReviewLeads(r: Review, before: seq<Review>, now: int)
    requires SortKey(r) == now
    requires forall i :: 0 <= i < |before| ==> SortKey(before[i]) <= now
    ensures LatestReviews([r] + ActiveReviews(before, now), ServicesLimit)[0] == r
  {
    var active := ActiveReviews(before, now);
    forall i | 0 <= i < |active| ensures SortKey(active[i]) <= SortKey(r) {
      assert active[i] in before;
    }
    LatestLedByNewest(r, active, ServicesLimit);
  }
}
