/** The home page's review strip: the same pruning as the services page,
    then the newest three. */
module Home {
  import opened Records
  import opened Storage
  import opened Reviews

  /** The home page shows at most three reviews. */
  const HomeLimit: nat := 3

  /** `loadUserReviews()` on the home page: prune, sort, keep three. */
  method LoadHomeReviews(st: LocalStorage, now: int) returns (shown: seq<Review>)
    modifies st`reviews, st`writes
    ensures shown == LatestReviews(ActiveReviews(old(st.Reviews()), now), HomeLimit)
    ensures |shown| <= HomeLimit
    ensures st.Reviews() == ActiveReviews(old(st.Reviews()), now)
    ensures |ActiveReviews(old(st.Reviews()), now)| == |old(st.Reviews())| ==>
              st.reviews == old(st.reviews) && st.writes == old(st.writes)
  {
    shown := LoadUserReviews(st, now, HomeLimit);
  }

  /** The home strip is the first three of the services page's six: both
      pages list the same reviews in the same order, the home page fewer. */
  lemma HomeIsPrefixOfServices(active: seq<Review>)
    ensures LatestReviews(active, HomeLimit) <= LatestReviews(active, 6)
  {
  }
}
