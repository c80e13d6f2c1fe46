/**
 * The hospital's review management screen: search, status filter and sort
 * of the review list, reply drafts, reply submission and the counters.
 */
module HospitalReviews {
  import opened Wrappers
  import opened Text
  import opened Lists

  /** A review as listed: the stored record with its key as `id`. */
  datatype Review = Review(
    id: string,
    userId: string,
    userName: Option<string>,
    rating: real,
    comment: string,
    timestamp: int,
    status: string,
    reply: Option<string>,
    replyTimestamp: Option<int>)

  /** The `update` sent to `reviews/<hospital phone>/<id>`. */
  datatype ReplyUpdate = ReplyUpdate(reviewId: string, reply: string, replyTimestamp: int)

  datatype Stats = Stats(averageRating: real, total: nat, pending: nat, replied: nat)

  /** `review.reply` is truthy: present and not the empty string. */
  predicate HasReply(r: Review) {
    r.reply.Some? && r.reply.value != []
  }

  predicate IsPending(r: Review) {
    !HasReply(r)
  }

  /** The comment, or a non-empty user name, contains the term, ignoring case. */
  predicate MatchesSearch(r: Review, term: string) {
    ContainsIgnoreCase(r.comment, term) ||
    (r.userName.Some? && r.userName.value != [] && ContainsIgnoreCase(r.userName.value, term))
  }

  /** What search and status filter together keep. */
  predicate Kept(r: Review, searchTerm: string, filter: string) {
    && (IsBlank(searchTerm) || MatchesSearch(r, searchTerm))
    && (filter == "pending" ==> IsPending(r))
    && (filter == "replied" ==> HasReply(r))
  }

  predicate NewerFirst(a: Review, b: Review) { a.timestamp >= b.timestamp }
  predicate OlderFirst(a: Review, b: Review) { a.timestamp <= b.timestamp }
  predicate HigherFirst(a: Review, b: Review) { a.rating >= b.rating }
  predicate LowerFirst(a: Review, b: Review) { a.rating <= b.rating }

  /** `applyFiltersAndSort`. The result holds each review the search and the
      status filter keep, as often as the list does, and no other; it is
      ordered by the sort option, and an unknown option keeps list order. */
  method ApplyFiltersAndSort(reviews: seq<Review>, searchTerm: string, filter: string, sort: string)
    returns (filtered: seq<Review>)
    ensures forall r :: multiset(filtered)[r] == if Kept(r, searchTerm, filter) then multiset(reviews)[r] else 0
    ensures sort == "newest" ==> forall i, j :: 0 <= i < j < |filtered| ==> filtered[i].timestamp >= filtered[j].timestamp
    ensures sort == "oldest" ==> forall i, j :: 0 <= i < j < |filtered| ==> filtered[i].timestamp <= filtered[j].timestamp
    ensures sort == "highest" ==> forall i, j :: 0 <= i < j < |filtered| ==> filtered[i].rating >= filtered[j].rating
    ensures sort == "lowest" ==> forall i, j :: 0 <= i < j < |filtered| ==> filtered[i].rating <= filtered[j].rating
    ensures sort !in {"newest", "oldest", "highest", "lowest"} ==> IsSubseq(filtered, reviews)
  {
    filtered := reviews;
    SubseqRefl(reviews);
    if !IsBlank(searchTerm) {
      filtered := FilterStep(filtered, reviews, r => MatchesSearch(r, searchTerm));
    }
    ghost var searched := filtered;
    assert forall r :: (multiset(searched)[r] ==
      if IsBlank(searchTerm) || MatchesSearch(r, searchTerm) then multiset(reviews)[r] else 0);
    if filter == "pending" {
      filtered := FilterStep(filtered, reviews, IsPending);
    } else if filter == "replied" {
      filtered := FilterStep(filtered, reviews, HasReply);
    }
    assert forall r :: multiset(filtered)[r] == if Kept(r, searchTerm, filter) then multiset(reviews)[r] else 0;
    filtered := SortReviews(filtered, sort);
  }

  /** One `filter` call on the running result, which is a subsequence of
      the fetched list. */
  method FilterStep(current: seq<Review>, reviews: seq<Review>, p: Review -> bool) returns (r: seq<Review>)
    requires IsSubseq(current, reviews)
    ensures forall x :: multiset(r)[x] == if p(x) then multiset(current)[x] else 0
    ensures IsSubseq(r, reviews)
  {
    r := Filter(current, p);
    FilterKeepsExactly(current, p);
    SubseqTrans(r, current, reviews);
  }

  /** The `sort` step: a permutation, ordered by the option; an unknown
      option leaves the list as it is. */
  method SortReviews(s: seq<Review>, sort: string) returns (r: seq<Review>)
    ensures multiset(r) == multiset(s)
    ensures sort == "newest" ==> forall i, j :: 0 <= i < j < |r| ==> r[i].timestamp >= r[j].timestamp
    ensures sort == "oldest" ==> forall i, j :: 0 <= i < j < |r| ==> r[i].timestamp <= r[j].timestamp
    ensures sort == "highest" ==> forall i, j :: 0 <= i < j < |r| ==> r[i].rating >= r[j].rating
    ensures sort == "lowest" ==> forall i, j :: 0 <= i < j < |r| ==> r[i].rating <= r[j].rating
    ensures sort !in {"newest", "oldest", "highest", "lowest"} ==> r == s
  {
    r := s;
    if sort == "newest" {
      assert TotalPreorder(NewerFirst);
      SortBySorted(s, NewerFirst);
      r := SortBy(s, NewerFirst);
    } else if sort == "oldest" {
      assert TotalPreorder(OlderFirst);
      SortBySorted(s, OlderFirst);
      r := SortBy(s, OlderFirst);
    } else if sort == "highest" {
      assert TotalPreorder(HigherFirst);
      SortBySorted(s, HigherFirst);
      r := SortBy(s, HigherFirst);
    } else if sort == "lowest" {
      assert TotalPreorder(LowerFirst);
      SortBySorted(s, LowerFirst);
      r := SortBy(s, LowerFirst);
    }
  }

  /** `reviews.reduce((total, review) => total + review.rating, 0)`. */
  function RatingSum(reviews: seq<Review>): real {
    if reviews == [] then 0.0 else RatingSum(reviews[..|reviews| - 1]) + reviews[|reviews| - 1].rating
  }

  /** Ratings from 0 to 5 sum to between 0 and five times their number. */
  lemma {:induction false} RatingSumBounds(reviews: seq<Review>)
    requires forall r :: r in reviews ==> 0.0 <= r.rating <= 5.0
    ensures 0.0 <= RatingSum(reviews) <= 5.0 * |reviews| as real
  {
    if reviews != [] {
      var init := reviews[..|reviews| - 1];
      assert forall r :: r in init ==> r in reviews;
      RatingSumBounds(init);
      assert reviews[|reviews| - 1] in reviews;
    }
  }

  /** `calculateStats`: all zero for no reviews; otherwise the mean rating,
      the number of reviews, and the numbers of pending and replied ones. */
  function CalculateStats(reviews: seq<Review>): (s: Stats)
    ensures reviews == [] ==> s == Stats(0.0, 0, 0, 0)
    ensures s.total == |reviews|
    ensures s.pending + s.replied == s.total
    ensures s.pending == |Filter(reviews, IsPending)| && s.replied == |Filter(reviews, HasReply)|
    ensures reviews != [] ==> s.averageRating == RatingSum(reviews) / |reviews| as real
  {
    if reviews == [] then Stats(0.0, 0, 0, 0)
    else
      FilterSplit(reviews, IsPending, HasReply);
      Stats(RatingSum(reviews) / |reviews| as real, |reviews|, |Filter(reviews, IsPending)|, |Filter(reviews, HasReply)|)
  }

  /** Ratings between 0 and 5 average between 0 and 5, so the average can be
      drawn with the star icons. */
  lemma AverageInRange(reviews: seq<Review>)
    requires forall r :: r in reviews ==> 0.0 <= r.rating <= 5.0
    ensures 0.0 <= CalculateStats(reviews).averageRating <= 5.0
  {
    if reviews != [] {
      RatingSumBounds(reviews);
      var stats := CalculateStats(reviews);
      MeanBound(stats.averageRating, |reviews| as real, RatingSum(reviews));
    }
  }

  lemma MeanBound(a: real, n: real, sum: real)
    requires n > 0.0 && a == sum / n && 0.0 <= sum <= 5.0 * n
    ensures 0.0 <= a <= 5.0
  {
  }

  /** The counters count exactly the pending and the replied reviews: the
      positions of the list holding a review without, resp. with, a reply. */
  lemma StatsCountsPositions(reviews: seq<Review>)
    ensures CalculateStats(reviews).pending == CountWhere(reviews, IsPending)
    ensures CalculateStats(reviews).replied == CountWhere(reviews, HasReply)
  {
    FilterCount(reviews, IsPending);
    FilterCount(reviews, HasReply);
  }

  /** A listed pending (replied) review makes its counter positive, and no
      review is pending exactly when every review has a reply. */
  lemma StatsCount(reviews: seq<Review>, r: Review)
    ensures r in reviews && IsPending(r) ==> CalculateStats(reviews).pending > 0
    ensures r in reviews && HasReply(r) ==> CalculateStats(reviews).replied > 0
    ensures CalculateStats(reviews).pending == 0 <==> forall x :: x in reviews ==> HasReply(x)
  {
    if r in reviews && IsPending(r) {
      assert r in Filter(reviews, IsPending);
    }
    if r in reviews && HasReply(r) {
      assert r in Filter(reviews, HasReply);
    }
    if reviews != [] && CalculateStats(reviews).pending == 0 {
      assert Filter(reviews, IsPending) == [];
    }
    if forall x :: x in reviews ==> HasReply(x) {
      FilterKeepsExactly(reviews, IsPending);
      assert multiset(Filter(reviews, IsPending)) == multiset{};
    }
  }

  /** The local list after a reply: the review with that id gets the reply
      and its timestamp, every other review is kept as it was. */
  function MarkReplied(reviews: seq<Review>, reviewId: string, text: string, now: int): (r: seq<Review>)
    ensures |r| == |reviews|
    ensures forall i :: 0 <= i < |r| ==>
      r[i] == if reviews[i].id == reviewId then reviews[i].(reply := Some(text), replyTimestamp := Some(now)) else reviews[i]
  {
    if reviews == [] then []
    else
      var head := if reviews[0].id == reviewId then reviews[0].(reply := Some(text), replyTimestamp := Some(now)) else reviews[0];
      [head] + MarkReplied(reviews[1..], reviewId, text, now)
  }

  /** The screen's state: the fetched reviews, the reply drafts by review id,
      and the updates sent to the store. */
  class ReviewsPage {
    var reviews: seq<Review>
    var replyText: map<string, string>
    var updates: seq<ReplyUpdate>

    constructor (reviews: seq<Review>)
      ensures this.reviews == reviews && replyText == map[] && updates == []
    {
      this.reviews := reviews;
      replyText := map[];
      updates := [];
    }

    /** `handleReplyChange`: sets one draft. */
    method HandleReplyChange(reviewId: string, text: string)
      modifies this`replyText
      ensures replyText == old(replyText)[reviewId := text]
      ensures forall id :: id != reviewId ==> (id in replyText <==> id in old(replyText))
      ensures forall id :: id != reviewId && id in replyText ==> replyText[id] == old(replyText)[id]
    {
      replyText := replyText[reviewId := text];
    }

    /** `submitReply`. A missing or blank draft sends nothing and changes
        nothing; so does a failed update. A successful one sends one update,
        marks only the reviews with that id, and clears only that draft. */
    method SubmitReply(reviewId: string, now: int, writeOk: bool) returns (ok: bool)
      modifies this`reviews, this`replyText, this`updates
      ensures ok <==> reviewId in old(replyText) && !IsBlank(old(replyText)[reviewId]) && writeOk
      ensures !ok ==> unchanged(this)
      ensures ok ==>
        && updates == old(updates) + [ReplyUpdate(reviewId, old(replyText)[reviewId], now)]
        && reviews == MarkReplied(old(reviews), reviewId, old(replyText)[reviewId], now)
        && replyText == old(replyText)[reviewId := []]
    {
      if reviewId !in replyText || IsBlank(replyText[reviewId]) {
        return false;
      }
      if !writeOk {
        return false;
      }
      var text := replyText[reviewId];
      updates := updates + [ReplyUpdate(reviewId, text, now)];
      reviews := MarkReplied(reviews, reviewId, text, now);
      replyText := replyText[reviewId := ""];
      ok := true;
    }
  }
}
