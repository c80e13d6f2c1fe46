/**
 * The patient-side hospital directory: the hospital list taken from the user
 * table, the search box, and the review form with its submission.
 */
module Hospitals {
  import opened Wrappers
  import opened Text
  import opened Lists
  import HospitalReviews
  import Keys

  /** The fields of a user record the directory reads. */
  datatype UserRecord = UserRecord(
    name: string,
    hospitalName: string,
    specialization: string,
    phone: string,
    userType: Option<string>)

  /** `{ ...usersData[key], id: key }`. */
  datatype Hospital = Hospital(id: string, record: UserRecord)

  /** The review form: a rating from 0 to 5 and a comment. */
  datatype ReviewForm = ReviewForm(rating: real, comment: string)

  /** The review record written under `reviews/<hospital phone>/<key>`. */
  datatype StoredReview = StoredReview(
    userId: string,
    userName: string,
    rating: real,
    comment: string,
    timestamp: int,
    status: string)

  predicate IsHospital(u: UserRecord) {
    u.userType == Some("hospital")
  }

  /** `fetchHospitals`: the users whose `userType` is `'hospital'`, in
      snapshot order, each tagged with its key. */
  function HospitalList(entries: seq<(string, UserRecord)>): (r: seq<Hospital>)
    ensures |r| <= |entries|
    ensures forall h :: h in r ==> IsHospital(h.record) && (h.id, h.record) in entries
    ensures forall i :: 0 <= i < |entries| && IsHospital(entries[i].1) ==> Hospital(entries[i].0, entries[i].1) in r
  {
    SelectTaggedMembers(entries, IsHospital, HospitalOf);
    var r := SelectTagged(entries, IsHospital, HospitalOf);
    assert forall h :: h in r ==> IsHospital(h.record) && (h.id, h.record) in entries by {
      forall h | h in r
        ensures IsHospital(h.record) && (h.id, h.record) in entries
      {
        var i :| 0 <= i < |entries| && IsHospital(entries[i].1) && h == Hospital(entries[i].0, entries[i].1);
        assert entries[i] == (h.id, h.record);
      }
    }
    r
  }

  function HospitalOf(key: string, u: UserRecord): Hospital {
    Hospital(key, u)
  }

  /** The hospital list follows the snapshot, one hospital per hospital
      record: listing two runs of entries lists each in turn, a single entry
      lists as its hospital exactly when it is one, and the list is as long
      as there are records whose `userType` is `'hospital'`. */
  lemma HospitalListInOrder(a: seq<(string, UserRecord)>, b: seq<(string, UserRecord)>)
    ensures HospitalList(a + b) == HospitalList(a) + HospitalList(b)
    ensures |a| == 1 ==> HospitalList(a) == if IsHospital(a[0].1) then [Hospital(a[0].0, a[0].1)] else []
    ensures |HospitalList(a)| == CountWhere(Values(a), IsHospital)
  {
    SelectTaggedAppend(a, b, IsHospital, HospitalOf);
    SelectTaggedCount(a, IsHospital, HospitalOf);
  }

  /** Name, hospital name or specialization contains the term, ignoring case. */
  predicate MatchesSearch(h: Hospital, term: string) {
    || ContainsIgnoreCase(h.record.name, term)
    || ContainsIgnoreCase(h.record.hospitalName, term)
    || ContainsIgnoreCase(h.record.specialization, term)
  }

  /** The search effect: all hospitals for a blank term, otherwise, in order
      and as often as listed, exactly the matching ones. */
  function SearchHospitals(hospitals: seq<Hospital>, searchTerm: string): (r: seq<Hospital>)
    ensures IsBlank(searchTerm) ==> r == hospitals
    ensures forall h :: multiset(r)[h] == if IsBlank(searchTerm) || MatchesSearch(h, searchTerm) then multiset(hospitals)[h] else 0
    ensures IsSubseq(r, hospitals)
  {
    if IsBlank(searchTerm) then
      SubseqRefl(hospitals);
      hospitals
    else
      FilterKeepsExactly(hospitals, h => MatchesSearch(h, searchTerm));
      Filter(hospitals, h => MatchesSearch(h, searchTerm))
  }

  /** `calculateAverageRating`: 0 for no reviews, else the mean rating, the
      same mean the hospital's own review screen shows. */
  function AverageRating(reviews: seq<HospitalReviews.Review>): (r: real)
    ensures reviews == [] ==> r == 0.0
    ensures r == HospitalReviews.CalculateStats(reviews).averageRating
    ensures (forall x :: x in reviews ==> 0.0 <= x.rating <= 5.0) ==> 0.0 <= r <= 5.0
  {
    var average := if reviews == [] then 0.0 else HospitalReviews.RatingSum(reviews) / |reviews| as real;
    if forall x :: x in reviews ==> 0.0 <= x.rating <= 5.0 then
      HospitalReviews.AverageInRange(reviews);
      average
    else
      average
  }

  /** The directory's state: the hospital picked, the review form and the
      review table of the store, by hospital phone. */
  class HospitalsPage {
    var selectedHospital: Option<Hospital>
    var newReview: ReviewForm
    var reviews: map<string, map<string, StoredReview>>

    constructor (reviews: map<string, map<string, StoredReview>>)
      ensures selectedHospital.None? && newReview == ReviewForm(0.0, "") && this.reviews == reviews
    {
      selectedHospital := None;
      newReview := ReviewForm(0.0, "");
      this.reviews := reviews;
    }

    /** The reviews stored for the hospital with this phone. */
    function ReviewsOf(phone: string): map<string, StoredReview>
      reads this
    {
      if phone in reviews then reviews[phone] else map[]
    }

    method HandleHospitalSelect(h: Hospital)
      modifies this`selectedHospital
      ensures selectedHospital == Some(h)
    {
      selectedHospital := Some(h);
    }

    /** `handleRatingChange`: the widget's 0–100 becomes 0–5; the comment is kept. */
    method HandleRatingChange(rate: real)
      modifies this`newReview
      ensures newReview.comment == old(newReview.comment)
      ensures newReview.rating * 20.0 == rate
      ensures 0.0 <= rate <= 100.0 ==> 0.0 <= newReview.rating <= 5.0
    {
      newReview := newReview.(rating := rate / 20.0);
    }

    /** `handleReviewChange`: the rating is kept. */
    method HandleReviewChange(text: string)
      modifies this`newReview
      ensures newReview == old(newReview).(comment := text)
    {
      newReview := newReview.(comment := text);
    }

    /** `submitReview`. No hospital, a zero rating or a blank comment writes
        nothing; so does a missing session cookie (its parse throws) or a
        failed write. Otherwise a pending review from the session's phone is
        pushed under a fresh key below the hospital's phone and the form is
        reset. */
    method SubmitReview(sessionPhone: Option<string>, now: int, writeOk: bool) returns (key: Option<string>)
      modifies this`reviews, this`newReview
      ensures key.Some? <==>
        old(selectedHospital.Some? && newReview.rating != 0.0 && !IsBlank(newReview.comment)) &&
        sessionPhone.Some? && writeOk
      ensures key.None? ==> unchanged(this)
      ensures key.Some? ==>
        var phone := selectedHospital.value.record.phone;
        && key.value !in old(ReviewsOf(phone))
        && reviews == old(reviews)[phone := old(ReviewsOf(phone))[key.value :=
             StoredReview(sessionPhone.value, "Anonymous User", old(newReview.rating), old(newReview.comment), now, "pending")]]
        && newReview == ReviewForm(0.0, "")
    {
      if selectedHospital.None? {
        return None;
      }
      if newReview.rating == 0.0 {
        return None;
      }
      if IsBlank(newReview.comment) {
        return None;
      }
      var phone := selectedHospital.value.record.phone;
      var existing := ReviewsOf(phone);
      var k := Keys.FreshKey(existing);
      if sessionPhone.None? || !writeOk {
        return None;
      }
      var review := StoredReview(sessionPhone.value, "Anonymous User", newReview.rating, newReview.comment, now, "pending");
      reviews := reviews[phone := existing[k := review]];
      newReview := ReviewForm(0.0, "");
      key := Some(k);
    }
  }
}
