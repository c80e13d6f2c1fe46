/**
 * `renderStars`, shared verbatim by the review screens: full stars for the
 * whole part of the rating, a half star when the fraction is at least 0.5,
 * and empty stars up to five. JavaScript numbers are read as exact reals.
 */
module Stars {

  datatype Icon = FullStar | HalfStar | EmptyStar

  /** `Math.trunc`. */
  function Trunc(x: real): int {
    if x >= 0.0 then x.Floor else -((-x).Floor)
  }

  /** `x % 1`: the fraction, with the sign of `x`. */
  function Frac(x: real): real {
    x - Trunc(x) as real
  }

  function Repeat(icon: Icon, n: int): (r: seq<Icon>)
    ensures |r| == if n < 0 then 0 else n
    ensures forall i :: 0 <= i < |r| ==> r[i] == icon
  {
    if n <= 0 then [] else Repeat(icon, n - 1) + [icon]
  }

  /** The icons for `rating`: `floor(rating)` full stars, a half star when
      `rating % 1 >= 0.5`, then `5 - full - half` empty stars (a negative
      count gives none). */
  function StarIcons(rating: real): seq<Icon> {
    var full := rating.Floor;
    var half := Frac(rating) >= 0.5;
    Repeat(FullStar, full) + (if half then [HalfStar] else []) + Repeat(EmptyStar, 5 - full - (if half then 1 else 0))
  }

  /** Every rating from 0 to 5 shows five icons: `floor(rating)` full stars,
      then a half star exactly when the fraction is at least 0.5, then empty
      stars. */
  lemma StarIconsInRange(rating: real)
    requires 0.0 <= rating <= 5.0
    ensures |StarIcons(rating)| == 5
    ensures forall i :: 0 <= i < rating.Floor ==> StarIcons(rating)[i] == FullStar
    ensures HalfStar in StarIcons(rating) <==> rating - rating.Floor as real >= 0.5
    ensures forall i :: 0 <= i < 5 && i != rating.Floor ==> StarIcons(rating)[i] != HalfStar
    ensures forall i :: 0 <= i < 5 ==> (StarIcons(rating)[i] == FullStar <==> i < rating.Floor)
    ensures forall i :: 0 <= i < 5 ==>
      (StarIcons(rating)[i] == HalfStar <==> i == rating.Floor && rating - rating.Floor as real >= 0.5)
    ensures forall i :: 0 <= i < 5 ==>
      (StarIcons(rating)[i] == EmptyStar <==> i > rating.Floor || (i == rating.Floor && rating - rating.Floor as real < 0.5))
  {
    var full := rating.Floor;
    assert Trunc(rating) == full;
    var half := Frac(rating) >= 0.5;
    assert half ==> full < 5;
    var h: seq<Icon> := if half then [HalfStar] else [];
    var s := Repeat(FullStar, full) + h + Repeat(EmptyStar, 5 - full - |h|);
    assert s == StarIcons(rating);
    assert forall i :: 0 <= i < |s| && i != full ==> s[i] != HalfStar;
    assert forall i :: 0 <= i < full ==> s[i] == FullStar;
    assert forall i :: full + |h| <= i < 5 ==> s[i] == EmptyStar;
    if half {
      assert s[full] == HalfStar;
    }
  }

  /** One more icon at the end of a run. */
  lemma RepeatSnoc(icon: Icon, n: nat)
    ensures Repeat(icon, n + 1) == Repeat(icon, n) + [icon]
  {
  }

  /** `renderStars(rating)`: pushes the icons one loop at a time. */
  method RenderStars(rating: real) returns (stars: seq<Icon>)
    ensures stars == StarIcons(rating)
  {
    stars := [];
    var fullStars := rating.Floor;
    var hasHalfStar := Frac(rating) >= 0.5;
    var i := 0;
    while i < fullStars
      invariant 0 <= i && (i <= fullStars || i == 0)
      invariant stars == Repeat(FullStar, i)
    {
      RepeatSnoc(FullStar, i);
      stars := stars + [FullStar];
      i := i + 1;
    }
    ghost var head := stars;
    assert head == Repeat(FullStar, fullStars);
    ghost var h: seq<Icon> := [];
    if hasHalfStar {
      stars := stars + [HalfStar];
      h := [HalfStar];
    }
    var remainingStars := 5 - fullStars - (if hasHalfStar then 1 else 0);
    i := 0;
    while i < remainingStars
      invariant 0 <= i && (i <= remainingStars || i == 0)
      invariant stars == head + h + Repeat(EmptyStar, i)
    {
      RepeatSnoc(EmptyStar, i);
      stars := stars + [EmptyStar];
      i := i + 1;
    }
    assert Repeat(EmptyStar, i) == Repeat(EmptyStar, remainingStars);
  }
}
