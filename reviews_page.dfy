/** The public reviews page: its six reviews, the choice of order, and the
    rating breakdown shown beside them. */
module ReviewsPage {
  import opened Cursor

  /** A review of the page; the text and the date are left to the display. */
  datatype PageReview = PageReview(id: nat, name: string, service: string, rating: int, helpful: int)

  const PageReviews: seq<PageReview> := [
    PageReview(1, "Sophie M.", "Volume Russe", 5, 24),
    PageReview(2, "Marie L.", "Extension Classique", 5, 18),
    PageReview(3, "Camille R.", "Mega Volume", 5, 32),
    PageReview(4, "Léa B.", "Hybride", 5, 15),
    PageReview(5, "Emma V.", "Volume Russe", 5, 21),
    PageReview(6, "Julie P.", "Extension Classique", 4, 12)]

  function HelpfulKey(r: PageReview): int
  {
    r.helpful
  }

  /** The comparator that answers 0 for every pair. */
  function NoKey(r: PageReview): int
  {
    0
  }

  /** `sortedReviews`: a sorted copy, by `helpful` descending for the key
      "helpful" and with a comparator that always answers 0 otherwise; the
      sort is stable. */
  function SortedReviews(reviews: seq<PageReview>, sortBy: string): (r: seq<PageReview>)
    ensures |r| == |reviews| && multiset(r) == multiset(reviews)
    ensures sortBy == "helpful" ==> forall i, j :: 0 <= i < j < |r| ==> r[i].helpful >= r[j].helpful
    ensures sortBy != "helpful" ==> r == reviews
  {
    if sortBy == "helpful" then
      var r := SortDesc(reviews, HelpfulKey);
      assert forall i, j :: 0 <= i < j < |r| ==> HelpfulKey(r[i]) >= HelpfulKey(r[j]);
      r
    else
      SortConstantKey(reviews, NoKey);
      SortDesc(reviews, NoKey)
  }

  /** Every review appears in the sorted copy, and only those. */
  lemma SortedSameReviews(reviews: seq<PageReview>, sortBy: string, x: PageReview)
    ensures x in SortedReviews(reviews, sortBy) <==> x in reviews
  {
    var r := SortedReviews(reviews, sortBy);
    assert x in r <==> x in multiset(r);
  }

  /** A review found more helpful than every other comes first. */
  lemma MostHelpfulFirst(reviews: seq<PageReview>, k: nat)
    requires k < |reviews|
    requires forall j :: 0 <= j < |reviews| && j != k ==> reviews[j].helpful < reviews[k].helpful
    ensures SortedReviews(reviews, "helpful")[0] == reviews[k]
  {
    var r := SortedReviews(reviews, "helpful");
    SortedSameReviews(reviews, "helpful", reviews[k]);
    SortedSameReviews(reviews, "helpful", r[0]);
    var m :| 0 <= m < |r| && r[m] == reviews[k];
    var j :| 0 <= j < |reviews| && reviews[j] == r[0];
  }

  /** Sorted by helpfulness, the page opens with the review found helpful
      by 32 readers. */
  lemma PageMostHelpfulFirst()
    ensures SortedReviews(PageReviews, "helpful")[0] == PageReviews[2]
  {
    MostHelpfulFirst(PageReviews, 2);
  }

  /** A line of `ratingBreakdown`. */
  datatype Breakdown = Breakdown(stars: int, count: nat, percentage: nat)

  const RatingBreakdown: seq<Breakdown> := [
    Breakdown(5, 108, 90),
    Breakdown(4, 10, 8),
    Breakdown(3, 2, 2),
    Breakdown(2, 0, 0),
    Breakdown(1, 0, 0)]

  /** The total of the counts. */
  function CountTotal(lines: seq<Breakdown>): nat
  {
    if lines == [] then 0 else lines[0].count + CountTotal(lines[1..])
  }

  function PercentTotal(lines: seq<Breakdown>): nat
  {
    if lines == [] then 0 else lines[0].percentage + PercentTotal(lines[1..])
  }

  /** The counts add up to 120 reviews and the percentages to 100; each
      percentage is its count's share of 120, rounded to the nearest whole
      number. */
  lemma BreakdownConsistent()
    ensures CountTotal(RatingBreakdown) == 120 && PercentTotal(RatingBreakdown) == 100
    ensures forall i :: 0 <= i < |RatingBreakdown| ==>
      RatingBreakdown[i].percentage == (RatingBreakdown[i].count * 100 + 60) / 120
    ensures forall i :: 0 <= i < |RatingBreakdown| ==> RatingBreakdown[i].stars == 5 - i
  {
    assert RatingBreakdown[1..][1..][1..][1..][1..] == [];
  }
}
