/** The admin feedback list (app/admin/feedback/page.tsx): a search over the
    guests' names and comments, and the five stars drawn for each rating. */
module AdminFeedback {
  import opened Text
  import opened Lists
  import opened Stars

  datatype FeedbackItem = FeedbackItem(
    id: int,
    userName: string,
    phone: string,
    rating: int,
    comment: string,
    createdAt: string)

  /** The search matches the name or the comment, ignoring case. */
  predicate MatchesSearch(item: FeedbackItem, term: string) {
    MatchesIgnoringCase(item.userName, term) || MatchesIgnoringCase(item.comment, term)
  }

  function Matching(term: string): FeedbackItem -> bool {
    (item: FeedbackItem) => MatchesSearch(item, term)
  }

  /** `filteredFeedback`: the matching items in their original order. */
  function FilteredFeedback(items: seq<FeedbackItem>, term: string): (r: seq<FeedbackItem>)
    ensures forall x :: x in r <==>
      x in items && (MatchesIgnoringCase(x.userName, term) || MatchesIgnoringCase(x.comment, term))
    ensures IsSublist(r, items)
    ensures forall x :: multiset(r)[x] == (if MatchesSearch(x, term) then multiset(items)[x] else 0)
  {
    FilterIsSublist(items, Matching(term));
    FilterCounts(items, Matching(term));
    Filter(items, Matching(term))
  }

  /** An empty search lists every item. */
  lemma EmptySearchKeepsAll(items: seq<FeedbackItem>)
    ensures FilteredFeedback(items, "") == items
  {
    forall x | x in items ensures Matching("")(x) {
      ContainsEmpty(Lower(x.userName));
    }
    FilterKeepsAll(items, Matching(""));
  }

  /** `renderStars`: five stars, star `i` (from 0) filled when `i < rating`. */
  function RenderStars(rating: int): (stars: seq<bool>)
    ensures |stars| == 5
    ensures forall i :: 0 <= i < 5 ==> (stars[i] <==> i < rating)
    ensures FilledCount(stars) == Clamp(rating, 0, 5)
  {
    StarRowCount(5, rating);
    StarRow(5, rating)
  }
}
