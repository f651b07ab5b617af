/** The customer feedback list: the polarity filter applied to the fetched
    records and the item count shown next to it. */
module FeedbackList {
  import opened Wrappers
  import opened Strings

  /** One fetched record. The polarity is kept as the string the server
      sends; records are typed "positive" or "negative", but other spellings
      can arrive. */
  datatype Feedback = Feedback(
    id: int,
    text: string,
    feedbackType: string,
    time: string,
    sector: Option<string>)

  /** The filter choices of the select box. */
  const AllFilter := "ALL"
  const PositiveFilter := "positive"
  const NegativeFilter := "negative"

  /** The filter callback: everything passes "ALL"; otherwise the polarity
      must equal the filter value exactly. */
  predicate Matches(f: Feedback, filter: string) {
    filter == AllFilter || f.feedbackType == filter
  }

  /** `feedbacks.filter(...)`: the matching records in their original order. */
  function FilterFeedbacks(fs: seq<Feedback>, filter: string): (r: seq<Feedback>)
    ensures |r| <= |fs|
    ensures forall x :: x in r <==> x in fs && Matches(x, filter)
  {
    if fs == [] then []
    else
      var rest := FilterFeedbacks(fs[1..], filter);
      if Matches(fs[0], filter) then [fs[0]] + rest else rest
  }

  /** `a` can be obtained from `b` by deleting elements. */
  predicate IsSubsequence(a: seq<Feedback>, b: seq<Feedback>)
    decreases |b|
  {
    if a == [] then true
    else if b == [] then false
    else (a[0] == b[0] && IsSubsequence(a[1..], b[1..])) || IsSubsequence(a, b[1..])
  }

  /** "ALL" leaves the list as it is. */
  lemma {:induction false} FilterAll(fs: seq<Feedback>)
    ensures FilterFeedbacks(fs, AllFilter) == fs
  {
    if fs != [] {
      FilterAll(fs[1..]);
      assert [fs[0]] + fs[1..] == fs;
    }
  }

  /** The filtered list keeps the original relative order. */
  lemma {:induction false} FilterIsSubsequence(fs: seq<Feedback>, filter: string)
    ensures IsSubsequence(FilterFeedbacks(fs, filter), fs)
  {
    if fs != [] {
      FilterIsSubsequence(fs[1..], filter);
      var rest := FilterFeedbacks(fs[1..], filter);
      if Matches(fs[0], filter) {
        assert ([fs[0]] + rest)[1..] == rest;
      }
    }
  }

  /** Every record occurs in the filtered list as often as in the input when
      it matches, and not at all when it does not. Together with the order
      kept this pins the list down exactly. */
  lemma {:induction false} FilterCounts(fs: seq<Feedback>, filter: string, x: Feedback)
    ensures multiset(FilterFeedbacks(fs, filter))[x] == if Matches(x, filter) then multiset(fs)[x] else 0
  {
    if fs != [] {
      FilterCounts(fs[1..], filter, x);
      assert fs == [fs[0]] + fs[1..];
    }
  }

  /** Filtering twice with the same value is filtering once. */
  lemma {:induction false} FilterIdempotent(fs: seq<Feedback>, filter: string)
    ensures FilterFeedbacks(FilterFeedbacks(fs, filter), filter) == FilterFeedbacks(fs, filter)
  {
    if fs != [] {
      FilterIdempotent(fs[1..], filter);
    }
  }

  /** No record is both in the positive and in the negative list. */
  lemma PolaritiesDisjoint(fs: seq<Feedback>, x: Feedback)
    ensures !(x in FilterFeedbacks(fs, PositiveFilter) && x in FilterFeedbacks(fs, NegativeFilter))
  {
  }

  /** A record typed "positive" or "negative". */
  predicate Typed(f: Feedback) {
    f.feedbackType == PositiveFilter || f.feedbackType == NegativeFilter
  }

  /** Records typed "positive" or "negative" are split between the two
      lists: together they hold every record, as often as the input does. */
  lemma {:induction false} PartitionByPolarity(fs: seq<Feedback>)
    requires forall i :: 0 <= i < |fs| ==> Typed(fs[i])
    ensures multiset(FilterFeedbacks(fs, PositiveFilter)) + multiset(FilterFeedbacks(fs, NegativeFilter)) == multiset(fs)
  {
    if fs != [] {
      PartitionByPolarity(fs[1..]);
      assert fs == [fs[0]] + fs[1..];
      assert multiset(fs) == multiset([fs[0]]) + multiset(fs[1..]);
      assert Typed(fs[0]);
    }
  }

  /** So the two list lengths add up to the number of records. */
  lemma PartitionLengths(fs: seq<Feedback>)
    requires forall i :: 0 <= i < |fs| ==> Typed(fs[i])
    ensures |FilterFeedbacks(fs, PositiveFilter)| + |FilterFeedbacks(fs, NegativeFilter)| == |fs|
  {
    PartitionByPolarity(fs);
    assert |multiset(FilterFeedbacks(fs, PositiveFilter)) + multiset(FilterFeedbacks(fs, NegativeFilter))| == |multiset(fs)|;
  }

  /** Matching is exact and case-sensitive: an upper-case "POSITIVE" record
      shows up under neither polarity, only under "ALL". */
  lemma UpperCaseMatchesNeither(fs: seq<Feedback>, x: Feedback)
    requires x in fs && x.feedbackType == "POSITIVE"
    ensures x !in FilterFeedbacks(fs, PositiveFilter)
    ensures x !in FilterFeedbacks(fs, NegativeFilter)
    ensures x in FilterFeedbacks(fs, AllFilter)
  {
  }

  /** The word after the count on the badge. */
  function CountLabel(n: nat): (l: string)
    ensures l == "Item" || l == "Items"
    ensures l == "Item" <==> n == 1
  {
    if n == 1 then "Item" else "Items"
  }

  /** The badge: the number of shown records, a space, the word. */
  function BadgeText(fs: seq<Feedback>, filter: string): string {
    var n := |FilterFeedbacks(fs, filter)|;
    NatToString(n) + " " + CountLabel(n)
  }

  /** The badge begins with the number of shown records, which `parseInt`
      reads back, and the word is singular only for one record. */
  lemma BadgeCount(fs: seq<Feedback>, filter: string)
    ensures ParseInt(BadgeText(fs, filter)) == Some(|FilterFeedbacks(fs, filter)|)
    ensures (BadgeText(fs, filter)[|BadgeText(fs, filter)| - 4..] == "Item") <==> |FilterFeedbacks(fs, filter)| == 1
  {
    var n := |FilterFeedbacks(fs, filter)|;
    var digits := NatToString(n);
    var t := BadgeText(fs, filter);
    assert t == digits + (" " + CountLabel(n));
    DigitPrefixOfDigits(digits);
    DigitPrefixStops(digits, " " + CountLabel(n));
    DigitsValueOfNatToString(n);
    if n != 1 {
      assert t[|t| - 4..] == "tems";
    }
  }

  /** The "No feedback found" panel replaces the cards exactly when no
      record matches the filter. */
  predicate ShowsEmptyState(fs: seq<Feedback>, filter: string) {
    |FilterFeedbacks(fs, filter)| == 0
  }

  lemma EmptyStateExactlyWhenNoMatch(fs: seq<Feedback>, filter: string)
    ensures ShowsEmptyState(fs, filter) <==> forall i :: 0 <= i < |fs| ==> !Matches(fs[i], filter)
    ensures ShowsEmptyState(fs, AllFilter) <==> fs == []
  {
    var r := FilterFeedbacks(fs, filter);
    if r != [] {
      assert r[0] in r;
    }
    if !ShowsEmptyState(fs, AllFilter) {
      assert FilterFeedbacks(fs, AllFilter)[0] in FilterFeedbacks(fs, AllFilter);
    }
    if fs != [] {
      assert fs[0] in fs;
    }
  }
}
