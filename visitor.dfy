/**
 * The card filter of assets/js/Visitor/visitor.js: the static event cards
 * of the visitor page are shown or hidden by a search term and a category,
 * the visible ones are counted into the badge, and a single "no events
 * found" message is added or removed.
 */
module Visitor {
  import opened Wrappers
  import opened Text
  import Seqs
  import Catalog

  /** What `filterEvents` reads from one card: its h3, its p and its optional category tag. */
  datatype Card = Card(title: string, description: string, categoryTag: Option<string>)

  /** The card's lower-cased category, '' without a tag. */
  function CardCategory(card: Card): string {
    match card.categoryTag
    case None => ""
    case Some(tag) => ToLower(tag)
  }

  /** The search box's lower-cased text, '' without a search box. */
  function SearchTerm(searchInput: Option<string>): string {
    match searchInput
    case None => ""
    case Some(v) => ToLower(v)
  }

  /** The dropdown's lower-cased value, 'all' without a dropdown. */
  function SelectedCategory(dropdown: Option<string>): string {
    match dropdown
    case None => "all"
    case Some(v) => ToLower(v)
  }

  predicate MatchesSearch(card: Card, searchTerm: string) {
    Includes(ToLower(card.title), searchTerm) || Includes(ToLower(card.description), searchTerm)
  }

  predicate MatchesCategory(card: Card, selectedCategory: string) {
    selectedCategory == "all" || selectedCategory == "all category" || CardCategory(card) == selectedCategory
  }

  /** The test deciding whether a card is displayed. */
  function Shows(searchTerm: string, selectedCategory: string): Card -> bool {
    (card: Card) => MatchesSearch(card, searchTerm) && MatchesCategory(card, selectedCategory)
  }

  /** Each card's display after filtering: true for 'flex', false for 'none'. */
  function Visibility(cards: seq<Card>, searchTerm: string, selectedCategory: string): (flags: seq<bool>)
    ensures |flags| == |cards|
  {
    seq(|cards|, i requires 0 <= i < |cards| => Shows(searchTerm, selectedCategory)(cards[i]))
  }

  /** The number of displayed cards. */
  function ShownCount(flags: seq<bool>): nat {
    if flags == [] then 0 else ShownCount(flags[..|flags| - 1]) + (if flags[|flags| - 1] then 1 else 0)
  }

  /** The count of displayed cards is the number of cards that pass the test. */
  lemma {:induction false} ShownCountIsMatches(cards: seq<Card>, searchTerm: string, selectedCategory: string)
    ensures ShownCount(Visibility(cards, searchTerm, selectedCategory)) == Seqs.Count(Shows(searchTerm, selectedCategory), cards)
  {
    if cards != [] {
      var p := cards[..|cards| - 1];
      var last := cards[|cards| - 1];
      ShownCountIsMatches(p, searchTerm, selectedCategory);
      assert Visibility(cards, searchTerm, selectedCategory)[..|cards| - 1] == Visibility(p, searchTerm, selectedCategory);
      assert cards == p + [last];
      Seqs.FilterConcat(Shows(searchTerm, selectedCategory), p, [last]);
      assert Seqs.Filter(Shows(searchTerm, selectedCategory), [last]) == if Shows(searchTerm, selectedCategory)(last) then [last] else [];
    }
  }

  /** An empty search and 'all' or 'All Category' show every card. */
  lemma NoFilterShowsAll(cards: seq<Card>, dropdown: string)
    requires ToLower(dropdown) == "all" || ToLower(dropdown) == "all category"
    ensures forall i :: 0 <= i < |cards| ==> Visibility(cards, "", SelectedCategory(Some(dropdown)))[i]
  {
    var selected := SelectedCategory(Some(dropdown));
    forall i | 0 <= i < |cards| ensures Visibility(cards, "", selected)[i] {
      IncludesEmpty(ToLower(cards[i].title));
      assert Shows("", selected)(cards[i]);
    }
  }

  /** A category other than the two 'all' values hides every card without that tag. */
  lemma CategoryHidesOthers(cards: seq<Card>, searchTerm: string, selectedCategory: string)
    requires selectedCategory != "all" && selectedCategory != "all category"
    ensures forall i :: 0 <= i < |cards| && Visibility(cards, searchTerm, selectedCategory)[i] ==>
      cards[i].categoryTag.Some? || selectedCategory == ""
    ensures forall i :: 0 <= i < |cards| && Visibility(cards, searchTerm, selectedCategory)[i] ==>
      CardCategory(cards[i]) == selectedCategory
  {
    forall i | 0 <= i < |cards| && Visibility(cards, searchTerm, selectedCategory)[i]
      ensures CardCategory(cards[i]) == selectedCategory
    {
      assert Shows(searchTerm, selectedCategory)(cards[i]);
    }
  }

  /** The visitor page's cards, their display and the badge and message beside them. */
  class CardGrid {
    const cards: seq<Card>
    /** Whether the `.events-grid` container exists. */
    const hasGrid: bool
    var displayed: seq<bool>
    var badge: string
    /** How many `#no-results-msg` elements the grid holds. */
    var noResultsCount: nat

    ghost predicate Valid()
      reads this
    {
      |displayed| == |cards| && noResultsCount <= 1
    }

    /** The page as loaded: every card displayed, no message. */
    constructor (cards: seq<Card>, hasGrid: bool, badge: string)
      ensures this.cards == cards && this.hasGrid == hasGrid && this.badge == badge
      ensures displayed == seq(|cards|, i => true) && noResultsCount == 0
      ensures Valid()
    {
      this.cards := cards;
      this.hasGrid := hasGrid;
      this.badge := badge;
      displayed := seq(|cards|, i => true);
      noResultsCount := 0;
    }

    /**
     * `handleNoResults(count)`: with no result the message is added once
     * (if the grid exists); with results an existing message is removed.
     */
    method HandleNoResults(count: nat)
      requires Valid()
      modifies this`noResultsCount
      ensures Valid()
      ensures count == 0 ==> noResultsCount == if old(noResultsCount) == 0 && !hasGrid then 0 else 1
      ensures count != 0 ==> noResultsCount == 0
    {
      if count == 0 {
        if noResultsCount == 0 && hasGrid {
          noResultsCount := noResultsCount + 1;
        }
      } else if noResultsCount > 0 {
        noResultsCount := noResultsCount - 1;
      }
    }

    /**
     * `filterEvents`: display exactly the cards passing the search and
     * category tests, count them into the badge and update the message.
     */
    method FilterEvents(searchInput: Option<string>, dropdown: Option<string>) returns (visibleCount: nat)
      requires Valid()
      modifies this
      ensures Valid()
      ensures displayed == Visibility(cards, SearchTerm(searchInput), SelectedCategory(dropdown))
      ensures visibleCount == ShownCount(displayed)
      ensures visibleCount == Seqs.Count(Shows(SearchTerm(searchInput), SelectedCategory(dropdown)), cards)
      ensures badge == Catalog.CountBadge(visibleCount)
      ensures visibleCount == 0 ==> noResultsCount == if old(noResultsCount) == 0 && !hasGrid then 0 else 1
      ensures visibleCount != 0 ==> noResultsCount == 0
    {
      var searchTerm := SearchTerm(searchInput);
      var selectedCategory := SelectedCategory(dropdown);
      var shows := Shows(searchTerm, selectedCategory);
      visibleCount := 0;
      var i := 0;
      while i < |cards|
        invariant 0 <= i <= |cards| == |displayed|
        invariant forall k :: 0 <= k < i ==> displayed[k] == shows(cards[k])
        invariant visibleCount == Seqs.Count(shows, cards[..i])
        invariant noResultsCount == old(noResultsCount)
      {
        var card := cards[i];
        Seqs.CountStep(shows, cards, i);
        if MatchesSearch(card, searchTerm) && MatchesCategory(card, selectedCategory) {
          displayed := displayed[i := true];
          visibleCount := visibleCount + 1;
        } else {
          displayed := displayed[i := false];
        }
        i := i + 1;
      }
      assert cards[..i] == cards;
      assert displayed == Visibility(cards, searchTerm, selectedCategory);
      ShownCountIsMatches(cards, searchTerm, selectedCategory);
      badge := Catalog.CountBadge(visibleCount);
      HandleNoResults(visibleCount);
    }
  }
}
