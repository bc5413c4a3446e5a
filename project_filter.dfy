/**
 * The project search: every input event re-derives each card's visibility
 * from the query, then the "no results" indicator and the "N projects"
 * label are brought up to date.
 */
module ProjectFilter {
  import opened Dom

  /**
   * A project card: its `data-title` and `data-description` attributes, the
   * text of its `h3` and `p` elements where it has them, and its `hidden`
   * attribute.
   */
  datatype Card = Card(dataTitle: Option<string>, heading: Option<string>,
                       dataDescription: Option<string>, paragraph: Option<string>,
                       hidden: bool)

  /** `attr || element?.textContent || ''`: an empty attribute falls through like a missing one. */
  function FirstText(attr: Option<string>, element: Option<string>): string {
    if attr.Some? && attr.value != "" then attr.value
    else if element.Some? then element.value
    else ""
  }

  function SearchTitle(c: Card): string {
    Lower(FirstText(c.dataTitle, c.heading))
  }

  function SearchDescription(c: Card): string {
    Lower(FirstText(c.dataDescription, c.paragraph))
  }

  /** The query: the search box's value (nothing when there is no box), trimmed and lower-cased. */
  function Query(input: Option<string>): (q: string)
    ensures q == "" <==> input.None? || AllSpace(input.value)
  {
    var v := if input.Some? then input.value else "";
    TrimEmptyIffAllSpace(v);
    Lower(Trim(v))
  }

  /** `matches`: an empty query shows everything, otherwise title or description must contain it. */
  predicate Matches(c: Card, q: string) {
    q == "" || Contains(SearchTitle(c), q) || Contains(SearchDescription(c), q)
  }

  /**
   * The cards after filtering: nothing but the `hidden` flag changes, and it
   * is set exactly on the cards that do not match.
   */
  function Filtered(cards: seq<Card>, q: string): (r: seq<Card>)
    ensures |r| == |cards|
    ensures forall i :: 0 <= i < |r| ==> r[i].hidden == !Matches(cards[i], q)
    ensures forall i :: 0 <= i < |r| ==> r[i] == cards[i].(hidden := r[i].hidden)
  {
    seq(|cards|, i requires 0 <= i < |cards| => Refiltered(cards[i], q))
  }

  /** Visibility is recomputed from scratch: filtering twice with one query is filtering once. */
  lemma FilterIdempotent(cards: seq<Card>, q: string)
    ensures Filtered(Filtered(cards, q), q) == Filtered(cards, q)
  {
    var once := Filtered(cards, q);
    var twice := Filtered(once, q);
    forall i | 0 <= i < |cards| ensures twice[i] == once[i] {
      assert SearchTitle(once[i]) == SearchTitle(cards[i]);
      assert SearchDescription(once[i]) == SearchDescription(cards[i]);
    }
  }

  /** The result depends only on the query, not on which cards were hidden before. */
  lemma FilterForgetsHidden(cards: seq<Card>, others: seq<Card>, q: string)
    requires |cards| == |others|
    requires forall i :: 0 <= i < |cards| ==> others[i] == cards[i].(hidden := others[i].hidden)
    ensures Filtered(others, q) == Filtered(cards, q)
  {
    var a, b := Filtered(others, q), Filtered(cards, q);
    forall i | 0 <= i < |cards| ensures a[i] == b[i] {
      assert SearchTitle(others[i]) == SearchTitle(cards[i]);
      assert SearchDescription(others[i]) == SearchDescription(cards[i]);
    }
  }

  /** The number of cards without the `hidden` attribute. */
  function VisibleCount(cards: seq<Card>): (n: nat)
    ensures n <= |cards|
    ensures n == 0 <==> forall i :: 0 <= i < |cards| ==> cards[i].hidden
    ensures n == |cards| <==> forall i :: 0 <= i < |cards| ==> !cards[i].hidden
  {
    if cards == [] then 0
    else VisibleCount(cards[..|cards| - 1]) + (if cards[|cards| - 1].hidden then 0 else 1)
  }

  /** Some card is visible exactly when the visible count is not zero. */
  lemma {:induction false} VisibleIffSome(cards: seq<Card>)
    ensures VisibleCount(cards) != 0 <==> exists k :: 0 <= k < |cards| && !cards[k].hidden
  {
    if cards != [] {
      var init := cards[..|cards| - 1];
      VisibleIffSome(init);
      if exists k :: 0 <= k < |init| && !init[k].hidden {
        var k :| 0 <= k < |init| && !init[k].hidden;
        assert !cards[k].hidden;
      }
    }
  }

  /** An empty (or all-blank) query shows every card. */
  lemma EmptyQueryShowsAll(cards: seq<Card>, input: Option<string>)
    requires input.None? || AllSpace(input.value)
    ensures VisibleCount(Filtered(cards, Query(input))) == |cards|
  {
    var raw := if input.Some? then input.value else "";
    TrimEmptyIffAllSpace(raw);
    assert Query(input) == "";
  }

  /** `${n} project${n === 1 ? '' : 's'}` */
  function CountLabel(n: nat): string {
    DecimalString(n) + " project" + (if n == 1 then "" else "s")
  }

  /**
   * The label starts with the count in decimal, and the unit after it is
   * singular exactly when the count is one.
   */
  lemma CountLabelReadsBack(n: nat)
    ensures var r, d := CountLabel(n), DecimalString(n);
      |d| <= |r| && r[..|d|] == d && DigitsValue(d) == n &&
      (r[|d|..] == " project" <==> n == 1) &&
      (r[|d|..] == " projects" <==> n != 1)
  {
    var r, d := CountLabel(n), DecimalString(n);
    DecimalRoundTrip(n);
    assert r[..|d|] == d;
    assert r[|d|..] == " project" + (if n == 1 then "" else "s");
    if n != 1 { assert |r[|d|..]| != |" project"|; }
  }

  /** Two cards titled "Alpha" and "Beta", with no description. */
  function ExampleCards(): seq<Card> {
    [Card(Some("Alpha"), None, None, None, false), Card(Some("Beta"), None, None, None, false)]
  }

  lemma CountLabelOfTwo()
    ensures CountLabel(2) == "2 projects"
  {
    assert DecimalString(2) == "2";
  }

  /** An empty query shows both: "2 projects", and the "no results" indicator stays hidden. */
  lemma EmptyQueryExample()
    ensures CountLabel(VisibleCount(Filtered(ExampleCards(), Query(Some(""))))) == "2 projects"
    ensures NoResultsDisplay(VisibleCount(Filtered(ExampleCards(), Query(Some("")))) != 0) == "none"
  {
    var cs := ExampleCards();
    var q := Query(Some(""));
    assert q == "";
    EmptyQueryShowsAll(cs, None);
    var n := VisibleCount(Filtered(cs, q));
    assert n == 2;
    CountLabelOfTwo();
  }

  /** What the two example cards are searched by. */
  lemma ExampleSearchText()
    ensures SearchTitle(ExampleCards()[0]) == "alpha" && SearchTitle(ExampleCards()[1]) == "beta"
    ensures SearchDescription(ExampleCards()[0]) == "" && SearchDescription(ExampleCards()[1]) == ""
  {
  }

  lemma TrimWord(w: string)
    requires |w| > 0 && forall i :: 0 <= i < |w| ==> 'a' <= w[i] <= 'z'
    ensures Query(Some(w)) == w
  {
    assert !IsSpace(w[0]) && !IsSpace(w[|w| - 1]);
    assert TrimStart(w) == w;
    assert TrimEnd(w) == w;
    assert Trim(w) == w;
    var l := Lower(w);
    forall i | 0 <= i < |w| ensures l[i] == w[i] {
      assert LowerChar(w[i]) == w[i];
    }
    assert l == w;
  }

  lemma ExampleMatches()
    ensures Matches(ExampleCards()[0], "alpha") && !Matches(ExampleCards()[1], "alpha")
    ensures !Matches(ExampleCards()[0], "zzz") && !Matches(ExampleCards()[1], "zzz")
  {
    ExampleSearchText();
    assert OccursAt("alpha", "alpha", 0);
    LacksFirstChar("alpha", "zzz");
    LacksFirstChar("beta", "zzz");
  }

  lemma ExampleFiltered()
    ensures var r := Filtered(ExampleCards(), "alpha"); |r| == 2 && !r[0].hidden && r[1].hidden
    ensures var r := Filtered(ExampleCards(), "zzz"); |r| == 2 && r[0].hidden && r[1].hidden
  {
    ExampleMatches();
  }

  lemma CountOfPair(r: seq<Card>)
    requires |r| == 2
    ensures VisibleCount(r) == (if r[0].hidden then 0 else 1) + (if r[1].hidden then 0 else 1)
  {
    assert r[..1][..0] == [];
  }

  lemma SmallCountLabels()
    ensures CountLabel(0) == "0 projects" && CountLabel(1) == "1 project"
  {
    assert DecimalString(0) == "0";
    assert DecimalString(1) == "1";
  }

  /** "alpha" keeps only the first card: "1 project". */
  lemma AlphaQueryExample()
    ensures var r := Filtered(ExampleCards(), Query(Some("alpha")));
      !r[0].hidden && r[1].hidden && CountLabel(VisibleCount(r)) == "1 project"
  {
    TrimWord("alpha");
    ExampleFiltered();
    CountOfPair(Filtered(ExampleCards(), "alpha"));
    SmallCountLabels();
  }

  /** "zzz" matches nothing: "0 projects", and the indicator shows. */
  lemma NoMatchExample()
    ensures var r := Filtered(ExampleCards(), Query(Some("zzz")));
      VisibleCount(r) == 0 && CountLabel(VisibleCount(r)) == "0 projects" && NoResultsDisplay(VisibleCount(r) != 0) == "block"
  {
    TrimWord("zzz");
    ExampleFiltered();
    CountOfPair(Filtered(ExampleCards(), "zzz"));
    SmallCountLabels();
  }

  /** `.some(c => !c.hasAttribute('hidden'))` */
  method AnyVisible(cards: array<Card>) returns (found: bool)
    ensures found <==> exists k :: 0 <= k < cards.Length && !cards[k].hidden
  {
    var i := 0;
    while i < cards.Length
      invariant 0 <= i <= cards.Length
      invariant forall k :: 0 <= k < i ==> cards[k].hidden
    {
      if !cards[i].hidden {
        return true;
      }
      i := i + 1;
    }
    return false;
  }

  /** `updateProjectCount`: counts the visible cards and renders the label. */
  method UpdateProjectCount(cards: array<Card>) returns (text: string)
    ensures text == CountLabel(VisibleCount(cards[..]))
  {
    var count := 0;
    var i := 0;
    while i < cards.Length
      invariant 0 <= i <= cards.Length
      invariant count == VisibleCount(cards[..i])
    {
      assert cards[..i + 1][..i] == cards[..i];
      if !cards[i].hidden {
        count := count + 1;
      }
      i := i + 1;
    }
    assert cards[..cards.Length] == cards[..];
    text := CountLabel(count);
  }

  /** The style the "no results" indicator gets. */
  function NoResultsDisplay(anyVisible: bool): (r: string)
    ensures r == "none" <==> anyVisible
    ensures r == "block" <==> !anyVisible
  {
    if anyVisible then "none" else "block"
  }

  /** The card once the filter has looked at it. */
  function Refiltered(c: Card, q: string): Card {
    c.(hidden := !Matches(c, q))
  }

  /** The loop of `filterProjects`: sets or clears each card's `hidden` attribute in place. */
  method HideUnmatched(cards: array<Card>, q: string)
    modifies cards
    ensures cards[..] == Filtered(old(cards[..]), q)
  {
    var i := 0;
    while i < cards.Length
      invariant 0 <= i <= cards.Length
      invariant forall k :: 0 <= k < i ==> cards[k] == Refiltered(old(cards[k]), q)
      invariant forall k :: i <= k < cards.Length ==> cards[k] == old(cards[k])
    {
      var card := cards[i];
      if Matches(card, q) {
        cards[i] := card.(hidden := false);
      } else {
        cards[i] := card.(hidden := true);
      }
      i := i + 1;
    }
  }

  /**
   * The end of `filterProjects`: what the "no results" indicator's `display`
   * and the count element get, from the cards as they now are.
   */
  method ShowResults(cards: array<Card>) returns (noResultsDisplay: string, countLabel: string)
    ensures noResultsDisplay == (if VisibleCount(cards[..]) == 0 then "block" else "none")
    ensures countLabel == CountLabel(VisibleCount(cards[..]))
  {
    ghost var now := cards[..];
    VisibleIffSome(now);
    var anyVisible := AnyVisible(cards);
    assert anyVisible <==> VisibleCount(now) != 0 by {
      if anyVisible {
        var k :| 0 <= k < cards.Length && !cards[k].hidden;
        assert !now[k].hidden;
      }
    }
    noResultsDisplay := NoResultsDisplay(anyVisible);
    countLabel := UpdateProjectCount(cards);
  }

  /**
   * `filterProjects`: filters the cards, then returns what it writes to the
   * "no results" indicator's `display` and to the count element.
   */
  method FilterProjects(cards: array<Card>, input: Option<string>)
    returns (noResultsDisplay: string, countLabel: string)
    modifies cards
    ensures cards[..] == Filtered(old(cards[..]), Query(input))
    ensures noResultsDisplay == (if VisibleCount(cards[..]) == 0 then "block" else "none")
    ensures countLabel == CountLabel(VisibleCount(cards[..]))
  {
    var q := Query(input);
    HideUnmatched(cards, q);
    noResultsDisplay, countLabel := ShowResults(cards);
  }
}
