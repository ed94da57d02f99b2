/**
 * A document of the `hikes` collection as the pages read it, and the label
 * shown for its difficulty.
 */
module HikeDocs {
  import opened Wrappers

  /** One itinerary step of the form. */
  datatype Step = Step(title: string, description: string)

  /**
   * `d.data()` of a hike.  The forms always write title, description,
   * region, difficulty, distance and elevation, so those are plain values;
   * `None` stands for a field that is missing or null.  `image` is a field
   * no form writes; the home page still reads it.
   */
  datatype HikeDoc = HikeDoc(
    title: string,
    description: string,
    region: string,
    difficulty: string,
    distanceKm: real,
    elevationGainM: real,
    itinerary: Option<seq<Step>>,
    imageUrls: Option<seq<string>>,
    gpxPath: Option<string>,
    createdBy: Option<string>,
    image: Option<string>)

  /** One document of a `hikes` snapshot. */
  datatype HikeSnapshot = HikeSnapshot(id: string, doc: HikeDoc)

  const Easy: string := "easy"
  const Moderate: string := "moderate"
  const Hard: string := "hard"

  /**
   * The badge text of a difficulty: anything that is neither `easy` nor
   * `moderate` (including `hard` and a malformed value) reads "Difficile".
   */
  function DifficultyLabel(difficulty: string): (badge: string)
    ensures badge == "Facile" <==> difficulty == Easy
    ensures badge == "Mod\U{E9}r\U{E9}e" <==> difficulty == Moderate
    ensures badge == "Difficile" <==> difficulty != Easy && difficulty != Moderate
  {
    if difficulty == Easy then "Facile"
    else if difficulty == Moderate then "Mod\U{E9}r\U{E9}e"
    else "Difficile"
  }

  /** `imageUrls?.[0]`: the first URL, if the field is an array with one. */
  function FirstUrl(urls: Option<seq<string>>): (first: Option<string>)
    ensures first.Some? <==> urls.Some? && |urls.value| > 0
    ensures first.Some? ==> first.value == urls.value[0]
  {
    if urls.Some? && |urls.value| > 0 then Some(urls.value[0]) else None
  }
}

/**
 * The trail list with its two filters (src/components/hikes/HikeFiltrerList.tsx
 * and its older copy src/components/HikeFiltrerList.tsx, whose filter and
 * region list are the same expressions).
 */
module HikeFilter {
  import opened Seqs

  /** A hike as the list receives it. */
  datatype ListHike = ListHike(id: string, title: string, difficulty: string, region: string, imageUrls: seq<string>)

  /** The value of both filters before any click. */
  const All: string := "all"

  /** The test inside `hikes.filter(...)`. */
  predicate Matches(difficultyFilter: string, regionFilter: string, h: ListHike) {
    (difficultyFilter == All || h.difficulty == difficultyFilter)
    && (regionFilter == All || h.region == regionFilter)
  }

  function MatchFn(difficultyFilter: string, regionFilter: string): ListHike -> bool {
    h => Matches(difficultyFilter, regionFilter, h)
  }

  /** `filteredHikes`. */
  function FilteredHikes(hikes: seq<ListHike>, difficultyFilter: string, regionFilter: string): (r: seq<ListHike>)
    ensures |r| <= |hikes|
    ensures forall i :: 0 <= i < |r| ==>
              (difficultyFilter == All || r[i].difficulty == difficultyFilter)
              && (regionFilter == All || r[i].region == regionFilter)
  {
    Filter(MatchFn(difficultyFilter, regionFilter), hikes)
  }

  /**
   * The list shown is the order-preserving subsequence of `hikes` holding
   * exactly the matching hikes, each as many times as it occurs.
   */
  lemma FilteredIsMatchingSubsequence(hikes: seq<ListHike>, difficultyFilter: string, regionFilter: string)
    ensures IsSubsequence(FilteredHikes(hikes, difficultyFilter, regionFilter), hikes)
    ensures forall h ::
              multiset(FilteredHikes(hikes, difficultyFilter, regionFilter))[h]
              == if Matches(difficultyFilter, regionFilter, h) then multiset(hikes)[h] else 0
  {
    FilterIsSubsequence(MatchFn(difficultyFilter, regionFilter), hikes);
    forall h ensures multiset(FilteredHikes(hikes, difficultyFilter, regionFilter))[h]
                     == if Matches(difficultyFilter, regionFilter, h) then multiset(hikes)[h] else 0 {
      FilterCount(MatchFn(difficultyFilter, regionFilter), hikes, h);
    }
  }

  /** With both filters at their initial value nothing is filtered out. */
  lemma InitialFiltersKeepAll(hikes: seq<ListHike>)
    ensures FilteredHikes(hikes, All, All) == hikes
  {
    FilterAllKept(MatchFn(All, All), hikes);
  }

  /**
   * Filtering by difficulty and region is filtering by difficulty, then by
   * region; a hike is kept by both filters iff each filter alone keeps it.
   */
  lemma FiltersCompose(hikes: seq<ListHike>, difficultyFilter: string, regionFilter: string)
    ensures FilteredHikes(hikes, difficultyFilter, regionFilter)
            == FilteredHikes(FilteredHikes(hikes, difficultyFilter, All), All, regionFilter)
    ensures forall h :: h in FilteredHikes(hikes, difficultyFilter, regionFilter)
              <==> h in FilteredHikes(hikes, difficultyFilter, All) && h in FilteredHikes(hikes, All, regionFilter)
  {
    var pq, p, q := MatchFn(difficultyFilter, regionFilter), MatchFn(difficultyFilter, All), MatchFn(All, regionFilter);
    FilterConjunction(p, q, pq, hikes);
    forall h ensures h in Filter(pq, hikes) <==> h in Filter(p, hikes) && h in Filter(q, hikes) {
      FilterMembership(pq, hikes, h);
      FilterMembership(p, hikes, h);
      FilterMembership(q, hikes, h);
    }
  }

  function RegionOf(h: ListHike): string { h.region }

  /** `regions`: `Array.from(new Set(hikes.map(h => h.region)))`. */
  function Regions(hikes: seq<ListHike>): (r: seq<string>)
    ensures forall i, j :: 0 <= i < j < |r| ==> r[i] != r[j]
    ensures forall i :: 0 <= i < |r| ==> exists k :: 0 <= k < |hikes| && hikes[k].region == r[i]
    ensures forall k :: 0 <= k < |hikes| ==> hikes[k].region in r
  {
    var all := Map(RegionOf, hikes);
    var d := Distinct(all);
    assert forall i :: 0 <= i < |d| ==> exists k :: 0 <= k < |hikes| && hikes[k].region == d[i] by {
      forall i | 0 <= i < |d| ensures exists k :: 0 <= k < |hikes| && hikes[k].region == d[i] {
        var k :| 0 <= k < |all| && all[k] == d[i];
      }
    }
    assert forall k :: 0 <= k < |hikes| ==> hikes[k].region in d by {
      forall k | 0 <= k < |hikes| ensures hikes[k].region in d {
        assert all[k] == hikes[k].region;
      }
    }
    d
  }

  /** The region buttons follow the order in which regions first occur in the list. */
  lemma RegionsInFirstAppearanceOrder(hikes: seq<ListHike>)
    ensures var all, r := Map(RegionOf, hikes), Regions(hikes);
            forall i, j :: 0 <= i < j < |r| ==> FirstIndex(all, r[i]) < FirstIndex(all, r[j])
  {
    DistinctFirstAppearanceOrder(Map(RegionOf, hikes));
  }

  /** Clicking any region button shows at least one hike. */
  lemma RegionButtonNeverEmpty(hikes: seq<ListHike>, region: string)
    requires region in Regions(hikes)
    ensures FilteredHikes(hikes, All, region) != []
  {
    var r := Regions(hikes);
    var i :| 0 <= i < |r| && r[i] == region;
    var k :| 0 <= k < |hikes| && hikes[k].region == region;
    FilterMembership(MatchFn(All, region), hikes, hikes[k]);
  }
}

/** The home page: its snapshot rows and the search box (src/pages/Home.tsx). */
module HomeSearch {
  import opened Wrappers
  import opened Text
  import opened Seqs
  import opened HikeDocs

  /** A row of the home page's `hikes` state. */
  datatype HomeRow = HomeRow(id: string, title: string, difficulty: string, region: string, image: Option<string>)

  /** The row built for one document: id, title, difficulty, region and the `image` field. */
  function RowOf(s: HikeSnapshot): (row: HomeRow)
    ensures row.id == s.id && row.title == s.doc.title && row.region == s.doc.region
    ensures row.difficulty == s.doc.difficulty && row.image == s.doc.image
  {
    HomeRow(s.id, s.doc.title, s.doc.difficulty, s.doc.region, s.doc.image)
  }

  /** The `hikes` state after a snapshot: one row per document, in snapshot order. */
  function Rows(snap: seq<HikeSnapshot>): (rows: seq<HomeRow>)
    ensures |rows| == |snap|
    ensures forall i :: 0 <= i < |snap| ==> rows[i].id == snap[i].id && rows[i] == RowOf(snap[i])
  {
    Map(RowOf, snap)
  }

  /** The search test: the lower-cased title or region contains the lower-cased term. */
  predicate SearchMatches(term: string, h: HomeRow) {
    Contains(Lower(h.title), Lower(term)) || Contains(Lower(h.region), Lower(term))
  }

  function SearchFn(term: string): HomeRow -> bool {
    h => SearchMatches(term, h)
  }

  /** `filteredHikes` of the home page. */
  function Search(hikes: seq<HomeRow>, term: string): (r: seq<HomeRow>)
    ensures |r| <= |hikes|
    ensures forall i :: 0 <= i < |r| ==> SearchMatches(term, r[i])
  {
    Filter(SearchFn(term), hikes)
  }

  /**
   * The search keeps the order of the list, and a row is kept iff its
   * lower-cased title or region contains the lower-cased term (as a
   * contiguous substring).
   */
  lemma SearchKeepsExactlyMatches(hikes: seq<HomeRow>, term: string)
    ensures IsSubsequence(Search(hikes, term), hikes)
    ensures forall h :: h in Search(hikes, term) <==>
              h in hikes
              && ((exists i :: OccursAt(Lower(h.title), Lower(term), i))
                  || (exists i :: OccursAt(Lower(h.region), Lower(term), i)))
  {
    FilterIsSubsequence(SearchFn(term), hikes);
    forall h ensures h in Search(hikes, term) <==>
                       h in hikes
                       && ((exists i :: OccursAt(Lower(h.title), Lower(term), i))
                           || (exists i :: OccursAt(Lower(h.region), Lower(term), i))) {
      FilterMembership(SearchFn(term), hikes, h);
      ContainsIffOccurs(Lower(h.title), Lower(term));
      ContainsIffOccurs(Lower(h.region), Lower(term));
    }
  }

  /** The initial empty search term shows every hike. */
  lemma EmptySearchKeepsAll(hikes: seq<HomeRow>)
    ensures Search(hikes, "") == hikes
  {
    forall i | 0 <= i < |hikes| ensures SearchMatches("", hikes[i]) {
      ContainsEmpty(Lower(hikes[i].title));
    }
    FilterAllKept(SearchFn(""), hikes);
  }

  /** Terms that differ only in letter case find the same hikes. */
  lemma SearchIgnoresCase(hikes: seq<HomeRow>, term1: string, term2: string)
    requires Lower(term1) == Lower(term2)
    ensures Search(hikes, term1) == Search(hikes, term2)
  {
    FilterExtensional(SearchFn(term1), SearchFn(term2), hikes);
  }

  /** In particular, typing the term in lower case changes nothing. */
  lemma SearchSameAsLowercased(hikes: seq<HomeRow>, term: string)
    ensures Search(hikes, Lower(term)) == Search(hikes, term)
  {
    LowerIdempotent(term);
    SearchIgnoresCase(hikes, Lower(term), term);
  }
}

/**
 * The featured grid (`HikeTilesWithButton`) in its two copies:
 * HikeFeatureTiles.tsx at the repository root, used by the home page with
 * its rows, and src/components/hikes/HikeFeatureTiles.tsx.  Both take the
 * first three hikes, splice the call-to-action tile in at index 1 of a copy,
 * keep at most four items and render nothing below two.
 */
module FeatureTiles {
  import opened Wrappers
  import opened Seqs
  import opened HikeDocs
  import opened HomeSearch

  datatype GridItem<H> = Card(hike: H) | Cta(link: string)

  const ListLink: string := "/hikes/list"
  const DefaultCardImage: string := "/images/home-bg.jpg"

  function CardOf<H>(h: H): GridItem<H> { Card(h) }

  /** Where the call-to-action tile ends up: index 1, or 0 when the list is empty (`splice` clamps). */
  function CtaIndex(n: nat): nat { if n == 0 then 0 else 1 }

  /**
   * The grid items and whether the section is rendered.  The cards are the
   * first `min(n, 3)` hikes in order with the call-to-action after the
   * first; it is the only call-to-action; the grid has at most four items,
   * so the final `slice(0, 4)` drops nothing; the section is rendered iff
   * there is at least one hike.
   */
  method ComposeGrid<H>(hikes: seq<H>) returns (finalItems: seq<GridItem<H>>, rendered: bool)
    ensures |finalItems| == (if |hikes| < 3 then |hikes| else 3) + 1 && |finalItems| <= 4
    ensures finalItems[CtaIndex(|hikes|)] == Cta(ListLink)
    ensures forall j :: 0 <= j < |finalItems| && finalItems[j].Cta? ==> j == CtaIndex(|hikes|)
    ensures |hikes| > 0 ==> finalItems[0] == Card(hikes[0])
    ensures forall j :: 2 <= j < |finalItems| ==> finalItems[j] == Card(hikes[j - 1])
    ensures rendered <==> |hikes| > 0
  {
    var featuredHikes := Take(hikes, 3);
    var gridItems := Map(CardOf, featuredHikes);
    gridItems := InsertAt(gridItems, 1, Cta(ListLink));
    finalItems := Take(gridItems, 4);
    rendered := !(|finalItems| < 2);
  }

  /** `image || '/images/home-bg.jpg'`: an absent or empty image falls back to the default picture. */
  function CardImage(image: Option<string>): (src: string)
    ensures src != ""
    ensures image.Some? && image.value != "" ==> src == image.value
    ensures image.None? || image.value == "" ==> src == DefaultCardImage
  {
    if image.Some? && image.value != "" then image.value else DefaultCardImage
  }

  /** The card picture of src/components/hikes/HikeFeatureTiles.tsx: the hike's first `imageUrls` entry. */
  function FeaturedCardImage(imageUrls: Option<seq<string>>): (src: string)
    ensures imageUrls.Some? && |imageUrls.value| > 0 && imageUrls.value[0] != "" ==> src == imageUrls.value[0]
    ensures imageUrls.None? || |imageUrls.value| == 0 || imageUrls.value[0] == "" ==> src == DefaultCardImage
  {
    CardImage(FirstUrl(imageUrls))
  }

  /** The card picture of the root copy, which spreads the home row into the card: its `image` field. */
  function HomeCardImage(row: HomeRow): (src: string)
    ensures row.image.Some? && row.image.value != "" ==> src == row.image.value
    ensures row.image.None? || row.image.value == "" ==> src == DefaultCardImage
  {
    CardImage(row.image)
  }

  /**
   * As written, the home page's cards never show an uploaded picture: a
   * hike saved by the forms has `imageUrls` but no `image`, and the home
   * row copies only `image`.
   */
  lemma HomeCardIgnoresUploads(s: HikeSnapshot)
    requires s.doc.image.None?
    ensures HomeCardImage(RowOf(s)) == DefaultCardImage
  {
  }

  /** A concrete hike with one uploaded picture whose home card still shows the default. */
  lemma HomeCardIgnoresUploadsExample()
    ensures var s := HikeSnapshot("h1", HikeDoc("Lac Blanc", "Une belle boucle", "Chamonix", Easy, 8.5, 700.0,
                                            Some([]), Some(["https://img/1.jpg"]), None, Some("u1"), None));
            HomeCardImage(RowOf(s)) == DefaultCardImage
            && FeaturedCardImage(s.doc.imageUrls) == "https://img/1.jpg"
  {
  }

  /** The row the home page evidently means to build: the picture is the first uploaded URL. */
  function RowOfIntended(s: HikeSnapshot): (row: HomeRow)
    ensures row.id == s.id && row.title == s.doc.title && row.region == s.doc.region
    ensures row.difficulty == s.doc.difficulty
    ensures row.image == FirstUrl(s.doc.imageUrls)
  {
    HomeRow(s.id, s.doc.title, s.doc.difficulty, s.doc.region, FirstUrl(s.doc.imageUrls))
  }

  /** With the intended row, the home card and the featured card of the other copy agree. */
  lemma IntendedHomeCardShowsFirstUpload(s: HikeSnapshot)
    ensures HomeCardImage(RowOfIntended(s)) == FeaturedCardImage(s.doc.imageUrls)
  {
  }

  /** The intended row changes only the picture: the search sees the same title and region. */
  lemma IntendedRowSearchesAlike(s: HikeSnapshot, term: string)
    ensures SearchMatches(term, RowOfIntended(s)) == SearchMatches(term, RowOf(s))
  {
  }
}
