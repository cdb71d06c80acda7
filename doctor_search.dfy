/** The doctor search page: the five-star rating row of each doctor card,
    the query sent to the doctor listing, the Prev/Next page clamps and the
    search, filter and reset handlers that drive them. The fetches
    themselves are outside the model; their results arrive as method
    parameters. */
module DoctorSearch {
  import opened JsText
  import opened ListOps
  import DoctorProfile

  // ---------------------------------------------------------------------
  // Star row

  /** The three star icons: filled, half filled and grey. */
  datatype Star = Full | Half | Empty

  /** The icon at position `i` (0 to 4): full below `Math.floor(rating)`,
      half exactly there when `rating % 1 >= 0.5`, grey otherwise. */
  function StarAt(i: int, rating: real): Star
  {
    if i < rating.Floor then Full
    else if i == rating.Floor && JsFrac(rating) >= 0.5 then Half
    else Empty
  }

  /** The row the card shows: always five icons. */
  function SearchStars(rating: real): (row: seq<Star>)
    ensures |row| == 5
  {
    seq(5, i requires 0 <= i < 5 => StarAt(i, rating))
  }

  /** `renderStars`: one icon pushed per position, five positions. */
  method RenderStars(rating: real) returns (stars: seq<Star>)
    ensures stars == SearchStars(rating)
  {
    var fullStars := rating.Floor;
    var hasHalfStar := JsFrac(rating) >= 0.5;
    stars := [];
    for i := 0 to 5
      invariant |stars| == i
      invariant forall k :: 0 <= k < i ==> stars[k] == StarAt(k, rating)
    {
      if i < fullStars {
        stars := stars + [Full];
      } else if i == fullStars && hasHalfStar {
        stars := stars + [Half];
      } else {
        stars := stars + [Empty];
      }
    }
  }

  /** The position of an icon in the order full, half, grey. */
  function Rank(s: Star): int
  {
    match s
    case Full => 0
    case Half => 1
    case Empty => 2
  }

  /** Full icons come first, then at most one half icon, then grey ones;
      a half icon appears exactly when the rating's fraction is at least
      one half and its whole part is below five. */
  lemma SearchStarsOrdered(rating: real)
    ensures var row := SearchStars(rating);
      && (forall i, j :: 0 <= i < j < 5 ==> Rank(row[i]) <= Rank(row[j]))
      && (forall i, j :: 0 <= i < 5 && 0 <= j < 5 && row[i] == Half && row[j] == Half ==> i == j)
      && ((exists i :: 0 <= i < 5 && row[i] == Half) <==> 0 <= rating.Floor < 5 && JsFrac(rating) >= 0.5)
  {
    var row := SearchStars(rating);
    if 0 <= rating.Floor < 5 && JsFrac(rating) >= 0.5 {
      assert row[rating.Floor] == Half;
    }
  }

  /** A zero, negative or missing rating shows five grey icons; a rating of
      five or more shows five full ones. */
  lemma SearchStarsExtremes(rating: real)
    ensures rating < 0.5 ==> SearchStars(rating) == [Empty, Empty, Empty, Empty, Empty]
    ensures rating >= 5.0 ==> SearchStars(rating) == [Full, Full, Full, Full, Full]
  {
    if rating < 0.0 {
      assert JsFrac(rating) <= 0.0;
    }
  }

  /** The search card and the profile page agree on which of the five stars
      are full. */
  lemma SearchStarsAgreeWithProfile(rating: real)
    ensures forall i :: 0 <= i < 5 ==> (SearchStars(rating)[i] == Full <==> DoctorProfile.StarRow(rating)[i])
  {
  }

  // ---------------------------------------------------------------------
  // Query parameters

  /** The parameter object passed to the doctor listing. */
  datatype Query = Query(
    page: int,
    limit: int,
    search: string,
    specialty: Option<string>,
    minRating: Option<real>,
    minExperience: Option<string>)

  /** The page size of the listing. */
  const PageSize := 6

  /** `fetchDoctors`' params: page, limit and search always; each filter
      only when it is set (a non-empty text, a positive rating). */
  function QueryParams(page: int, search: string, specialty: string, rating: real, experience: string): (q: Query)
    ensures q.page == page && q.limit == PageSize && q.search == search
    ensures q.specialty.Some? <==> specialty != ""
    ensures q.minRating.Some? <==> rating > 0.0
    ensures q.minExperience.Some? <==> experience != ""
  {
    Query(page, PageSize, search,
      if specialty != "" then Some(specialty) else None,
      if rating > 0.0 then Some(rating) else None,
      if experience != "" then Some(experience) else None)
  }

  /** The filters a query asks for, with absent ones read as the page's
      "no filter" values. */
  function FiltersOf(q: Query): (string, real, string)
  {
    (if q.specialty.Some? then q.specialty.value else "",
     if q.minRating.Some? then q.minRating.value else 0.0,
     if q.minExperience.Some? then q.minExperience.value else "")
  }

  /** The query carries the selected filters: reading them back gives the
      selection, with any non-positive rating read as "show all". */
  lemma QueryCarriesFilters(page: int, search: string, specialty: string, rating: real, experience: string)
    ensures FiltersOf(QueryParams(page, search, specialty, rating, experience))
      == (specialty, if rating > 0.0 then rating else 0.0, experience)
  {
  }

  // ---------------------------------------------------------------------
  // Pagination

  /** Prev: `Math.max(prev - 1, 1)`. */
  function PrevPage(p: int): int { Max(p - 1, 1) }

  /** Next: `Math.min(prev + 1, totalPages)`. */
  function NextPage(p: int, totalPages: int): int { Min(p + 1, totalPages) }

  /** From a page within range both clamps stay within range, move by at
      most one, and stay put exactly at the first or last page. */
  lemma PageClampsInRange(p: int, totalPages: int)
    requires 1 <= p <= totalPages
    ensures 1 <= PrevPage(p) <= p && p - 1 <= PrevPage(p)
    ensures p <= NextPage(p, totalPages) <= totalPages && NextPage(p, totalPages) <= p + 1
    ensures PrevPage(p) == p <==> p == 1
    ensures NextPage(p, totalPages) == p <==> p == totalPages
  {
  }

  /** The pager is shown when nothing is loading, some doctor is listed and
      there is more than one page. */
  predicate ShowPagination(loading: bool, doctorCount: int, totalPages: int)
  {
    !loading && doctorCount > 0 && totalPages > 1
  }

  // ---------------------------------------------------------------------
  // Page state

  /** The search page's state. `isInitialLoad` is the top-doctors mode: while
      it holds, the filtered listing is not fetched. */
  class SearchPage {
    var searchTerm: string
    var selectedSpecialty: string
    var selectedRating: real
    var selectedExperience: string
    var currentPage: int
    var totalPages: int
    var isInitialLoad: bool

    /** Pages are numbered from 1. */
    predicate Valid()
      reads this
    {
      currentPage >= 1
    }

    /** The query the listing is fetched with. */
    function CurrentQuery(): Query
      reads this
    {
      QueryParams(currentPage, searchTerm, selectedSpecialty, selectedRating, selectedExperience)
    }

    constructor()
      ensures Valid() && isInitialLoad && currentPage == 1 && totalPages == 1
      ensures searchTerm == "" && selectedSpecialty == "" && selectedRating == 0.0 && selectedExperience == ""
    {
      searchTerm := "";
      selectedSpecialty := "";
      selectedRating := 0.0;
      selectedExperience := "";
      currentPage := 1;
      totalPages := 1;
      isInitialLoad := true;
    }

    /** Submitting the search form: back to page 1 of the filtered listing. */
    method HandleSearch()
      requires Valid()
      modifies this
      ensures Valid() && currentPage == 1 && !isInitialLoad
      ensures searchTerm == old(searchTerm) && selectedSpecialty == old(selectedSpecialty)
      ensures selectedRating == old(selectedRating) && selectedExperience == old(selectedExperience)
      ensures totalPages == old(totalPages)
    {
      currentPage := 1;
      isInitialLoad := false;
    }

    /** Typing in the search box: page 1 of the filtered listing, or back to
        top-doctors mode when the box is cleared. */
    method HandleSearchInputChange(value: string)
      requires Valid()
      modifies this
      ensures Valid() && searchTerm == value && currentPage == 1
      ensures isInitialLoad <==> value == ""
      ensures selectedSpecialty == old(selectedSpecialty) && selectedRating == old(selectedRating)
      ensures selectedExperience == old(selectedExperience) && totalPages == old(totalPages)
    {
      searchTerm := value;
      currentPage := 1;
      isInitialLoad := false;
      if value == "" {
        isInitialLoad := true;
      }
    }

    /** Any filter change: page 1 of the filtered listing. */
    method HandleFilterChange()
      requires Valid()
      modifies this
      ensures Valid() && currentPage == 1 && !isInitialLoad
      ensures searchTerm == old(searchTerm) && selectedSpecialty == old(selectedSpecialty)
      ensures selectedRating == old(selectedRating) && selectedExperience == old(selectedExperience)
      ensures totalPages == old(totalPages)
    {
      currentPage := 1;
      isInitialLoad := false;
    }

    /** Picking a rating radio ("Show all" is 0). */
    method SelectRating(rating: real)
      requires Valid()
      modifies this
      ensures Valid() && selectedRating == rating && currentPage == 1 && !isInitialLoad
      ensures searchTerm == old(searchTerm) && selectedSpecialty == old(selectedSpecialty)
      ensures selectedExperience == old(selectedExperience) && totalPages == old(totalPages)
    {
      selectedRating := rating;
      HandleFilterChange();
    }

    /** Picking an experience radio. */
    method SelectExperience(experience: string)
      requires Valid()
      modifies this
      ensures Valid() && selectedExperience == experience && currentPage == 1 && !isInitialLoad
      ensures searchTerm == old(searchTerm) && selectedSpecialty == old(selectedSpecialty)
      ensures selectedRating == old(selectedRating) && totalPages == old(totalPages)
    {
      selectedExperience := experience;
      HandleFilterChange();
    }

    /** Picking a specialty radio ("All specialties" is ""). */
    method SelectSpecialty(specialty: string)
      requires Valid()
      modifies this
      ensures Valid() && selectedSpecialty == specialty && currentPage == 1 && !isInitialLoad
      ensures searchTerm == old(searchTerm) && selectedRating == old(selectedRating)
      ensures selectedExperience == old(selectedExperience) && totalPages == old(totalPages)
    {
      selectedSpecialty := specialty;
      HandleFilterChange();
    }

    /** Reset: every filter cleared, page 1 of the filtered listing, whose
        query then carries the search text alone. */
    method HandleResetFilters()
      requires Valid()
      modifies this
      ensures Valid() && currentPage == 1 && !isInitialLoad
      ensures selectedRating == 0.0 && selectedExperience == "" && selectedSpecialty == ""
      ensures searchTerm == old(searchTerm) && totalPages == old(totalPages)
      ensures CurrentQuery() == Query(1, PageSize, searchTerm, None, None, None)
    {
      selectedRating := 0.0;
      selectedExperience := "";
      selectedSpecialty := "";
      HandleFilterChange();
    }

    /** "View top doctors instead": search and filters cleared, back to
        top-doctors mode. */
    method ViewTopDoctors()
      requires Valid()
      modifies this
      ensures Valid() && isInitialLoad
      ensures searchTerm == "" && selectedRating == 0.0 && selectedExperience == "" && selectedSpecialty == ""
      ensures currentPage == old(currentPage) && totalPages == old(totalPages)
    {
      searchTerm := "";
      selectedRating := 0.0;
      selectedExperience := "";
      selectedSpecialty := "";
      isInitialLoad := true;
    }

    /** The top-doctors list has arrived: a single page. */
    method TopDoctorsLoaded()
      modifies this
      ensures totalPages == 1
      ensures searchTerm == old(searchTerm) && selectedSpecialty == old(selectedSpecialty)
      ensures selectedRating == old(selectedRating) && selectedExperience == old(selectedExperience)
      ensures currentPage == old(currentPage) && isInitialLoad == old(isInitialLoad)
    {
      totalPages := 1;
    }

    /** The filtered listing has arrived with the backend's page count. */
    method DoctorsLoaded(pages: int)
      modifies this
      ensures totalPages == pages
      ensures searchTerm == old(searchTerm) && selectedSpecialty == old(selectedSpecialty)
      ensures selectedRating == old(selectedRating) && selectedExperience == old(selectedExperience)
      ensures currentPage == old(currentPage) && isInitialLoad == old(isInitialLoad)
    {
      totalPages := pages;
    }

    /** The Prev button, rendered only while the pager is shown. */
    method Prev(loading: bool, doctorCount: int)
      requires Valid() && ShowPagination(loading, doctorCount, totalPages)
      modifies this
      ensures Valid() && currentPage == PrevPage(old(currentPage))
      ensures old(currentPage) <= totalPages ==> currentPage <= totalPages
      ensures searchTerm == old(searchTerm) && selectedSpecialty == old(selectedSpecialty)
      ensures selectedRating == old(selectedRating) && selectedExperience == old(selectedExperience)
      ensures totalPages == old(totalPages) && isInitialLoad == old(isInitialLoad)
    {
      currentPage := PrevPage(currentPage);
    }

    /** The Next button, rendered only while the pager is shown, so with
        more than one page. */
    method Next(loading: bool, doctorCount: int)
      requires Valid() && ShowPagination(loading, doctorCount, totalPages)
      modifies this
      ensures Valid() && currentPage == NextPage(old(currentPage), totalPages)
      ensures currentPage <= totalPages
      ensures searchTerm == old(searchTerm) && selectedSpecialty == old(selectedSpecialty)
      ensures selectedRating == old(selectedRating) && selectedExperience == old(selectedExperience)
      ensures totalPages == old(totalPages) && isInitialLoad == old(isInitialLoad)
    {
      currentPage := NextPage(currentPage, totalPages);
    }

    /** The numbered button `i + 1`, one for each `i` below `totalPages`,
        rendered only while the pager is shown. */
    method GoToPage(loading: bool, doctorCount: int, i: int)
      requires Valid() && ShowPagination(loading, doctorCount, totalPages) && 0 <= i < totalPages
      modifies this
      ensures Valid() && currentPage == i + 1 && currentPage <= totalPages
      ensures searchTerm == old(searchTerm) && selectedSpecialty == old(selectedSpecialty)
      ensures selectedRating == old(selectedRating) && selectedExperience == old(selectedExperience)
      ensures totalPages == old(totalPages) && isInitialLoad == old(isInitialLoad)
    {
      currentPage := i + 1;
    }
  }
}
