/** The public catalogue: search by title or author, a genre dropdown built
    from the catalogue, a sort dropdown, and the borrow button. */
module Catalog {
  import opened Text
  import opened Query

  datatype Book = Book(
    id: int,
    title: string,
    author: string,
    genre: string,
    description: string,
    availableQuantity: int,
    totalQuantity: int,
    publicationYear: int,
    isbn: string)

  // ---------------------------------------------------------------------------
  // The search, genre and sort effect

  function TitleOrAuthor(term: string): Book -> bool {
    (b: Book) => ContainsIgnoringCase(b.title, term) || ContainsIgnoringCase(b.author, term)
  }

  /** The search runs only for a non-empty term. */
  function SearchStep(bs: seq<Book>, term: string): seq<Book> {
    if term != "" then Filter(bs, TitleOrAuthor(term)) else bs
  }

  function GenreIs(genre: string): Book -> bool {
    (b: Book) => b.genre == genre
  }

  /** The genre dropdown; the empty value means every genre. */
  function GenreStep(bs: seq<Book>, genre: string): seq<Book> {
    if genre != "" then Filter(bs, GenreIs(genre)) else bs
  }

  /** The comparator of the sort dropdown: title and author by `localeCompare`,
      year and availability with the larger number first, anything else equal. */
  function Compare(sortBy: string, localeCompare: (string, string) -> int, a: Book, b: Book): int {
    match sortBy
    case "title" => localeCompare(a.title, b.title)
    case "author" => localeCompare(a.author, b.author)
    case "year" => b.publicationYear - a.publicationYear
    case "availability" => b.availableQuantity - a.availableQuantity
    case _ => 0
  }

  function ComparatorFor(sortBy: string, localeCompare: (string, string) -> int): (Book, Book) -> int {
    (a: Book, b: Book) => Compare(sortBy, localeCompare, a, b)
  }

  function FilteredCatalogue(bs: seq<Book>, term: string, genre: string): seq<Book> {
    GenreStep(SearchStep(bs, term), genre)
  }

  /** `filteredBooks` once the effect has run. */
  function Displayed(bs: seq<Book>, term: string, genre: string, sortBy: string,
                     localeCompare: (string, string) -> int): seq<Book> {
    SortBy(FilteredCatalogue(bs, term, genre), ComparatorFor(sortBy, localeCompare))
  }

  /** A book passes exactly when it matches the search (always, for an empty
      term) and the genre (always, for the empty genre); with neither the whole
      catalogue passes in its order. */
  lemma FilteredCatalogueSpec(bs: seq<Book>, term: string, genre: string, b: Book)
    ensures b in FilteredCatalogue(bs, term, genre) <==>
            && b in bs
            && (term == "" || ContainsIgnoringCase(b.title, term) || ContainsIgnoringCase(b.author, term))
            && (genre == "" || b.genre == genre)
    ensures FilteredCatalogue(bs, "", "") == bs
  {
    var s := SearchStep(bs, term);
    if term != "" {
      FilterMembership(bs, TitleOrAuthor(term), b);
    }
    if genre != "" {
      FilterMembership(s, GenreIs(genre), b);
    }
  }

  /** The search step followed by the genre step is one filter by both
      conditions together. */
  lemma FilterStepsCombine(bs: seq<Book>, term: string, genre: string)
    requires term != "" && genre != ""
    ensures FilteredCatalogue(bs, term, genre) ==
            Filter(bs, (b: Book) => (ContainsIgnoringCase(b.title, term) || ContainsIgnoringCase(b.author, term))
                                    && b.genre == genre)
  {
    FilterFilter(bs, TitleOrAuthor(term), GenreIs(genre),
                 (b: Book) => (ContainsIgnoringCase(b.title, term) || ContainsIgnoringCase(b.author, term))
                              && b.genre == genre);
  }

  /** An empty term and a search for the empty string agree, since the empty
      string occurs in every title. */
  lemma EmptySearchSkipsNothing(bs: seq<Book>)
    ensures Filter(bs, TitleOrAuthor("")) == SearchStep(bs, "")
  {
    forall k | 0 <= k < |bs| ensures TitleOrAuthor("")(bs[k]) {
      EmptyIsContainedIgnoringCase(bs[k].title);
    }
    FilterKeepsAll(bs, TitleOrAuthor(""));
  }

  /** The displayed list is a reordering of the books that pass, so the
      "livre(s) trouvé(s)" count is the number that pass. */
  lemma DisplayedIsPermutation(bs: seq<Book>, term: string, genre: string, sortBy: string,
                               localeCompare: (string, string) -> int)
    ensures multiset(Displayed(bs, term, genre, sortBy, localeCompare)) == multiset(FilteredCatalogue(bs, term, genre))
    ensures |Displayed(bs, term, genre, sortBy, localeCompare)| == |FilteredCatalogue(bs, term, genre)|
  {
    SortByPermutation(FilteredCatalogue(bs, term, genre), ComparatorFor(sortBy, localeCompare));
  }

  lemma ComparatorIsTotalPreorder(sortBy: string, localeCompare: (string, string) -> int)
    requires IsTotalPreorder(localeCompare) || sortBy !in {"title", "author"}
    ensures IsTotalPreorder(ComparatorFor(sortBy, localeCompare))
  {
    var c := ComparatorFor(sortBy, localeCompare);
    if sortBy == "title" {
      forall a: Book, b: Book ensures c(a, b) <= 0 || c(b, a) <= 0 {
        assert localeCompare(a.title, b.title) <= 0 || localeCompare(b.title, a.title) <= 0;
      }
      forall a: Book, b: Book, d: Book | c(a, b) <= 0 && c(b, d) <= 0 ensures c(a, d) <= 0 {
        assert localeCompare(a.title, b.title) <= 0 && localeCompare(b.title, d.title) <= 0;
      }
    } else if sortBy == "author" {
      forall a: Book, b: Book ensures c(a, b) <= 0 || c(b, a) <= 0 {
        assert localeCompare(a.author, b.author) <= 0 || localeCompare(b.author, a.author) <= 0;
      }
      forall a: Book, b: Book, d: Book | c(a, b) <= 0 && c(b, d) <= 0 ensures c(a, d) <= 0 {
        assert localeCompare(a.author, b.author) <= 0 && localeCompare(b.author, d.author) <= 0;
      }
    }
  }

  /** Year and availability put the larger number first; by availability every
      book that can be borrowed comes before every book that cannot. */
  lemma DisplayedNumberOrder(bs: seq<Book>, term: string, genre: string, sortBy: string,
                             localeCompare: (string, string) -> int, i: int, j: int)
    requires 0 <= i < j < |Displayed(bs, term, genre, sortBy, localeCompare)|
    ensures var d := Displayed(bs, term, genre, sortBy, localeCompare);
            && (sortBy == "year" ==> d[i].publicationYear >= d[j].publicationYear)
            && (sortBy == "availability" ==> d[i].availableQuantity >= d[j].availableQuantity)
            && (sortBy == "availability" && CanBorrow(d[j]) ==> CanBorrow(d[i]))
  {
    if sortBy == "year" || sortBy == "availability" {
      ComparatorIsTotalPreorder(sortBy, localeCompare);
      SortBySorted(FilteredCatalogue(bs, term, genre), ComparatorFor(sortBy, localeCompare));
    }
  }

  lemma DisplayedTextOrder(bs: seq<Book>, term: string, genre: string, sortBy: string,
                           localeCompare: (string, string) -> int, i: int, j: int)
    requires IsTotalPreorder(localeCompare)
    requires 0 <= i < j < |Displayed(bs, term, genre, sortBy, localeCompare)|
    ensures var d := Displayed(bs, term, genre, sortBy, localeCompare);
            && (sortBy == "title" ==> localeCompare(d[i].title, d[j].title) <= 0)
            && (sortBy == "author" ==> localeCompare(d[i].author, d[j].author) <= 0)
  {
    ComparatorIsTotalPreorder(sortBy, localeCompare);
    SortBySorted(FilteredCatalogue(bs, term, genre), ComparatorFor(sortBy, localeCompare));
  }

  lemma UnknownKeyKeepsOrder(bs: seq<Book>, term: string, genre: string, sortBy: string,
                             localeCompare: (string, string) -> int)
    requires sortBy !in {"title", "author", "year", "availability"}
    ensures Displayed(bs, term, genre, sortBy, localeCompare) == FilteredCatalogue(bs, term, genre)
  {
    SortByKeepsSorted(FilteredCatalogue(bs, term, genre), ComparatorFor(sortBy, localeCompare));
  }

  /** "Emprunter" is offered for a book with a copy left; otherwise "Non disponible". */
  predicate CanBorrow(b: Book) {
    b.availableQuantity > 0
  }

  function GenreOf(b: Book): string { b.genre }

  /** `Array.from(new Set(books.map(book => book.genre)))`. */
  function Genres(bs: seq<Book>): seq<string> {
    Distinct(Column(bs, GenreOf))
  }

  /** Every genre of the catalogue appears once, nothing else appears, in order
      of first appearance; so choosing a listed genre always shows a book. */
  lemma GenresSpec(bs: seq<Book>, i: nat, j: nat, genre: string)
    ensures NoDuplicates(Genres(bs))
    ensures forall k :: 0 <= k < |bs| ==> bs[k].genre in Genres(bs)
    ensures genre in Genres(bs) ==> FilteredCatalogue(bs, "", genre) != []
    ensures i < j < |Genres(bs)| ==>
              FirstIndex(Column(bs, GenreOf), Genres(bs)[i]) < FirstIndex(Column(bs, GenreOf), Genres(bs)[j])
  {
    DistinctColumnSpec(bs, GenreOf, i, j);
    if genre in Genres(bs) {
      var m := FirstIndex(Column(bs, GenreOf), genre);
      FilteredCatalogueSpec(bs, "", genre, bs[m]);
    }
  }

  // ---------------------------------------------------------------------------
  // The page state

  class Page {
    var books: seq<Book>
    var filteredBooks: seq<Book>
    var searchTerm: string
    var selectedGenre: string
    var sortBy: string
    var genres: seq<string>

    /** The mount effect: the catalogue, shown unfiltered, and its genres. */
    constructor (catalogue: seq<Book>)
      ensures books == catalogue && filteredBooks == catalogue && genres == Genres(catalogue)
      ensures searchTerm == "" && selectedGenre == "" && sortBy == "title"
    {
      books := catalogue;
      filteredBooks := catalogue;
      genres := Genres(catalogue);
      searchTerm := "";
      selectedGenre := "";
      sortBy := "title";
    }

    /** The filter effect. `filtered` starts as the `books` array itself, each
        filter replaces it with a new array, and `filtered.sort` sorts in place,
        so with no search and no genre it reorders `books`. */
    method ApplyFilters(localeCompare: (string, string) -> int)
      modifies this
      ensures filteredBooks == Displayed(old(books), searchTerm, selectedGenre, sortBy, localeCompare)
      ensures books == if searchTerm == "" && selectedGenre == "" then filteredBooks else old(books)
      ensures searchTerm == old(searchTerm) && selectedGenre == old(selectedGenre)
      ensures sortBy == old(sortBy) && genres == old(genres)
    {
      var filtered := books;
      var aliased := true;
      if searchTerm != "" {
        filtered := Filter(filtered, TitleOrAuthor(searchTerm));
        aliased := false;
      }
      if selectedGenre != "" {
        filtered := Filter(filtered, GenreIs(selectedGenre));
        aliased := false;
      }
      filtered := SortBy(filtered, ComparatorFor(sortBy, localeCompare));
      if aliased {
        books := filtered;
      }
      filteredBooks := filtered;
    }
  }
}
