/** The authors page of src/pages/Escritores.jsx: the letter filter, the
    "show more" prefix and the page chunking of the catalogue download. */
module EscritoresPage {
  import opened JsText
  import opened Entities
  import opened Paging

  /** Authors shown before "VER MÁS AUTORES" is pressed, and after every filter change. */
  const InitialVisible: nat := 6
  /** Authors per page of the downloaded catalogue. */
  const ItemsPerPage: nat := 1

  /** The letters of the filter bar, `'ABCDEFGHIJKLMNOPQRSTUVWXYZ'.split('')`. */
  predicate IsFilterLetter(letter: string) {
    |letter| == 1 && 'A' <= letter[0] <= 'Z'
  }

  /** The ASCII capital that `c.toUpperCase()` starts with, when it starts with
      one: the ASCII letters, and the characters whose full upper-case mapping
      begins with an ASCII capital (ß, ſ, ı, ǰ, ẖ, ẗ, ẘ, ẙ, ẚ and the Latin
      ligatures ﬀ to ﬆ). */
  function UpperHeadAscii(c: char): (r: Option<char>)
    ensures r.Some? ==> 'A' <= r.value <= 'Z'
    ensures 'A' <= c <= 'Z' ==> r == Some(c)
    ensures 'a' <= c <= 'z' ==> r == Some(c - 'a' + 'A')
    ensures c as int < 128 && !('A' <= c <= 'Z') && !('a' <= c <= 'z') ==> r == None
  {
    if 'A' <= c <= 'Z' then Some(c)
    else if 'a' <= c <= 'z' then Some(c - 'a' + 'A')
    else if c == '\U{DF}' || c == '\U{17F}' || c == '\U{FB05}' || c == '\U{FB06}' then Some('S')
    else if c == '\U{131}' then Some('I')
    else if c == '\U{1F0}' then Some('J')
    else if c == '\U{1E96}' then Some('H')
    else if c == '\U{1E97}' then Some('T')
    else if c == '\U{1E98}' then Some('W')
    else if c == '\U{1E99}' then Some('Y')
    else if c == '\U{1E9A}' then Some('A')
    else if '\U{FB00}' <= c <= '\U{FB04}' then Some('F')
    else None
  }

  /** `nombre.toUpperCase().startsWith(letter)` for a letter of the filter bar. */
  predicate StartsWithLetter(nombre: string, letter: string): (starts: bool)
    requires IsFilterLetter(letter)
    ensures starts ==> |nombre| > 0
    ensures |nombre| > 0 && 'A' <= nombre[0] <= 'Z' ==> (starts <==> nombre[0] == letter[0])
    ensures |nombre| > 0 && 'a' <= nombre[0] <= 'z' ==> (starts <==> nombre[0] - 'a' + 'A' == letter[0])
  {
    |nombre| > 0 && UpperHeadAscii(nombre[0]) == Some(letter[0])
  }

  /** The list `handleFilter(letter)` shows. */
  function LetterFilter(autores: seq<Author>, letter: string): (shown: seq<Author>)
    requires letter == "" || IsFilterLetter(letter)
    ensures |shown| <= |autores|
  {
    if letter == "" then autores
    else Filter(autores, (a: Author) => StartsWithLetter(a.nombre, letter))
  }

  /** "Todos" shows every author. */
  lemma AllLettersShowsAll(autores: seq<Author>)
    ensures LetterFilter(autores, "") == autores
  {
  }

  /** A letter keeps exactly the authors whose upper-cased name starts with it,
      each as often as it occurs. */
  lemma LetterFilterSelects(autores: seq<Author>, letter: string)
    requires IsFilterLetter(letter)
    ensures var shown := LetterFilter(autores, letter);
      forall i :: 0 <= i < |shown| ==> StartsWithLetter(shown[i].nombre, letter)
    ensures var shown := LetterFilter(autores, letter);
      forall a :: multiset(shown)[a] == (if StartsWithLetter(a.nombre, letter) then multiset(autores)[a] else 0)
  {
    FilterSatisfies(autores, (a: Author) => StartsWithLetter(a.nombre, letter));
    FilterCounts(autores, (a: Author) => StartsWithLetter(a.nombre, letter));
  }

  /** The filtered list keeps the original order: filtering a concatenation
      concatenates the filtered parts. */
  lemma LetterFilterKeepsOrder(front: seq<Author>, back: seq<Author>, letter: string)
    requires letter == "" || IsFilterLetter(letter)
    ensures LetterFilter(front + back, letter) == LetterFilter(front, letter) + LetterFilter(back, letter)
  {
    if letter != "" {
      FilterAppend(front, back, (a: Author) => StartsWithLetter(a.nombre, letter));
    }
  }

  /** No author is listed under two letters. */
  lemma LettersAreDisjoint(autores: seq<Author>, l1: string, l2: string)
    requires IsFilterLetter(l1) && IsFilterLetter(l2) && l1 != l2
    ensures |LetterFilter(autores, l1)| + |LetterFilter(autores, l2)| <= |autores|
  {
    assert l1[0] != l2[0] by {
      assert l1 == [l1[0]] && l2 == [l2[0]];
    }
    FilterDisjointBound(autores, (a: Author) => StartsWithLetter(a.nombre, l1),
                        (a: Author) => StartsWithLetter(a.nombre, l2));
  }

  /** The filter compares the upper-cased name: "ana" is listed under A and
      "ßeta" under S, while "Ángel", whose capital is not an ASCII letter, is
      listed under no letter at all. */
  lemma FilterIgnoresCase()
    ensures StartsWithLetter("ana", "A") && StartsWithLetter("Ana", "A")
    ensures StartsWithLetter("ßeta", "S") && !StartsWithLetter("Ángel", "A")
  {
  }

  class Escritores {
    var autores: seq<Author>
    var filteredAutores: seq<Author>
    var selectedLetter: string
    var visibleCount: nat

    /** Every author on screen comes from the loaded list. */
    ghost predicate Valid()
      reads this
    {
      forall i :: 0 <= i < |filteredAutores| ==> filteredAutores[i] in autores
    }

    /** The state before the authors arrive. */
    constructor ()
      ensures Valid()
      ensures autores == [] && filteredAutores == [] && selectedLetter == "" && visibleCount == InitialVisible
    {
      autores := [];
      filteredAutores := [];
      selectedLetter := "";
      visibleCount := InitialVisible;
    }

    /** A successful `fetchAutores`: the list and the filtered list become the
        data; the selected letter and the visible count are left as they were. */
    method LoadAutores(data: seq<Author>)
      modifies this
      ensures Valid()
      ensures autores == data && filteredAutores == data
      ensures selectedLetter == old(selectedLetter) && visibleCount == old(visibleCount)
    {
      autores := data;
      filteredAutores := data;
    }

    /** `handleFilter(letter)`. */
    method HandleFilter(letter: string)
      requires letter == "" || IsFilterLetter(letter)
      modifies this
      ensures Valid()
      ensures autores == old(autores) && selectedLetter == letter && visibleCount == InitialVisible
      ensures filteredAutores == LetterFilter(autores, letter)
    {
      selectedLetter := letter;
      if letter == "" {
        filteredAutores := autores;
      } else {
        filteredAutores := Filter(autores, (a: Author) => StartsWithLetter(a.nombre, letter));
        FilterCounts(autores, (a: Author) => StartsWithLetter(a.nombre, letter));
        forall i | 0 <= i < |filteredAutores| ensures filteredAutores[i] in autores {
          assert multiset(filteredAutores)[filteredAutores[i]] > 0;
        }
      }
      visibleCount := InitialVisible;
    }

    /** `visibleAutores`: the first `visibleCount` authors of the filtered list. */
    function VisibleAutores(): (r: seq<Author>)
      reads this
      ensures r <= filteredAutores && |r| == Min(visibleCount, |filteredAutores|)
    {
      Take(filteredAutores, visibleCount)
    }

    /** The "VER MÁS AUTORES" button is shown exactly when some filtered author is hidden. */
    function ShowMoreVisible(): (shown: bool)
      reads this
      ensures shown <==> VisibleAutores() != filteredAutores
    {
      TakeHidesIffShort(filteredAutores, visibleCount);
      visibleCount < |filteredAutores|
    }

    /** `handleShowMore`: reveal the whole filtered list. */
    method HandleShowMore()
      requires Valid()
      modifies this
      ensures Valid()
      ensures autores == old(autores) && filteredAutores == old(filteredAutores) && selectedLetter == old(selectedLetter)
      ensures visibleCount == |filteredAutores|
      ensures VisibleAutores() == filteredAutores && !ShowMoreVisible()
    {
      visibleCount := |filteredAutores|;
    }

    /** The pages of `downloadPDF`: every author of the loaded list, one per page, in order. */
    method DownloadPdfPages() returns (pages: seq<seq<Author>>)
      ensures Flatten(pages) == autores
      ensures |pages| == |autores|
      ensures forall p :: 0 <= p < |pages| ==> pages[p] == [autores[p]]
    {
      pages := ChunkPages(autores, ItemsPerPage);
      SingletonPages(pages, autores);
    }
  }
}
