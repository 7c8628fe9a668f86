/** The loans page of src/pages/RegisterPrestamo.jsx: status classes and
    labels, the loans with a book shown `visibleCount` at a time, the "show
    more" button, and the page chunking of the catalogue download. */
module RegisterPrestamoPage {
  import opened JsText
  import opened Entities
  import opened Paging

  const InitialVisible: nat := 6
  const ItemsPerPage: nat := 1

  const ActiveClass := "prestamo-estado activo"
  const ReturnedClass := "prestamo-estado devuelto"
  const OverdueClass := "prestamo-estado vencido"
  const BaseClass := "prestamo-estado"

  /** `getEstadoClass`: one class per known status label, the base class for anything else. */
  function EstadoClass(estado: string): (c: string)
    ensures estado == "Activo" ==> c == ActiveClass
    ensures estado == "Devuelto" ==> c == ReturnedClass
    ensures estado == "Vencido" ==> c == OverdueClass
    ensures estado != "Activo" && estado != "Devuelto" && estado != "Vencido" ==> c == BaseClass
  {
    if estado == "Activo" then ActiveClass
    else if estado == "Devuelto" then ReturnedClass
    else if estado == "Vencido" then OverdueClass
    else BaseClass
  }

  /** The three known labels get three different classes, none of them the base class. */
  lemma EstadoClassesDistinct(a: string, b: string)
    requires a in {"Activo", "Devuelto", "Vencido"} && b in {"Activo", "Devuelto", "Vencido"}
    ensures EstadoClass(a) == EstadoClass(b) <==> a == b
    ensures EstadoClass(a) != BaseClass
  {
  }

  /** The label of a loan's status: `estado === 'prestado' ? 'Activo' : 'Devuelto'`. */
  function EstadoLabel(estado: string): (shown: string)
    ensures shown == "Activo" <==> estado == "prestado"
    ensures shown == "Activo" || shown == "Devuelto"
  {
    if estado == "prestado" then "Activo" else "Devuelto"
  }

  /** The class of a card's status badge. */
  function CardStatusClass(estado: string): (c: string)
    ensures c == ActiveClass + " prestamo-status-top" || c == ReturnedClass + " prestamo-status-top"
  {
    EstadoClass(EstadoLabel(estado)) + " prestamo-status-top"
  }

  /** A card is styled active exactly for a lent book and returned otherwise;
      the overdue and base classes never reach a card, so an overdue loan
      shows as returned. */
  lemma CardClassFollowsLabel(estado: string)
    ensures estado == "prestado" ==> CardStatusClass(estado) == ActiveClass + " prestamo-status-top"
    ensures estado != "prestado" ==> CardStatusClass(estado) == ReturnedClass + " prestamo-status-top"
    ensures CardStatusClass("vencido") == CardStatusClass("devuelto")
  {
  }

  predicate HasLibro(l: Loan) {
    l.libro.Some?
  }

  /** `prestamos.filter(p => p.libro)`. */
  function WithLibro(loans: seq<Loan>): (r: seq<Loan>)
    ensures |r| <= |loans|
  {
    Filter(loans, HasLibro)
  }

  /** The loans on screen: `prestamos.filter(p => p.libro).slice(0, visibleCount)`. */
  function Visible(loans: seq<Loan>, visibleCount: nat): (r: seq<Loan>)
    ensures r <= WithLibro(loans)
    ensures |r| == Min(visibleCount, |WithLibro(loans)|)
    ensures forall i :: 0 <= i < |r| ==> r[i].libro.Some?
  {
    FilterSatisfies(loans, HasLibro);
    Take(WithLibro(loans), visibleCount)
  }

  /** The render filters the visible loans once more; that changes nothing. */
  lemma RenderFilterIsNoOp(loans: seq<Loan>, visibleCount: nat)
    ensures Filter(Visible(loans, visibleCount), HasLibro) == Visible(loans, visibleCount)
  {
    FilterKeepsAll(Visible(loans, visibleCount), HasLibro);
  }

  /** The button condition as written: `visibleCount < prestamos.length`. */
  predicate ShowMoreShown(loans: seq<Loan>, visibleCount: nat): (shown: bool)
    ensures shown <==> Take(loans, visibleCount) != loans
  {
    TakeHidesIffShort(loans, visibleCount);
    visibleCount < |loans|
  }

  /** Whenever some loan with a book is hidden, the button is there. */
  lemma ShowMoreShownWhenHidden(loans: seq<Loan>, visibleCount: nat)
    ensures Visible(loans, visibleCount) != WithLibro(loans) ==> ShowMoreShown(loans, visibleCount)
  {
  }

  /** But the button also shows when nothing is hidden: six loans with a book
      and one without, at the initial count of six. */
  lemma ShowMoreShownWithNothingHidden(b: Book)
    ensures var lent := Loan("1", "prestado", Some(b));
      var loans := [lent, lent, lent, lent, lent, lent, Loan("7", "prestado", None)];
      && ShowMoreShown(loans, InitialVisible)
      && Visible(loans, InitialVisible) == WithLibro(loans)
  {
    var lent := Loan("1", "prestado", Some(b));
    var loans := [lent, lent, lent, lent, lent, lent, Loan("7", "prestado", None)];
    FilterAppend(loans[..6], loans[6..], HasLibro);
    assert loans == loans[..6] + loans[6..];
    FilterKeepsAll(loans[..6], HasLibro);
    assert WithLibro(loans) == loans[..6];
  }

  /** The evidently intended condition: compare with the loans that can be shown. */
  function ShowMoreNeeded(loans: seq<Loan>, visibleCount: nat): (shown: bool)
    ensures shown <==> Visible(loans, visibleCount) != WithLibro(loans)
  {
    TakeHidesIffShort(WithLibro(loans), visibleCount);
    visibleCount < |WithLibro(loans)|
  }

  /** The pages of `downloadPDF`: every loan, one per page, in order; a loan
      without a book makes reading `p.libro.foto` throw, and no document is made. */
  method PdfPages(loans: seq<Loan>) returns (pages: Option<seq<seq<Loan>>>)
    ensures pages.None? <==> exists i :: 0 <= i < |loans| && loans[i].libro.None?
    ensures pages.Some? ==> Flatten(pages.value) == loans && |pages.value| == |loans|
    ensures pages.Some? ==> forall p :: 0 <= p < |loans| ==> pages.value[p] == [loans[p]]
  {
    var i := 0;
    while i < |loans|
      invariant 0 <= i <= |loans|
      invariant forall j :: 0 <= j < i ==> loans[j].libro.Some?
    {
      if loans[i].libro.None? {
        return None;
      }
      i := i + 1;
    }
    var chunks := ChunkPages(loans, ItemsPerPage);
    SingletonPages(chunks, loans);
    pages := Some(chunks);
  }

  class RegisterPrestamo {
    var prestamos: seq<Loan>
    var loading: bool
    var visibleCount: nat

    /** The state before the loans arrive. */
    constructor ()
      ensures prestamos == [] && loading && visibleCount == InitialVisible
    {
      prestamos := [];
      loading := true;
      visibleCount := InitialVisible;
    }

    /** `fetchPrestamos`: the loans when the request succeeded; loading ends either way. */
    method LoadPrestamos(data: Option<seq<Loan>>)
      modifies this
      ensures !loading && visibleCount == old(visibleCount)
      ensures prestamos == (if data.Some? then data.value else old(prestamos))
    {
      if data.Some? {
        prestamos := data.value;
      }
      loading := false;
    }

    /** `visiblePrestamos`. */
    function VisiblePrestamos(): (r: seq<Loan>)
      reads this
      ensures r <= WithLibro(prestamos) && |r| == Min(visibleCount, |WithLibro(prestamos)|)
    {
      Visible(prestamos, visibleCount)
    }

    /** The "VER MÁS PRÉSTAMOS" button as written, on the unfiltered count. */
    function ShowMoreVisible(): (shown: bool)
      reads this
      ensures VisiblePrestamos() != WithLibro(prestamos) ==> shown
    {
      ShowMoreShownWhenHidden(prestamos, visibleCount);
      ShowMoreShown(prestamos, visibleCount)
    }

    /** `handleShowMore`: the count becomes the number of all loans, which reveals every loan with a book. */
    method HandleShowMore()
      modifies this
      ensures prestamos == old(prestamos) && loading == old(loading)
      ensures visibleCount == |prestamos|
      ensures VisiblePrestamos() == WithLibro(prestamos) && !ShowMoreVisible()
    {
      visibleCount := |prestamos|;
    }

    /** `downloadPDF` on the loaded loans. */
    method DownloadPdfPages() returns (pages: Option<seq<seq<Loan>>>)
      ensures pages.None? <==> exists i :: 0 <= i < |prestamos| && prestamos[i].libro.None?
      ensures pages.Some? ==> |pages.value| == |prestamos| && Flatten(pages.value) == prestamos
      ensures pages.Some? ==> forall p :: 0 <= p < |prestamos| ==> pages.value[p] == [prestamos[p]]
    {
      pages := PdfPages(prestamos);
    }
  }
}
