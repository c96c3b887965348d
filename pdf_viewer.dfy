/** The PDF viewer's navigation state: the current page, the zoom scale, the keyboard
    shortcuts and the enabled state of the page buttons.

    The scale only ever moves in steps of 0.25 from 1.0 and is clamped to [0.25, 5.0], so it
    is kept exactly as a whole number of quarters in [1, 20]. */
module PdfViewer {
  import opened Wrappers
  import opened Text

  const MinQuarters: int := 1   // scale 0.25
  const MaxQuarters: int := 20  // scale 5.0
  const InitialQuarters: int := 4  // scale 1.0
  const ZoomStep: int := 1      // 0.25

  /** `Math.max(lo, Math.min(x, hi))` */
  function Clamp(x: int, lo: int, hi: int): int {
    if x < lo then lo else if x > hi then (if hi < lo then lo else hi) else x
  }

  /** The page `goToPage` settles on for a document of `numPages` pages. */
  function ClampPage(target: int, numPages: nat): (p: int)
    ensures 1 <= p
    ensures numPages >= 1 ==> p <= numPages
    ensures 1 <= target <= numPages ==> p == target
    ensures target < 1 ==> p == 1
    ensures target > numPages ==> p == (if numPages < 1 then 1 else numPages)
  {
    Clamp(target, 1, numPages)
  }

  /** The scale, in quarters, `handleZoom` settles on. */
  function ClampZoom(quarters: int): (q: int)
    ensures MinQuarters <= q <= MaxQuarters
    ensures MinQuarters <= quarters <= MaxQuarters ==> q == quarters
    ensures quarters < MinQuarters ==> q == MinQuarters
    ensures quarters > MaxQuarters ==> q == MaxQuarters
  {
    Clamp(quarters, MinQuarters, MaxQuarters)
  }

  function Scale(quarters: int): real {
    quarters as real / 4.0
  }

  /** `Math.round`: halves round up. */
  function Round(x: real): int {
    (x + 0.5).Floor
  }

  /** The percentage shown beside the zoom buttons, `Math.round(scale * 100)`. */
  function ZoomPercent(quarters: int): int {
    Round(Scale(quarters) * 100.0)
  }

  /** The scale lies in [0.25, 5.0], and the displayed percentage is exactly 25 per
      quarter, from 25% to 500%. */
  lemma ZoomPercentExact(quarters: int)
    requires MinQuarters <= quarters <= MaxQuarters
    ensures 0.25 <= Scale(quarters) <= 5.0
    ensures ZoomPercent(quarters) == 25 * quarters
    ensures 25 <= ZoomPercent(quarters) <= 500
  {
    assert Scale(quarters) * 100.0 == (25 * quarters) as real;
    assert ((25 * quarters) as real + 0.5).Floor == 25 * quarters;
  }

  datatype Action = NoAction | PreviousPage | NextPage | ZoomIn | ZoomOut

  /** A keydown event as the window listener reads it. */
  datatype KeyEvent = KeyEvent(key: string, ctrlKey: bool, metaKey: bool, targetIsInput: bool)

  /** The shortcut table of the window keydown listener. */
  function KeyAction(e: KeyEvent): Action {
    if e.targetIsInput then NoAction
    else if e.key == "ArrowLeft" || (e.key == "p" && e.ctrlKey) then PreviousPage
    else if e.key == "ArrowRight" || (e.key == "n" && e.ctrlKey) then NextPage
    else if e.key == "+" && (e.metaKey || e.ctrlKey) then ZoomIn
    else if e.key == "-" && (e.metaKey || e.ctrlKey) then ZoomOut
    else NoAction
  }

  /** Events aimed at an input are ignored; a key only acts with the modifiers the table
      names. */
  lemma KeyActionTable(e: KeyEvent)
    ensures e.targetIsInput ==> KeyAction(e) == NoAction
    ensures KeyAction(e) == PreviousPage ==> e.key == "ArrowLeft" || (e.key == "p" && e.ctrlKey)
    ensures KeyAction(e) == NextPage ==> e.key == "ArrowRight" || (e.key == "n" && e.ctrlKey)
    ensures KeyAction(e) == ZoomIn ==> e.key == "+" && (e.metaKey || e.ctrlKey)
    ensures KeyAction(e) == ZoomOut ==> e.key == "-" && (e.metaKey || e.ctrlKey)
    ensures !e.targetIsInput && (e.key == "ArrowLeft" || (e.key == "p" && e.ctrlKey)) ==> KeyAction(e) == PreviousPage
    ensures !e.targetIsInput && (e.key == "ArrowRight" || (e.key == "n" && e.ctrlKey)) ==> KeyAction(e) == NextPage
    ensures !e.targetIsInput && e.key == "+" && (e.metaKey || e.ctrlKey) ==> KeyAction(e) == ZoomIn
    ensures !e.targetIsInput && e.key == "-" && (e.metaKey || e.ctrlKey) ==> KeyAction(e) == ZoomOut
  {
  }

  /** What the listener's closures do to the page and the scale when the `goToPage` and
      `handleZoom` they call saw `document`: nothing without a document, otherwise the
      matching button's step. */
  function KeyStep(document: Option<nat>, page: int, quarters: int, e: KeyEvent): (r: (int, int))
    requires page >= 1 && MinQuarters <= quarters <= MaxQuarters
    ensures r.0 >= 1 && MinQuarters <= r.1 <= MaxQuarters
    ensures document.None? || KeyAction(e) == NoAction ==> r == (page, quarters)
    ensures KeyAction(e) in {PreviousPage, NextPage} ==> r.1 == quarters
    ensures KeyAction(e) in {ZoomIn, ZoomOut} ==> r.0 == page
  {
    if document.None? then (page, quarters)
    else match KeyAction(e)
      case PreviousPage => (ClampPage(page - 1, document.value), quarters)
      case NextPage => (ClampPage(page + 1, document.value), quarters)
      case ZoomIn => (page, ClampZoom(quarters + ZoomStep))
      case ZoomOut => (page, ClampZoom(quarters - ZoomStep))
      case NoAction => (page, quarters)
  }

  class Viewer {
    /** The page count of the loaded document; None while no document is loaded. */
    var numPages: Option<nat>
    var currentPage: int
    var quarters: int
    /** The document the registered keydown listener saw: the listener is registered again
        only after a render in which `currentPage` or the scale changed. */
    var listenerDocument: Option<nat>

    ghost predicate Valid()
      reads this
    {
      currentPage >= 1 && MinQuarters <= quarters <= MaxQuarters
    }

    constructor()
      ensures Valid()
      ensures numPages == None && currentPage == 1 && quarters == InitialQuarters
      ensures listenerDocument == None
    {
      numPages := None;
      currentPage := 1;
      quarters := InitialQuarters;
      listenerDocument := None;
    }

    /** A document finished loading: page 1 is rendered, but `currentPage` is not reset, and
        the keydown listener is not registered again. */
    method Load(pages: nat)
      requires Valid()
      modifies this
      ensures Valid()
      ensures numPages == Some(pages)
      ensures currentPage == old(currentPage) && quarters == old(quarters)
      ensures listenerDocument == old(listenerDocument)
    {
      numPages := Some(pages);
    }

    /** Register the listener again when the page or the scale changed. */
    method Rerender(oldPage: int, oldQuarters: int)
      modifies this
      ensures numPages == old(numPages) && currentPage == old(currentPage) && quarters == old(quarters)
      ensures listenerDocument ==
                (if currentPage != oldPage || quarters != oldQuarters then numPages else old(listenerDocument))
    {
      if currentPage != oldPage || quarters != oldQuarters {
        listenerDocument := numPages;
      }
    }

    method GoToPage(target: int)
      requires Valid()
      modifies this
      ensures Valid()
      ensures numPages == old(numPages) && quarters == old(quarters)
      ensures numPages.None? ==> currentPage == old(currentPage)
      ensures numPages.Some? ==> currentPage == ClampPage(target, numPages.value)
      ensures listenerDocument == (if currentPage != old(currentPage) then numPages else old(listenerDocument))
    {
      if numPages.None? {
        return;
      }
      var targetPage := ClampPage(target, numPages.value);
      if targetPage != currentPage {
        var oldPage := currentPage;
        currentPage := targetPage;
        Rerender(oldPage, quarters);
      }
    }

    /** `handleZoom(delta)` with the delta counted in quarters. */
    method Zoom(delta: int)
      requires Valid()
      modifies this
      ensures Valid()
      ensures numPages == old(numPages) && currentPage == old(currentPage)
      ensures numPages.None? ==> quarters == old(quarters)
      ensures numPages.Some? ==> quarters == ClampZoom(old(quarters) + delta)
      ensures listenerDocument == (if quarters != old(quarters) then numPages else old(listenerDocument))
    {
      if numPages.None? {
        return;
      }
      var oldQuarters := quarters;
      quarters := ClampZoom(quarters + delta);
      Rerender(currentPage, oldQuarters);
    }

    /** The keydown listener as registered: its closures see `listenerDocument`, not the
        document loaded now. */
    method KeyDown(e: KeyEvent)
      requires Valid()
      modifies this
      ensures Valid()
      ensures numPages == old(numPages)
      ensures (currentPage, quarters) == KeyStep(old(listenerDocument), old(currentPage), old(quarters), e)
      ensures listenerDocument ==
                (if currentPage != old(currentPage) || quarters != old(quarters) then numPages else old(listenerDocument))
    {
      if listenerDocument.None? {
        return;
      }
      var oldPage, oldQuarters := currentPage, quarters;
      var document := listenerDocument.value;
      match KeyAction(e) {
        case PreviousPage => currentPage := ClampPage(currentPage - 1, document);
        case NextPage => currentPage := ClampPage(currentPage + 1, document);
        case ZoomIn => quarters := ClampZoom(quarters + ZoomStep);
        case ZoomOut => quarters := ClampZoom(quarters - ZoomStep);
        case NoAction =>
      }
      Rerender(oldPage, oldQuarters);
    }

    /** The listener registered again whenever the document changes too: a key then does
        exactly what the matching button does. */
    method KeyDownCurrent(e: KeyEvent)
      requires Valid()
      modifies this
      ensures Valid()
      ensures numPages == old(numPages)
      ensures (currentPage, quarters) == KeyStep(numPages, old(currentPage), old(quarters), e)
      ensures KeyAction(e) == PreviousPage && numPages.Some? ==>
                currentPage == ClampPage(old(currentPage) - 1, numPages.value)
      ensures KeyAction(e) == NextPage && numPages.Some? ==>
                currentPage == ClampPage(old(currentPage) + 1, numPages.value)
      ensures KeyAction(e) == ZoomIn && numPages.Some? ==> quarters == ClampZoom(old(quarters) + ZoomStep)
      ensures KeyAction(e) == ZoomOut && numPages.Some? ==> quarters == ClampZoom(old(quarters) - ZoomStep)
    {
      match KeyAction(e) {
        case PreviousPage => GoToPage(currentPage - 1);
        case NextPage => GoToPage(currentPage + 1);
        case ZoomIn => Zoom(ZoomStep);
        case ZoomOut => Zoom(-ZoomStep);
        case NoAction =>
      }
    }
  }

  const ArrowRight: KeyEvent := KeyEvent("ArrowRight", false, false, false)

  /** As written: right after a document of two or more pages loads, ArrowRight leaves the
      viewer on page 1 although the Next button is enabled. */
  method ArrowRightAfterLoad(pages: nat) returns (page: int, nextEnabled: bool)
    requires pages >= 2
    ensures page == 1 && nextEnabled
  {
    var v := new Viewer();
    v.Load(pages);
    v.KeyDown(ArrowRight);
    page := v.currentPage;
    nextEnabled := !NextDisabled(v.numPages, page);
  }

  /** With the listener kept current, the same key press moves to page 2. */
  method ArrowRightAfterLoadCurrent(pages: nat) returns (page: int)
    requires pages >= 2
    ensures page == 2
  {
    var v := new Viewer();
    v.Load(pages);
    v.KeyDownCurrent(ArrowRight);
    page := v.currentPage;
  }

  /** `disabled={!pdfDoc || currentPage <= 1}` */
  predicate PrevDisabled(numPages: Option<nat>, currentPage: int) {
    numPages.None? || currentPage <= 1
  }

  /** `disabled={!pdfDoc || currentPage >= (pdfDoc?.numPages || 1)}` */
  predicate NextDisabled(numPages: Option<nat>, currentPage: int) {
    numPages.None? || currentPage >= (if numPages.value == 0 then 1 else numPages.value)
  }

  /** The Prev button is enabled exactly when going back a page would move. */
  lemma PrevEnabledIffMoves(numPages: nat, currentPage: int)
    requires currentPage >= 1
    ensures !PrevDisabled(Some(numPages), currentPage) <==> ClampPage(currentPage - 1, numPages) != currentPage
  {
  }

  /** On a page within the document, the Next button is enabled exactly when going forward
      a page would move. A page beyond the end, which loading a shorter document leaves in
      place, disables Next, while going forward moves back to the last page. */
  lemma NextEnabledIffMoves(numPages: nat, currentPage: int)
    requires 1 <= currentPage
    ensures currentPage <= numPages ==>
              (!NextDisabled(Some(numPages), currentPage) <==> ClampPage(currentPage + 1, numPages) != currentPage)
    ensures currentPage > numPages ==>
              NextDisabled(Some(numPages), currentPage) &&
              ClampPage(currentPage + 1, numPages) == (if numPages == 0 then 1 else numPages)
  {
  }

  const ArrowLeft: KeyEvent := KeyEvent("ArrowLeft", false, false, false)

  /** As written: on page 5 of a five-page document, a two-page document loads. The viewer
      stays on page 5 with Next disabled; the listener still holds the five-page document,
      so ArrowRight keeps page 5 and ArrowLeft goes to page 4. */
  method NextAfterShorterLoad() returns (pageAfterLoad: int, nextDisabled: bool, pageAfterRight: int, pageAfterLeft: int)
    ensures pageAfterLoad == 5 && nextDisabled
    ensures pageAfterRight == 5 && pageAfterLeft == 4
  {
    var v := new Viewer();
    v.Load(5);
    v.GoToPage(5);
    v.Load(2);
    pageAfterLoad := v.currentPage;
    nextDisabled := NextDisabled(v.numPages, pageAfterLoad);
    v.KeyDown(ArrowRight);
    pageAfterRight := v.currentPage;
    v.KeyDown(ArrowLeft);
    pageAfterLeft := v.currentPage;
  }

  /** The same load with the listener kept current: ArrowRight takes the viewer back to
      page 2, the last page of the new document. */
  method NextAfterShorterLoadCurrent() returns (pageAfterLoad: int, nextDisabled: bool, pageAfterKey: int)
    ensures pageAfterLoad == 5 && nextDisabled && pageAfterKey == 2
  {
    var v := new Viewer();
    v.Load(5);
    v.GoToPage(5);
    v.Load(2);
    pageAfterLoad := v.currentPage;
    nextDisabled := NextDisabled(v.numPages, pageAfterLoad);
    v.KeyDownCurrent(ArrowRight);
    pageAfterKey := v.currentPage;
  }
}
