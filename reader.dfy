/**
  The reader (scripts/app.js:102-279): `openBook` picks a renderer from the
  stored type, the renderers resume from the saved position, progress is
  written back through `saveProgression`, and a horizontal swipe turns EPUB
  pages. The module-level `currentBookId`, `currentBookType` and
  `currentRendition` are the fields of `Session`. The EPUB and PDF engines,
  the DOM and the timers are not modelled.
 */
module Reader {
  import opened Wrappers
  import opened JsString
  import opened Library
  import Catalog

  datatype Renderer = EpubRenderer | PdfRenderer | TextRenderer | NoRenderer

  /** The branch `openBook` takes: `epub`, else `pdf`, else `text/plain`, else none. */
  function Dispatch(mediaType: string): Renderer
  {
    if Includes(mediaType, "epub") then EpubRenderer
    else if Includes(mediaType, "pdf") then PdfRenderer
    else if Includes(mediaType, "text/plain") then TextRenderer
    else NoRenderer
  }

  /** The position a renderer resumes from: the saved one when it is truthy,
      otherwise none (the start of the book, or scroll offset 0). */
  function ResumeAt(lastRead: Position): (p: Position)
    ensures p == Null || p == lastRead
    ensures p != Null <==> Truthy(lastRead)
  {
    if Truthy(lastRead) then lastRead else Null
  }

  /** What the screen shows after `openBook`. */
  datatype View =
    | LibraryShown                    // the record was missing: `book.type` threw first
    | EpubView(displayAt: Position)   // `display(cfi)`, or `display()` when `displayAt` is `Null`
    | PdfView                         // pages rendered from the first; the saved position is ignored
    | TextView(scrollTo: Position)    // `scrollTop` restored when `scrollTo` is not `Null`
    | EmptyReader                     // reader shown with both renderers hidden

  function ViewFor(book: Book): View
  {
    match Dispatch(book.mediaType)
    case EpubRenderer => EpubView(ResumeAt(book.lastRead))
    case PdfRenderer => PdfView
    case TextRenderer => TextView(ResumeAt(book.lastRead))
    case NoRenderer => EmptyReader
  }

  /** The epub.js rendition of book `bookId`, opened at `displayAt`. */
  datatype Rendition = Rendition(bookId: int, displayAt: Position)

  /** `currentRendition` after opening `book`: a new rendition for EPUB,
      `null` for PDF and text, and untouched when no renderer runs. */
  function RenditionAfter(book: Book, previous: Option<Rendition>): Option<Rendition>
  {
    match Dispatch(book.mediaType)
    case EpubRenderer => Some(Rendition(book.id, ResumeAt(book.lastRead)))
    case PdfRenderer => None
    case TextRenderer => None
    case NoRenderer => previous
  }

  datatype SwipeAction = NoSwipe | NextPage | PrevPage

  const SwipeThreshold: int := 50

  /** `handleTouchEnd`: a swipe longer than the threshold turns the page when a
      rendition exists, leftwards to the next page and rightwards to the previous. */
  function Swipe(deltaX: int, hasRendition: bool): SwipeAction
  {
    var distance := if deltaX < 0 then -deltaX else deltaX;
    if distance > SwipeThreshold && hasRendition then
      if deltaX < 0 then NextPage else PrevPage
    else NoSwipe
  }

  /** The swipe listener pairs on `epub-renderer` after one more book opens.
      Each EPUB open runs `setupSwipes`, which declares fresh `handleTouchStart`
      and `handleTouchEnd` functions: its `removeEventListener` calls name
      functions that were never added, so the old pair stays and a new one joins it. */
  function HandlersAfter(handlers: nat, r: Renderer): nat
  {
    if r == EpubRenderer then handlers + 1 else handlers
  }

  /** The listener pairs after opening books of the given renderers, from page load. */
  function HandlersAfterOpens(opens: seq<Renderer>): nat
    decreases |opens|
  {
    if opens == [] then 0
    else HandlersAfter(HandlersAfterOpens(opens[..|opens| - 1]), opens[|opens| - 1])
  }

  /** What the cleanup in `setupSwipes` is meant to achieve: after an EPUB
      open exactly one listener pair is attached. */
  function IntendedHandlersAfter(handlers: nat, r: Renderer): nat
  {
    if r == EpubRenderer then 1 else handlers
  }

  function IntendedHandlersAfterOpens(opens: seq<Renderer>): nat
    decreases |opens|
  {
    if opens == [] then 0
    else IntendedHandlersAfter(IntendedHandlersAfterOpens(opens[..|opens| - 1]), opens[|opens| - 1])
  }

  /** One touch end with `handlers` listener pairs attached: every listener
      saw the same touch start and reads the same `currentRendition`, so each
      takes the same decision, and each `next()` or `prev()` turns a page. */
  function TouchEndActions(handlers: nat, deltaX: int, hasRendition: bool): seq<SwipeAction>
  {
    seq(handlers, _ => Swipe(deltaX, hasRendition))
  }

  /** `renderPage(pageNum)` and the calls it chains: the pages drawn, in order. */
  function PdfPages(pageNum: int, numPages: int): seq<int>
    decreases numPages - pageNum
  {
    if pageNum > numPages then [] else [pageNum] + PdfPages(pageNum + 1, numPages)
  }

  /** Types are dispatched in the fixed order epub, pdf, text/plain; a type matching none gets no renderer. */
  lemma DispatchPriority(mediaType: string)
    ensures Dispatch(mediaType) == EpubRenderer <==> Includes(mediaType, "epub")
    ensures Dispatch(mediaType) == PdfRenderer <==> !Includes(mediaType, "epub") && Includes(mediaType, "pdf")
    ensures Dispatch(mediaType) == TextRenderer <==>
      !Includes(mediaType, "epub") && !Includes(mediaType, "pdf") && Includes(mediaType, "text/plain")
    ensures Dispatch(mediaType) == NoRenderer <==>
      !Includes(mediaType, "epub") && !Includes(mediaType, "pdf") && !Includes(mediaType, "text/plain")
  {
  }

  /** The catalog badge and the renderer agree on EPUB and PDF; a TXT badge
      covers both the text renderer and no renderer at all. */
  lemma DispatchMatchesLabel(mediaType: string)
    ensures Dispatch(mediaType) == EpubRenderer <==> Catalog.TypeLabel(mediaType) == Catalog.EpubLabel
    ensures Dispatch(mediaType) == PdfRenderer <==> Catalog.TypeLabel(mediaType) == Catalog.PdfLabel
    ensures Dispatch(mediaType) in {TextRenderer, NoRenderer} <==> Catalog.TypeLabel(mediaType) == Catalog.TxtLabel
  {
  }

  /** A file imported without a declared type is badged TXT yet opens to an empty reader. */
  lemma OctetStreamLabelledButNotRendered()
    ensures Catalog.TypeLabel("application/octet-stream") == Catalog.TxtLabel
    ensures Dispatch("application/octet-stream") == NoRenderer
  {
    var t := "application/octet-stream";
    assert 'u' !in t && 'd' !in t && 'x' !in t;
    if Includes(t, "epub") { IncludesChar(t, "epub", 'u'); }
    if Includes(t, "pdf") { IncludesChar(t, "pdf", 'd'); }
    if Includes(t, "text/plain") { IncludesChar(t, "text/plain", 'x'); }
  }

  /** A type naming both formats opens in the EPUB renderer. */
  lemma EpubWinsOverPdf()
    ensures Dispatch("application/epub+zip; x-pdf") == EpubRenderer
  {
    var t := "application/epub+zip; x-pdf";
    assert OccursAt(t, "epub", 12);
    IncludesIsOccurrence(t, "epub");
  }

  /** Swipes act only beyond 50 pixels and with a rendition: left is next, right is previous. */
  lemma SwipeDecision(deltaX: int, hasRendition: bool)
    ensures Swipe(deltaX, hasRendition) == NextPage <==> hasRendition && deltaX < -SwipeThreshold
    ensures Swipe(deltaX, hasRendition) == PrevPage <==> hasRendition && deltaX > SwipeThreshold
    ensures Swipe(deltaX, hasRendition) == NoSwipe <==>
      !hasRendition || -SwipeThreshold <= deltaX <= SwipeThreshold
  {
  }

  /** Mirroring a swipe swaps next and previous. */
  lemma SwipeMirror(deltaX: int, hasRendition: bool)
    ensures Swipe(-deltaX, hasRendition) ==
      match Swipe(deltaX, hasRendition)
      case NextPage => PrevPage
      case PrevPage => NextPage
      case NoSwipe => NoSwipe
  {
  }

  /** Starting from `pageNum`, every page up to `numPages` is drawn once, in increasing order. */
  lemma {:induction false} PdfPagesInOrder(pageNum: int, numPages: int)
    ensures |PdfPages(pageNum, numPages)| == if pageNum <= numPages then numPages - pageNum + 1 else 0
    ensures forall i :: 0 <= i < |PdfPages(pageNum, numPages)| ==> PdfPages(pageNum, numPages)[i] == pageNum + i
    decreases numPages - pageNum
  {
    if pageNum <= numPages {
      PdfPagesInOrder(pageNum + 1, numPages);
    }
  }

  /** As written: after `n` EPUB books have been opened, one long leftward
      swipe turns `n` pages. */
  lemma {:induction false} RepeatedEpubOpensTurnManyPages(n: nat)
    ensures HandlersAfterOpens(seq(n, _ => EpubRenderer)) == n
    ensures TouchEndActions(HandlersAfterOpens(seq(n, _ => EpubRenderer)), -(SwipeThreshold + 1), true)
      == seq(n, _ => NextPage)
  {
    if n > 0 {
      RepeatedEpubOpensTurnManyPages(n - 1);
      assert seq(n, _ => EpubRenderer)[..n - 1] == seq(n - 1, _ => EpubRenderer);
    }
  }

  /** As written: opening two EPUB books and then swiping left once calls `next()` twice. */
  lemma TwoEpubOpensTurnTwoPages()
    ensures TouchEndActions(HandlersAfterOpens([EpubRenderer, EpubRenderer]), -100, true)
      == [NextPage, NextPage]
  {
    assert [EpubRenderer, EpubRenderer][..1] == [EpubRenderer];
  }

  /** As intended: whatever books were opened, at most one listener pair is
      attached, exactly one once an EPUB book was opened, and a swipe turns at most one page. */
  lemma {:induction false} IntendedAtMostOneHandler(opens: seq<Renderer>, deltaX: int, hasRendition: bool)
    ensures IntendedHandlersAfterOpens(opens) <= 1
    ensures EpubRenderer in opens ==> IntendedHandlersAfterOpens(opens) == 1
    ensures |TouchEndActions(IntendedHandlersAfterOpens(opens), deltaX, hasRendition)| <= 1
    decreases |opens|
  {
    if opens != [] {
      var init := opens[..|opens| - 1];
      IntendedAtMostOneHandler(init, deltaX, hasRendition);
      assert opens == init + [opens[|opens| - 1]];
    }
  }

  /** A stale `relocated` listener of an earlier EPUB rendition writes its
      locator into whatever book is open now: a text book then holds a
      locator, and reopening it restores that locator, not a scroll offset. */
  lemma StaleRelocationReachesTextBook(st: StoreState, id: int, cfi: string)
    requires Valid(st) && id in st.records
    requires Dispatch(st.records[id].mediaType) == TextRenderer && cfi != ""
    ensures id in Progressed(st, id, Locator(cfi)).records
    ensures Progressed(st, id, Locator(cfi)).records[id].lastRead == Locator(cfi)
    ensures ViewFor(Progressed(st, id, Locator(cfi)).records[id]) == TextView(Locator(cfi))
  {
    SaveProgressionFrame(st, id, Locator(cfi));
  }

  /** A text or EPUB book resumes from its saved position, unless that
      position is falsy: a scroll offset of 0 or an empty locator is not restored. */
  lemma ViewResumesTruthyPosition(book: Book)
    ensures Dispatch(book.mediaType) == EpubRenderer ==>
      ViewFor(book) == EpubView(if Truthy(book.lastRead) then book.lastRead else Null)
    ensures Dispatch(book.mediaType) == TextRenderer ==>
      ViewFor(book) == TextView(if Truthy(book.lastRead) then book.lastRead else Null)
    ensures book.lastRead == ScrollOffset(0) ==> ViewFor(book) !in {EpubView(book.lastRead), TextView(book.lastRead)}
  {
  }

  /** The reading session: which book is open, its type, the EPUB rendition
      if any, the swipe listener pairs attached to `epub-renderer`, and every
      rendition created so far, each keeping its `relocated` listener. */
  class Session {
    var currentBookId: Option<int>
    var currentBookType: Option<string>
    var currentRendition: Option<Rendition>
    var swipeHandlers: nat
    var renditions: seq<Rendition>

    /** One swipe listener pair per rendition created, and the current
        rendition, when there is one, is among them. */
    predicate Valid()
      reads this
    {
      && swipeHandlers == |renditions|
      && (currentRendition.Some? ==> currentRendition.value in renditions)
    }

    /** Page load: `currentRendition = null`, the other two undefined, no listeners. */
    constructor ()
      ensures currentBookId == None && currentBookType == None && currentRendition == None
      ensures swipeHandlers == 0 && renditions == []
      ensures Valid()
    {
      currentBookId := None;
      currentBookType := None;
      currentRendition := None;
      swipeHandlers := 0;
      renditions := [];
    }

    /** `openBook(bookId)`: remember the id, fetch the record, and hand it to
        the renderer its type selects. An EPUB book gets a new rendition with
        its own `relocated` listener and one more swipe listener pair. */
    method OpenBook(store: BookStore, bookId: int) returns (view: View)
      requires Valid()
      modifies this
      ensures Valid()
      ensures currentBookId == Some(bookId)
      ensures bookId !in store.records ==>
        && view == LibraryShown
        && currentBookType == old(currentBookType)
        && currentRendition == old(currentRendition)
        && swipeHandlers == old(swipeHandlers)
        && renditions == old(renditions)
      ensures bookId in store.records ==>
        && currentBookType == Some(store.records[bookId].mediaType)
        && view == ViewFor(store.records[bookId])
        && currentRendition == RenditionAfter(store.records[bookId], old(currentRendition))
        && swipeHandlers == HandlersAfter(old(swipeHandlers), Dispatch(store.records[bookId].mediaType))
        && renditions == old(renditions) +
             (if Dispatch(store.records[bookId].mediaType) == EpubRenderer then [currentRendition.value] else [])
    {
      currentBookId := Some(bookId);
      var found := store.Get(bookId);
      if found.None? {
        view := LibraryShown;
        return;
      }
      var book := found.value;
      currentBookType := Some(book.mediaType);
      var resume := if Truthy(book.lastRead) then book.lastRead else Null;
      if Includes(book.mediaType, "epub") {
        currentRendition := Some(Rendition(book.id, resume));
        renditions := renditions + [currentRendition.value];
        swipeHandlers := swipeHandlers + 1;
        view := EpubView(resume);
      } else if Includes(book.mediaType, "pdf") {
        currentRendition := None;
        view := PdfView;
      } else if Includes(book.mediaType, "text/plain") {
        currentRendition := None;
        view := TextView(resume);
      } else {
        view := EmptyReader;
      }
    }

    /** `saveProgression(position)`: write the position into the record of the
        current book. With no book opened yet, `store.get(undefined)` throws
        and nothing is written. */
    method SaveProgression(store: BookStore, position: Position)
      requires Library.Valid(store.State())
      modifies store
      ensures currentBookId.None? ==> store.State() == old(store.State())
      ensures currentBookId.Some? ==>
        store.State() == Progressed(old(store.State()), currentBookId.value, position)
      ensures Library.Valid(store.State())
    {
      if currentBookId.None? {
        return;
      }
      store.SaveProgression(currentBookId.value, position);
    }

    /** The `relocated` listener of rendition `from`, current or stale: it
        saves the new locator into the record of the book open now, which
        need not be the book `from` shows. */
    method Relocated(store: BookStore, from: Rendition, cfi: string)
      requires from in renditions
      requires Library.Valid(store.State())
      modifies store
      ensures currentBookId.None? ==> store.State() == old(store.State())
      ensures currentBookId.Some? ==>
        store.State() == Progressed(old(store.State()), currentBookId.value, Locator(cfi))
      ensures Library.Valid(store.State())
    {
      SaveProgression(store, Locator(cfi));
    }

    /** A touch end on `epub-renderer`: every attached `handleTouchEnd` runs,
        each measuring from the same touch start. */
    method HandleTouchEnd(touchStartX: int, touchEndX: int) returns (actions: seq<SwipeAction>)
      ensures actions == TouchEndActions(swipeHandlers, touchEndX - touchStartX, currentRendition.Some?)
      ensures |actions| == swipeHandlers
      ensures forall i :: 0 <= i < |actions| ==>
        && (actions[i] != NoSwipe ==> currentRendition.Some?)
        && (actions[i] == NextPage <==> currentRendition.Some? && touchEndX < touchStartX - SwipeThreshold)
        && (actions[i] == PrevPage <==> currentRendition.Some? && touchEndX > touchStartX + SwipeThreshold)
    {
      var deltaX := touchEndX - touchStartX;
      var distance := if deltaX < 0 then -deltaX else deltaX;
      var action;
      if distance > SwipeThreshold && currentRendition.Some? {
        if deltaX < 0 {
          action := NextPage;
        } else {
          action := PrevPage;
        }
      } else {
        action := NoSwipe;
      }
      actions := seq(swipeHandlers, _ => action);
    }
  }
}
