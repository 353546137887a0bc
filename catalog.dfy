/**
  The catalog list built by `loadBooksFromDB` (scripts/app.js:68-99): one entry
  per stored record, in `getAll` order, carrying the shortened title, the
  format badge and the reading status. The HTML itself is not modelled.
 */
module Catalog {
  import opened JsString
  import opened Library

  const MaxTitleLength: nat := 20
  const KeptTitleLength: nat := 17
  const Ellipsis: string := "..."

  const EpubLabel: string := "EPUB"
  const PdfLabel: string := "PDF"
  const TxtLabel: string := "TXT"

  const ReadingStatus: string := "Lecture en cours"
  const NewStatus: string := "Nouveau"

  /** The title shown in the list: long titles are cut to 17 characters and an ellipsis. */
  function DisplayTitle(title: string): (shown: string)
    ensures |shown| <= MaxTitleLength
    ensures shown == title <==> |title| <= MaxTitleLength
    ensures |title| > MaxTitleLength ==> shown == title[..KeptTitleLength] + Ellipsis
  {
    if |title| > MaxTitleLength then title[..KeptTitleLength] + Ellipsis else title
  }

  /** The format badge, by substring match on the stored type. */
  function TypeLabel(mediaType: string): string
  {
    if Includes(mediaType, "epub") then EpubLabel
    else if Includes(mediaType, "pdf") then PdfLabel
    else TxtLabel
  }

  /** The reading status: in progress exactly when `last_read_cfi` is truthy. */
  function ProgressStatus(lastRead: Position): string
  {
    if Truthy(lastRead) then ReadingStatus else NewStatus
  }

  /** One list item: the record it opens, its full title (the tooltip) and what it shows. */
  datatype Entry = Entry(bookId: int, title: string, displayTitle: string,
                         typeLabel: string, progressStatus: string)

  function EntryFor(book: Book): Entry
  {
    Entry(book.id, book.title, DisplayTitle(book.title), TypeLabel(book.mediaType),
          ProgressStatus(book.lastRead))
  }

  /** `epub` anywhere in the type wins, even when `pdf` is there too; then
      `pdf`; every other type, known or not, is labelled TXT. */
  lemma TypeLabelPriority(mediaType: string)
    ensures TypeLabel(mediaType) == EpubLabel <==> Includes(mediaType, "epub")
    ensures TypeLabel(mediaType) == PdfLabel <==> !Includes(mediaType, "epub") && Includes(mediaType, "pdf")
    ensures TypeLabel(mediaType) == TxtLabel <==> !Includes(mediaType, "epub") && !Includes(mediaType, "pdf")
  {
  }

  /** Both a missing position and a scroll offset of 0 read as "Nouveau". */
  lemma ProgressStatusFalsy(lastRead: Position)
    ensures ProgressStatus(lastRead) == ReadingStatus <==> Truthy(lastRead)
    ensures lastRead in {Null, ScrollOffset(0), Locator("")} ==> ProgressStatus(lastRead) == NewStatus
  {
  }

  /** A 25-character title shows its first 17 characters and the ellipsis; a 20-character one is unchanged. */
  lemma DisplayTitleExamples()
    ensures DisplayTitle("Les Mille et Une Nuits 12") == "Les Mille et Une ..."
    ensures DisplayTitle("Le Comte de Monte-Cr") == "Le Comte de Monte-Cr"
  {
  }

  /** The list items for `books`, one per record, in the same order. */
  method ListEntries(books: seq<Book>) returns (items: seq<Entry>)
    ensures |items| == |books|
    ensures forall i :: 0 <= i < |books| ==> items[i] == EntryFor(books[i])
  {
    items := [];
    for i := 0 to |books|
      invariant |items| == i
      invariant forall j :: 0 <= j < i ==> items[j] == EntryFor(books[j])
    {
      var book := books[i];
      var displayTitle := if |book.title| > MaxTitleLength then book.title[..KeptTitleLength] + Ellipsis else book.title;
      var typeLabel := if Includes(book.mediaType, "epub") then EpubLabel
                       else if Includes(book.mediaType, "pdf") then PdfLabel
                       else TxtLabel;
      var progressStatus := if Truthy(book.lastRead) then ReadingStatus else NewStatus;
      items := items + [Entry(book.id, book.title, displayTitle, typeLabel, progressStatus)];
    }
  }

  /** `loadBooksFromDB`: one entry for every stored record, in key order,
      each shown with a title of at most 20 characters. */
  method LoadBooksFromDB(store: BookStore) returns (items: seq<Entry>)
    requires Valid(store.State())
    ensures |items| == |Listing(store.State())|
    ensures forall i :: 0 <= i < |items| ==>
      && items[i].bookId in store.records
      && items[i] == EntryFor(store.records[items[i].bookId])
      && |items[i].displayTitle| <= MaxTitleLength
    ensures forall id :: id in store.records ==> EntryFor(store.records[id]) in items
    ensures forall i, j :: 0 <= i < j < |items| ==> items[i].bookId < items[j].bookId
  {
    var books := store.GetAll();
    ListingSpec(store.State());
    items := ListEntries(books);
    forall id | id in store.records
      ensures EntryFor(store.records[id]) in items
    {
      var i :| 0 <= i < |books| && books[i] == store.records[id];
      assert items[i] == EntryFor(store.records[id]);
    }
  }
}
