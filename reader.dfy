/**
 * The reading-session state of `MainWindow` (main.py): the pages of the open
 * book, the current page index, whether the reader view is shown, and the
 * per-book progress ratios. Viewport and font metrics come in as integers;
 * widgets, labels and buttons are not part of the state.
 */
module Reader {
  import opened Wrappers
  import opened Strings
  import opened Pagination
  import Fb2

  /** Python truthiness of a `str | None`: present and not empty. */
  predicate Truthy(s: Option<string>)
  {
    s.Some? && s.value != ""
  }

  /** The text shown when a book has neither body text nor annotation. */
  const Unavailable := "(Текст книги недоступен)"

  /** `max(lo, min(x, hi))` (main.py:827, 926). */
  function Clamp(x: int, lo: int, hi: int): (r: int)
    requires lo <= hi
    ensures lo <= r <= hi
    ensures lo <= x <= hi ==> r == x
  {
    if x < lo then lo else if x > hi then hi else x
  }

  /** The text a book is read from: its full text, else its annotation, else
      a placeholder; never empty. */
  function ReadingText(info: Fb2.BookInfo): (text: string)
    ensures text != ""
    ensures Truthy(info.fullText) ==> text == info.fullText.value
    ensures !Truthy(info.fullText) && Truthy(info.description) ==> text == info.description.value
    ensures !Truthy(info.fullText) && !Truthy(info.description) ==> text == Unavailable
  {
    if info.fullText.Some? && info.fullText.value != "" then info.fullText.value
    else if info.description.Some? && info.description.value != "" then info.description.value
    else Unavailable
  }

  /** The page box shows `str(idx + 1)` for the page at `idx`; pressing
      return on that text, stripped and parsed, selects the same page. */
  lemma PageEditRoundTrip(idx: int, total: int)
    requires 0 <= idx < total
    ensures IsDigits(Strip(DecimalString(idx + 1)))
    ensures Clamp(DecimalValue(Strip(DecimalString(idx + 1))), 1, total) - 1 == idx
  {
    var shown := DecimalString(idx + 1);
    StripStripped(shown);
    DecimalRoundTrip(idx + 1);
  }

  class ReaderSession {
    /** `current_book_path`; the progress map is keyed by it directly. */
    var currentBookPath: Option<string>
    /** `book_progress`: path -> ratio in [0, 1]. */
    var bookProgress: map<string, real>
    /** `is_reading`: the reader view (not the info view) is shown. */
    var isReading: bool
    /** `current_full_text`. */
    var currentFullText: Option<string>
    /** `pages`. */
    var pages: seq<string>
    /** `current_page_index`. */
    var currentPageIndex: int
    /** The capacity the current pages were cut with. */
    ghost var pagedCapacity: nat

    /** While reading, the pages are the pagination of the current text and the
        stored progress of the open book is the ratio of the current page. */
    ghost predicate Valid()
      reads this
    {
      (pages == [] ==> currentPageIndex == 0) &&
      (pages != [] ==> 0 <= currentPageIndex < |pages|) &&
      pagedCapacity > 0 &&
      (isReading ==>
         Truthy(currentBookPath) && Truthy(currentFullText) &&
         pages == Paginate(currentFullText.value, pagedCapacity) &&
         currentBookPath.value in bookProgress &&
         bookProgress[currentBookPath.value] == RatioOf(currentPageIndex, |pages|))
    }

    /** `MainWindow.__init__` (reader part), with the progress map restored
        from the cache. */
    constructor (savedProgress: map<string, real>)
      ensures Valid()
      ensures currentBookPath == None && currentFullText == None && !isReading
      ensures pages == [] && currentPageIndex == 0 && bookProgress == savedProgress
    {
      currentBookPath := None;
      bookProgress := savedProgress;
      isReading := false;
      currentFullText := None;
      pages := [];
      currentPageIndex := 0;
      pagedCapacity := 60;
    }

    /** `on_tree_selection_changed` for a book file: the book becomes current
        and the info view is shown. */
    method SelectBook(path: string)
      requires Valid()
      modifies this`currentBookPath, this`isReading
      ensures Valid()
      ensures currentBookPath == Some(path) && !isReading
    {
      currentBookPath := Some(path);
      isReading := false;
    }

    /** The session reset of `build_tree_from_scan`: after a rescan no book is
        current, the reader view is left and its text and pages are dropped;
        saved progress is kept. */
    method ResetForRescan()
      requires Valid()
      modifies this`currentBookPath, this`isReading, this`currentFullText, this`pages, this`currentPageIndex
      ensures Valid()
      ensures currentBookPath == None && !isReading && currentFullText == None
      ensures pages == [] && currentPageIndex == 0
    {
      currentBookPath := None;
      isReading := false;
      currentFullText := None;
      pages := [];
      currentPageIndex := 0;
    }

    /** `back_to_info`: leaves the reader view. */
    method BackToInfo()
      requires Valid()
      modifies this`isReading
      ensures Valid() && !isReading
    {
      isReading := false;
    }

    /** `update_page_and_progress_labels`: while reading a non-empty page list,
        stores the clamped ratio as the open book's progress; otherwise it
        only refreshes labels. */
    method UpdatePageAndProgressLabels(ratio: real)
      modifies this`bookProgress
      ensures bookProgress ==
                if isReading && pages != [] && Truthy(currentBookPath)
                then old(bookProgress)[currentBookPath.value := Clamp01(ratio)]
                else old(bookProgress)
    {
      if !isReading || pages == [] {
        return;
      }
      var r := Clamp01(ratio);
      if Truthy(currentBookPath) {
        bookProgress := bookProgress[currentBookPath.value := r];
      }
    }

    /** `show_current_page`: clamps the index into the page list and records
        the page's ratio as progress. */
    method ShowCurrentPage()
      requires pages == [] ==> currentPageIndex == 0
      requires pagedCapacity > 0
      requires isReading ==> Truthy(currentBookPath) && Truthy(currentFullText) &&
                             pages == Paginate(currentFullText.value, pagedCapacity)
      modifies this`currentPageIndex, this`bookProgress
      ensures Valid()
      ensures pages != [] ==> currentPageIndex == Clamp(old(currentPageIndex), 0, |pages| - 1)
      ensures pages == [] ==> currentPageIndex == old(currentPageIndex)
      ensures bookProgress ==
                if isReading then old(bookProgress)[currentBookPath.value := RatioOf(currentPageIndex, |pages|)]
                else old(bookProgress)
    {
      if pages == [] {
        UpdatePageAndProgressLabels(0.0);
        return;
      }
      var idx := Clamp(currentPageIndex, 0, |pages| - 1);
      currentPageIndex := idx;
      var ratio: real;
      if |pages| == 1 {
        ratio := 0.0;
      } else {
        ratio := idx as real / (|pages| - 1) as real;
      }
      assert ratio == RatioOf(idx, |pages|);
      UpdatePageAndProgressLabels(ratio);
    }

    /** `paginate_current_text`: cuts the current text into pages for the
        given metrics and opens the page the ratio selects. */
    method PaginateCurrentText(ratio: real, width: int, height: int, avgCharWidth: int, lineSpacing: int)
      requires isReading ==> Truthy(currentBookPath) && Truthy(currentFullText)
      modifies this`pages, this`currentPageIndex, this`bookProgress, this`pagedCapacity
      ensures Valid()
      ensures pages == Paginate(if Truthy(currentFullText) then currentFullText.value else "",
                                Capacity(width, height, avgCharWidth, lineSpacing))
      ensures currentPageIndex == StartIndex(|pages|, ratio)
      ensures bookProgress ==
                if isReading then old(bookProgress)[currentBookPath.value := RatioOf(currentPageIndex, |pages|)]
                else old(bookProgress)
    {
      var capacity := Capacity(width, height, avgCharWidth, lineSpacing);
      pagedCapacity := capacity;
      if !Truthy(currentFullText) {
        pages := [""];
        currentPageIndex := 0;
        ShowCurrentPage();
        return;
      }

      var text := currentFullText.value;
      var split := SplitPages(text, capacity);
      pages := split;

      currentPageIndex := StartIndex(|split|, ratio);
      ShowCurrentPage();
    }

    /** `open_current_book`: enters the reader view on the current book's text
        and paginates it from the book's stored progress (0 when none). */
    method OpenCurrentBook(info: Fb2.BookInfo, width: int, height: int, avgCharWidth: int, lineSpacing: int)
      requires Valid()
      modifies this`currentFullText, this`isReading, this`pages, this`currentPageIndex, this`bookProgress, this`pagedCapacity
      ensures Valid()
      ensures !Truthy(old(currentBookPath)) ==> unchanged(this)
      ensures Truthy(old(currentBookPath)) ==>
                var key := currentBookPath.value;
                var stored := if key in old(bookProgress) then old(bookProgress)[key] else 0.0;
                isReading && currentFullText == Some(ReadingText(info)) &&
                pages == Paginate(ReadingText(info), Capacity(width, height, avgCharWidth, lineSpacing)) &&
                currentPageIndex == StartIndex(|pages|, stored) &&
                bookProgress == old(bookProgress)[key := RatioOf(currentPageIndex, |pages|)]
    {
      if !Truthy(currentBookPath) {
        return;
      }
      var fullText := ReadingText(info);
      currentFullText := Some(fullText);
      isReading := true;
      var key := currentBookPath.value;
      var ratio := if key in bookProgress then bookProgress[key] else 0.0;
      PaginateCurrentText(ratio, width, height, avgCharWidth, lineSpacing);
    }

    /** `go_to_page`: while reading a non-empty page list, moves to the
        clamped index and records its ratio; otherwise does nothing. */
    method GoToPage(pageIndex: int)
      requires Valid()
      modifies this`currentPageIndex, this`bookProgress
      ensures Valid()
      ensures !isReading || pages == [] ==> unchanged(this)
      ensures isReading && pages != [] ==>
                currentPageIndex == Clamp(pageIndex, 0, |pages| - 1) &&
                bookProgress == old(bookProgress)[currentBookPath.value := RatioOf(currentPageIndex, |pages|)]
      ensures pages != [] && Clamp(pageIndex, 0, |pages| - 1) == old(currentPageIndex) ==> unchanged(this)
    {
      if !isReading || pages == [] {
        return;
      }
      var total := |pages|;
      var index := Clamp(pageIndex, 0, total - 1);
      currentPageIndex := index;
      ShowCurrentPage();
      if index == old(currentPageIndex) {
        assert bookProgress == old(bookProgress);
      }
    }

    /** `go_next_page`: one page forward; a no-op on the last page. */
    method GoNextPage()
      requires Valid()
      modifies this`currentPageIndex, this`bookProgress
      ensures Valid()
      ensures !isReading ==> unchanged(this)
      ensures isReading ==> currentPageIndex == Min(old(currentPageIndex) + 1, |pages| - 1)
      ensures isReading ==> bookProgress == old(bookProgress)[currentBookPath.value := RatioOf(currentPageIndex, |pages|)]
      ensures isReading && old(currentPageIndex) == |pages| - 1 ==> unchanged(this)
    {
      if !isReading {
        return;
      }
      GoToPage(currentPageIndex + 1);
    }

    /** `go_prev_page`: one page back; a no-op on the first page. */
    method GoPrevPage()
      requires Valid()
      modifies this`currentPageIndex, this`bookProgress
      ensures Valid()
      ensures !isReading ==> unchanged(this)
      ensures isReading ==> currentPageIndex == Max(old(currentPageIndex) - 1, 0)
      ensures isReading ==> bookProgress == old(bookProgress)[currentBookPath.value := RatioOf(currentPageIndex, |pages|)]
      ensures isReading && old(currentPageIndex) == 0 ==> unchanged(this)
    {
      if !isReading {
        return;
      }
      GoToPage(currentPageIndex - 1);
    }

    /** `on_page_edit_return`: a typed 1-based page number, stripped, moves to
        page `clamp(p, 1, total) - 1`; anything that is not all digits is
        ignored. */
    method OnPageEditReturn(input: string)
      requires Valid()
      modifies this`currentPageIndex, this`bookProgress
      ensures Valid()
      ensures !isReading || !IsDigits(Strip(input)) ==> unchanged(this)
      ensures isReading && IsDigits(Strip(input)) ==>
                currentPageIndex == Clamp(DecimalValue(Strip(input)), 1, |pages|) - 1
      ensures isReading ==> bookProgress == old(bookProgress)[currentBookPath.value := RatioOf(currentPageIndex, |pages|)]
    {
      if !isReading || pages == [] {
        return;
      }
      var text := Strip(input);
      if !IsDigits(text) {
        return;
      }
      var page := DecimalValue(text);
      if page < 1 {
        page := 1;
      }
      var total := |pages|;
      if page > total {
        page := total;
      }
      GoToPage(page - 1);
    }

    /** `on_reader_resized`: re-paginates the open book from its stored
        progress ratio. When the capacity has not changed, the pages and the
        current page are exactly what they were. */
    method OnReaderResized(width: int, height: int, avgCharWidth: int, lineSpacing: int)
      requires Valid()
      modifies this`pages, this`currentPageIndex, this`bookProgress, this`pagedCapacity
      ensures Valid()
      ensures !isReading ==> unchanged(this)
      ensures isReading ==>
                pages == Paginate(currentFullText.value, Capacity(width, height, avgCharWidth, lineSpacing)) &&
                currentPageIndex == StartIndex(|pages|, old(bookProgress)[currentBookPath.value]) &&
                bookProgress == old(bookProgress)[currentBookPath.value := RatioOf(currentPageIndex, |pages|)]
      ensures isReading && Capacity(width, height, avgCharWidth, lineSpacing) == old(pagedCapacity) ==>
                pages == old(pages) && currentPageIndex == old(currentPageIndex) && bookProgress == old(bookProgress)
    {
      if !isReading || !Truthy(currentFullText) || !Truthy(currentBookPath) {
        return;
      }
      var key := currentBookPath.value;
      var ratio := if key in bookProgress then bookProgress[key] else 0.0;
      PaginateCurrentText(ratio, width, height, avgCharWidth, lineSpacing);
      if Capacity(width, height, avgCharWidth, lineSpacing) == old(pagedCapacity) {
        IndexRatioRoundTrip(old(currentPageIndex), |pages|);
      }
    }
  }
}
