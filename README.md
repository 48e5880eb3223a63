# Grimoire reader core in Dafny

Grimoire is a desktop FictionBook 2 (FB2) library and reader. This project
models and verifies its two self-contained pieces of logic.

**The FB2 metadata extractor** (`fb2_utils.py`). It takes a parsed element
tree and produces a `BookInfo` record with these fields:

- title, authors, genres, publisher, date and language;
- the annotation as the description;
- the cover bytes, taken from a `<binary>` element;
- the full text of every `<body>`.

The model also covers the fast title-only path that the library tree uses.

**The reading session** (`main.py`, the reading part of `MainWindow`):

- cutting the book text into pages sized to the viewport;
- choosing the starting page from a stored progress ratio;
- moving between pages;
- recording progress as the page changes;
- re-paginating when the reader is resized.

## Files

| file | module | contents |
|---|---|---|
| `wrappers.dfy` | `Wrappers` | `Option` |
| `strings.dfy` | `Strings` | Python `str` operations: `strip`, `lstrip(c)`, `rfind`, `join`, `isdigit`, `int` |
| `xml_tree.dfy` | `XmlTree` | the element datatype, plus `_local_name`, `_find_first_child`, `_iter_children_with_name`, `iter()`, `itertext()` and `_elem_text` |
| `fb2.dfy` | `Fb2` | `BookInfo`, one specification function per field, `extract_fb2_title`, and `parse_fb2_book_info` as a method proved equal to its specification |
| `pagination.dfy` | `Pagination` | page capacity, the splitting loop, the pages it yields and the ratio/index mapping |
| `reader.dfy` | `Reader` | the `ReaderSession` class: the fields `pages`, `current_page_index`, `is_reading`, `book_progress`, `current_full_text` and `current_book_path`, and the methods that update them |

### Inputs and data model

- A parse result is an `Option<Element>`. `None` means `ET.parse` failed.
- An element holds:
  - its tag, which may carry a `{namespace}` prefix;
  - an attribute map;
  - its text;
  - its children;
  - its tail.
- A missing text or tail is the empty string. ElementTree would give `None`, but `itertext()` skips both alike.
- The file-name stem and the base64 decoder are parameters.

### Proof structure

Every loop of `_elem_text`, `parse_fb2_book_info` and `paginate_current_text` is a method. The child lookups of `_find_first_child` and `_iter_children_with_name`, and the generator that drops empty name parts, are recursive functions. Each method is proved equal to a specification function, and the lemmas state the properties of those functions:

- `_elem_text`, the author, genre and paragraph loops, the cover search and the pagination loop are methods.
- `ParseFb2BookInfo` equals `BookInfoOf`.
- `SplitPages` equals `Paginate`.

The reading-session methods keep a class invariant, `Valid`. While reading, it requires both of these:

- the pages are `Paginate` of the current text at the capacity they were cut with;
- the stored progress of the open book is the ratio of the current page.

Showing a page stores that page's own ratio. A resize therefore starts from the ratio of the page last shown, not from the ratio the book was opened at. `ResizeStartsFromShownPage` gives a case where the two pick different pages.

## Model

| member | source | states |
|---|---|---|
| XmlTree.LocalNameSplit | fb2_utils.py:24-26 | A tag without `}` is its own local name. Otherwise the local name is the suffix that follows the first `}`, and no `}` comes before that one. |
| XmlTree.FindFirstChild | fb2_utils.py:36-40 | The result is `None` exactly when no child has the local name. Otherwise it is one of the children and has that local name. |
| XmlTree.FindFirstChildIsFirst | fb2_utils.py:36-40 | The result is the matching child of least position. |
| XmlTree.ChildrenNamed | fb2_utils.py:29-33 | Yields only matching children, and every matching child. |
| XmlTree.ChildrenNamedAppend | fb2_utils.py:29-33 | Filtering a concatenation filters each part, so the matching children keep their source order. |
| XmlTree.FirstChildIsHeadOfChildren | fb2_utils.py:29-40 | The first matching child is the head of the list of all matching children, or `None` when that list is empty. |
| XmlTree.Iter | fb2_utils.py:182 | The pre-order walk starts with the element itself. |
| XmlTree.IterText | fb2_utils.py:48-50 | No yielded fragment is empty. |
| XmlTree.TextContentIsDocText | fb2_utils.py:43-51 | The joined `itertext` fragments equal the element's text, then each child's text, then that child's tail, recursively, in document order. Nested inline markup is included. |
| XmlTree.ElemText | fb2_utils.py:43-51 | The append loop returns `""` for a missing element, and otherwise the concatenation of the non-empty `itertext` fragments. |
| Strings.TrimLeftDropsSpaces | fb2_utils.py:74 | Everything that the leading half of `strip` removes is whitespace. |
| Strings.TrimRightDropsSpaces | fb2_utils.py:74 | Everything that the trailing half of `strip` removes is whitespace. |
| Strings.Strip | fb2_utils.py:74 | The result is no longer than the input and, when not empty, neither starts nor ends with whitespace. |
| Strings.StripEmpty | fb2_utils.py:74-75 | The stripped text is empty exactly when the input is all whitespace. |
| Strings.StripStripped | main.py:952 | A string that neither starts nor ends with whitespace is unchanged by `strip()`. |
| Strings.LStripChar | fb2_utils.py:200 | Removes every leading copy of the character, not just one. What is left is a suffix of the input that does not start with it. |
| Strings.RFind | main.py:800 | Returns -1 exactly when no index in `[lo, hi)` holds the character. Otherwise it returns the last such index. |
| Strings.NonEmptyOnly | fb2_utils.py:135 | Keeps exactly the non-empty parts. |
| Strings.ConcatNonEmptyOnly | fb2_utils.py:48-51 | Dropping empty fragments does not change their concatenation. |
| Strings.Join | fb2_utils.py:135 | Joining no parts gives `""`. Otherwise the result starts with the first part and ends with the last. |
| Strings.JoinTwo | fb2_utils.py:135 | Two non-empty parts are joined with exactly one space between them. |
| Strings.IsDigits | main.py:953 | An all-digits string is non-empty and holds no whitespace. |
| Strings.DecimalValue | main.py:955 | `int(s)` of a string of `k` digits is below `10^k`. |
| Strings.DecimalString | main.py:861 | `str(n)` is all digits, with no leading zero unless `n` is 0. |
| Strings.DecimalRoundTrip | main.py:955 | `int(str(n)) == n` for every natural `n`. |
| Fb2.FieldText | fb2_utils.py:147-152 | A field is set only from an existing child, and only to non-empty text that neither starts nor ends with whitespace. |
| Fb2.AuthorName | fb2_utils.py:123-135 | An author's name is empty exactly when the author's first, middle and last name parts are all empty or absent. |
| Fb2.AuthorNameFirstLast | fb2_utils.py:123-135 | An author with a first and a last name and no middle name is named first, space, last, whatever order the document gives the parts in. |
| Fb2.AuthorNames | fb2_utils.py:121-137 | There is at most one name per author, and authors whose name comes out empty are omitted. |
| Fb2.AuthorNamesAreTheAuthors | fb2_utils.py:121-137 | Every listed name is the name of one of the authors. Every author whose name is not empty is listed. |
| Fb2.GenreNames | fb2_utils.py:140-144 | There is at most one entry per genre, and empty genres are omitted. |
| Fb2.GenreNamesAreTheGenres | fb2_utils.py:140-144 | Every listed genre is the trimmed text of one of the genre elements. Every genre whose trimmed text is not empty is listed. |
| Fb2.DateOf | fb2_utils.py:155-174 | `publish-info/year` wins. `title-info/date` is used only when the year gives nothing. |
| Fb2.ParagraphOf | fb2_utils.py:183-186 | An element contributes a paragraph only when it is a `p` whose trimmed text is non-empty, and then contributes exactly that text. |
| Fb2.Paragraphs | fb2_utils.py:182-186 | Every collected paragraph is non-empty. There are no more paragraphs than elements walked. |
| Fb2.ParagraphsAreThePs | fb2_utils.py:182-186 | Every collected paragraph is the trimmed text of some `p` in the walk. Every `p` whose trimmed text is non-empty is collected. |
| Fb2.JoinParagraphs | fb2_utils.py:187-188 | The result is `None` exactly when there are no paragraphs. Otherwise it is a non-empty text that begins with the first paragraph. |
| Fb2.Href | fb2_utils.py:198 | A present and non-empty `href` wins. Otherwise the result is the XLink `href`, even when that is empty. The result is None only when neither applies. |
| Fb2.CoverId | fb2_utils.py:193-200 | A cover id is never empty and never starts with `#`. |
| Fb2.FindBinary | fb2_utils.py:203-205 | Finds nothing exactly when no `binary` element has the id. Otherwise it finds the first such element in document order. |
| Fb2.BodyParagraphs | fb2_utils.py:217-230 | Every full-text paragraph is non-empty. |
| Fb2.BodyParagraphsAreBodyPs | fb2_utils.py:217-230 | Every full-text paragraph comes from some direct `body` child. Every paragraph of every direct `body` child is collected. |
| Fb2.BookInfoOf | fb2_utils.py:83-237 | The title is never `None`. On a parse failure the title is the stem and every other field is at its default. Authors and genres hold no empty entries. Description and full text are `None` or non-empty, never `""`. |
| Fb2.ExtractFb2Title | fb2_utils.py:56-78 | A parse failure gives the stem. Any other result is non-empty and trimmed. |
| Fb2.TitleFastPathAgrees | fb2_utils.py:56-118 | For every parse result, the fast title path returns the title that the full parser records. |
| Fb2.ChildText | fb2_utils.py:148-152 | The lookup, strip and non-empty check computes `FieldText`. |
| Fb2.AuthorDisplayName | fb2_utils.py:123-135 | Collecting the parts and joining the non-empty ones computes `AuthorName`. |
| Fb2.CollectAuthors | fb2_utils.py:121-137 | The author loop computes `AuthorNames`. |
| Fb2.CollectGenres | fb2_utils.py:140-144 | The genre loop computes `GenreNames`. |
| Fb2.CollectParagraphs | fb2_utils.py:182-186 | The `p` loop appends exactly `Paragraphs` of the walk. |
| Fb2.FindCoverBytes | fb2_utils.py:203-213 | The search stops at the first matching `binary`, even when its text is empty. The result is the decoded trimmed text, or `None` when that text is empty or decoding fails. |
| Fb2.ReadTitle | fb2_utils.py:110-118 | Computes `TitleOf`: the trimmed book title, else the stem. |
| Fb2.ReadDate | fb2_utils.py:155-174 | Computes `DateOf`. |
| Fb2.ReadDescription | fb2_utils.py:177-188 | Computes `DescriptionOf`: the annotation's paragraphs. |
| Fb2.ReadCover | fb2_utils.py:192-213 | Computes `CoverOf`. |
| Fb2.ReadFullText | fb2_utils.py:217-235 | The loop over direct `body` children computes `FullTextOf`. |
| Fb2.ParseFb2BookInfo | fb2_utils.py:83-237 | The whole parser returns `BookInfoOf(root, stem, decode)`. |
| Pagination.CharsPerLine | main.py:787 | At least 20, and at least the clamped width divided by the character width. |
| Pagination.LinesPerPage | main.py:788 | At least 3, and at least the clamped height divided by the line spacing. |
| Pagination.Capacity | main.py:780-789 | At least 60 for any metrics, and at least what either dimension of the viewport fits. |
| Pagination.Margin | main.py:799 | `int(capacity * 0.8)` is the largest `r` with `5 * r <= 4 * capacity`. |
| Pagination.SplitPos | main.py:797-803 | `i < split_pos <= min(i + capacity, n)`. A cut before the window end falls on a space at least `int(0.8 * capacity)` past `i`. |
| Pagination.SplitPosIsLastSpace | main.py:800-803 | The cut is the last space in the search window. A hard cut happens only when the window, past `i`, holds no space. |
| Pagination.RawSlices | main.py:796-805 | There are no slices exactly when the start is at the end of the text. |
| Pagination.Paginate | main.py:772-811 | The pages are never empty. Empty text gives `[""]`. |
| Pagination.SplitPages | main.py:791-811 | The `while i < n` loop, with its empty-result fallback, computes `Paginate`. |
| Pagination.SlicesCoverText | main.py:796-805 | The raw slices are contiguous and their concatenation is the text. |
| Pagination.CoverStep | main.py:796-805 | One slice followed by slices that cover the rest of the text covers the text from that slice's start. |
| Pagination.SliceLengths | main.py:797-805 | Every raw slice has between 1 and `capacity` characters. |
| Pagination.SlicesBreakAtSpaces | main.py:797-805 | Each slice but the last is at least `int(0.8 * capacity)` long. It is either full or followed by a slice that starts with a space. |
| Pagination.NoSpaceSlicesAreFull | main.py:797-805 | In a text without spaces, every slice but the last is exactly `capacity` long. |
| Pagination.PagesAreStrippedSlices | main.py:804-805 | There is one page per slice, and a page is its slice stripped. Pages that strip to `""` are kept. |
| Pagination.RoundHalfEven | main.py:816 | The result is within one half of `x`. On a tie it is even. |
| Pagination.Clamp01 | main.py:815 | The result lies in [0, 1] and is the identity there. |
| Pagination.StartIndex | main.py:812-816 | The start index is a valid index, and 0 for a single page. |
| Pagination.RatioOf | main.py:831-834 | The ratio lies in [0, 1]. It is 0 on the first page and 1 on the last page when there are several. |
| Pagination.RoundInteger | main.py:816 | Rounding an integer gives it back. |
| Pagination.IndexRatioRoundTrip | main.py:812-834 | The start index of a page's own ratio is that page. |
| Pagination.RatioIndexRoundTrip | main.py:812-834 | The page a ratio selects has a ratio within half a page of the clamped ratio. |
| Pagination.HalfwayExamples | main.py:816 | Ratio 0.5 over 10 pages starts at index 4, because `round(4.5)` is 4. Over 20 pages it starts at index 10. Both are first openings from a stored 0.5. |
| Pagination.ResizeStartsFromShownPage | main.py:812-834 | Ratio 0.5 over 10 pages shows index 4, which stores the ratio 4/9. Re-paginating to 20 pages from that stored ratio gives index 8, not 10. |
| Reader.Clamp | main.py:827 | The result lies in `[lo, hi]`, and is the identity there. |
| Reader.PageEditRoundTrip | main.py:952-962 | The page box shows `str(idx + 1)`. Pressing return on that text selects page `idx` again. |
| Reader.ReadingText | main.py:894-896 | The text read is the full text when present, else the description, else the placeholder. It is never empty. |
| Reader.ReaderSession.constructor | main.py:104-115 | Nothing selected and not reading. No pages, index 0, and the restored progress map. |
| Reader.ReaderSession.SelectBook | main.py:671-682 | Selecting a book makes it current and leaves the reader view. |
| Reader.ReaderSession.ResetForRescan | main.py:598-602 | After a rescan no book is current, the reader view is left, and the text and pages are cleared with the index at 0. The progress map and the invariant are kept. |
| Reader.ReaderSession.BackToInfo | main.py:908-915 | Leaves the reader view and keeps the invariant. |
| Reader.ReaderSession.UpdatePageAndProgressLabels | main.py:838-876 | Progress is written, clamped, only while reading a non-empty page list for a current book. Otherwise it is unchanged. |
| Reader.ReaderSession.ShowCurrentPage | main.py:820-836 | Clamps the index into the pages and records that page's ratio. |
| Reader.ReaderSession.PaginateCurrentText | main.py:767-818 | The pages are `Paginate` of the current text at the capacity of the metrics, and the index is `StartIndex` of the ratio. While reading, the progress becomes the ratio of that page. |
| Reader.ReaderSession.OpenCurrentBook | main.py:880-906 | Does nothing with no current book. Otherwise it reads the full text, else the description, else the placeholder, and paginates from the stored progress, or from 0 when there is none. The progress map changes only at the current book, which gets the ratio of the page opened. |
| Reader.ReaderSession.GoToPage | main.py:922-934 | Does nothing when not reading or when there are no pages. Otherwise it moves to the index clamped to `[0, total-1]` and records the ratio. Moving to the current page changes nothing. |
| Reader.ReaderSession.GoNextPage | main.py:937-940 | Moves one page forward. On the last page it changes nothing. The progress map changes only at the current book, which gets the new page's ratio. |
| Reader.ReaderSession.GoPrevPage | main.py:942-945 | Moves one page back. On the first page it changes nothing. The progress map changes only at the current book, which gets the new page's ratio. |
| Reader.ReaderSession.OnPageEditReturn | main.py:947-962 | Input that is not all digits after stripping is ignored. Page number `p` moves to index `clamp(p, 1, total) - 1`. The progress map changes only at the current book, which gets the new page's ratio. |
| Reader.ReaderSession.OnReaderResized | main.py:966-975 | Re-paginates from the stored ratio. When the capacity is unchanged, the pages, the index and the progress are exactly what they were. Otherwise the progress map changes only at the current book, which gets the new page's ratio. |

## Left out

- Qt widgets and display:
  - layout, `ReaderTextEdit`, the event filter;
  - label texts and percentages, enabled states of buttons, `setPlainText`;
  - cover pixmap scaling.
- Only the state that the reading session changes is modelled.
- `QTimer.singleShot` deferral: `OpenCurrentBook` paginates at once, with the metrics as parameters.
- `ET.parse` and file reading: the input is the parse result.
- `os.path.splitext(os.path.basename(path))[0]`: the stem is a parameter.
- `base64.b64decode`: an arbitrary partial decoder, passed as a parameter.
- `os.path.abspath`: progress is keyed by the current path as given. The model treats paths as already absolute.
- `book_info_cache`: `OpenCurrentBook` receives the `BookInfo` record that the cache or the parser supplies.
- `build_tree_from_scan`: only its reset of the reading session is modelled, by `ResetForRescan`. The scan, the tree widgets and the metadata tasks are left out.
- `on_tree_selection_changed`: only the branch that selects an existing `.fb2` file is modelled, by `SelectBook`. Its file-system checks and the info-panel display are left out.
- The cache file, `save_cache`, `load_cache` and `apply_ui_state` are JSON I/O. The progress map they restore is the constructor's parameter.
- `tree_view.py` moves files on disk and runs background workers. `theme.py` holds style constants only.
- The `ratio` that `go_to_page` computes and never uses is not modelled.
- Floating point:
  - The progress ratio is an exact real.
  - `int(capacity * 0.8)` is modelled as `(4 * capacity) / 5`. The two are equal for every page capacity below 2^50, which covers every capacity a viewport can produce.
  - `round(ratio * (len - 1))` uses exact arithmetic.
  - `IndexRatioRoundTrip` and `OnReaderResized` do not model the rounding error of `idx / (len - 1)`.
- Reader.ReaderSession.OnPageEditReturn: treats a digit string with any non-ASCII digit as not digits, and ignores it. The source parses some of these: `"٣"` goes to page 3. It raises on others, such as `"²"`.
- Reader.ReaderSession.OnPageEditReturn: does not capture that `int` raises `ValueError` on a digit string longer than 4300 characters, which is CPython's default conversion limit. The exception is uncaught in a Qt slot and ends the program. The model moves to the last page instead.
- Strings.IsDigits: ASCII `0`-`9` only, for the same reason.
- Strings.DecimalString: natural numbers only. `str` of a negative page number never occurs, since the page shown is at least 1.
