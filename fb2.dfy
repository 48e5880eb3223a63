/**
 * Metadata extraction from a parsed FictionBook 2 document (fb2_utils.py).
 *
 * The input is the parse result: `None` when the file could not be parsed,
 * otherwise the root element. The file name's stem (`splitext(basename(path))[0]`)
 * and the base64 decoder are parameters; the decoder is partial and answers
 * `None` where `base64.b64decode` raises.
 */
module Fb2 {
  import opened Wrappers
  import opened Strings
  import opened XmlTree

  newtype byte = x: int | 0 <= x < 256

  /** Decodes base64 text into bytes, or fails. */
  type Decoder = string -> Option<seq<byte>>

  /** The `BookInfo` record. */
  datatype BookInfo = BookInfo(
    title: Option<string>,
    authors: seq<string>,
    genres: seq<string>,
    publisher: Option<string>,
    date: Option<string>,
    lang: Option<string>,
    description: Option<string>,
    coverBytes: Option<seq<byte>>,
    fullText: Option<string>)

  /** `BookInfo()`: every field at its default. */
  const EmptyInfo := BookInfo(None, [], [], None, None, None, None, None, None)

  /** The attribute key ElementTree gives `xlink:href`. */
  const XlinkHref := "{http://www.w3.org/1999/xlink}href"

  /** The separator between paragraphs of the description and the full text. */
  const ParagraphSeparator := "\n\n"

  // ---------- specification of each field ----------

  /** `_find_first_child(parent, name) if parent is not None else None`. */
  function Child(parent: Option<Element>, name: string): Option<Element>
  {
    if parent.None? then None else FindFirstChild(parent.value.children, name)
  }

  /** `_elem_text(e).strip()`. */
  function StrippedText(e: Element): string
  {
    Strip(TextContent(Some(e)))
  }

  /** The `description/title-info` block of the document. */
  function TitleInfo(root: Element): Option<Element>
  {
    Child(Child(Some(root), "description"), "title-info")
  }

  /** The `description/publish-info` block of the document. */
  function PublishInfo(root: Element): Option<Element>
  {
    Child(Child(Some(root), "description"), "publish-info")
  }

  /** The trimmed text of the first `name` child of `parent`, kept only when
      it is not empty: the rule for book-title, lang, publisher, year and date. */
  function FieldText(parent: Option<Element>, name: string): (r: Option<string>)
    ensures r.Some? ==> r.value != [] && !IsSpace(r.value[0]) && !IsSpace(r.value[|r.value| - 1])
    ensures r.Some? ==> Child(parent, name).Some?
  {
    match Child(parent, name)
    case None => None
    case Some(c) => var t := StrippedText(c); if t == "" then None else Some(t)
  }

  /** The display title: the trimmed `book-title` text, else the file stem. */
  function TitleOf(root: Element, stem: string): string
  {
    match FieldText(TitleInfo(root), "book-title")
    case Some(t) => t
    case None => stem
  }

  /** The trimmed text of the first `part` child of an author, as a one-element
      list, or nothing when the author has no such child. */
  function NamePart(author: Element, part: string): seq<string>
  {
    match FindFirstChild(author.children, part)
    case Some(c) => [StrippedText(c)]
    case None => []
  }

  /** One author's display name: the trimmed first, middle and last name parts,
      absent or empty ones skipped, joined by single spaces. */
  function AuthorName(author: Element): (r: string)
    ensures r == "" <==> forall k :: 0 <= k < |NameParts(author)| ==> NameParts(author)[k] == ""
  {
    var parts := NameParts(author);
    var kept := NonEmptyOnly(parts);
    assert kept == [] <==> forall k :: 0 <= k < |parts| ==> parts[k] == "" by {
      if kept != [] {
        assert kept[0] in kept;
      }
      if exists k :: 0 <= k < |parts| && parts[k] != "" {
        var k :| 0 <= k < |parts| && parts[k] != "";
        assert parts[k] in parts;
      }
    }
    assert kept != [] ==> kept[0] != "" by {
      if kept != [] {
        assert kept[0] in kept;
      }
    }
    Join(" ", kept)
  }

  /** The first, middle and last name parts an author has, in that order. */
  function NameParts(author: Element): seq<string>
  {
    NamePart(author, "first-name") + NamePart(author, "middle-name") + NamePart(author, "last-name")
  }

  /** With no middle name, an author's name is the first name, one space,
      and the last name, whichever order the document gives them in. */
  lemma AuthorNameFirstLast(author: Element, first: string, last: string)
    requires first != "" && last != ""
    requires NamePart(author, "first-name") == [first]
    requires NamePart(author, "middle-name") == []
    requires NamePart(author, "last-name") == [last]
    ensures AuthorName(author) == first + " " + last
  {
    assert [first] + [] + [last] == [first, last];
    JoinTwo(first, last);
  }

  /** The names of a list of `author` elements, those that come out empty dropped. */
  function AuthorNames(authors: seq<Element>): (r: seq<string>)
    ensures |r| <= |authors|
    ensures forall k :: 0 <= k < |r| ==> r[k] != ""
  {
    if authors == [] then []
    else
      var init := AuthorNames(authors[..|authors| - 1]);
      var name := AuthorName(authors[|authors| - 1]);
      if name == "" then init else init + [name]
  }

  /** The trimmed texts of a list of `genre` elements, empty ones dropped. */
  function GenreNames(genres: seq<Element>): (r: seq<string>)
    ensures |r| <= |genres|
    ensures forall k :: 0 <= k < |r| ==> r[k] != ""
  {
    if genres == [] then []
    else
      var init := GenreNames(genres[..|genres| - 1]);
      var g := StrippedText(genres[|genres| - 1]);
      if g == "" then init else init + [g]
  }

  /** Every listed name is the name of one of the authors, and every author
      whose name is not empty is listed. */
  lemma {:induction false} AuthorNamesAreTheAuthors(authors: seq<Element>)
    ensures forall t :: t in AuthorNames(authors) ==> exists a :: a in authors && AuthorName(a) == t
    ensures forall a :: a in authors && AuthorName(a) != "" ==> AuthorName(a) in AuthorNames(authors)
  {
    if authors != [] {
      var init := authors[..|authors| - 1];
      var last := authors[|authors| - 1];
      AuthorNamesAreTheAuthors(init);
      assert authors == init + [last];
      forall t | t in AuthorNames(authors)
        ensures exists a :: a in authors && AuthorName(a) == t
      {
        if t in AuthorNames(init) {
          var a :| a in init && AuthorName(a) == t;
          assert a in authors;
        } else {
          assert last in authors;
        }
      }
    }
  }

  /** Every listed genre is the trimmed text of one of the genre elements, and
      every genre whose trimmed text is not empty is listed. */
  lemma {:induction false} GenreNamesAreTheGenres(genres: seq<Element>)
    ensures forall t :: t in GenreNames(genres) ==> exists g :: g in genres && StrippedText(g) == t
    ensures forall g :: g in genres && StrippedText(g) != "" ==> StrippedText(g) in GenreNames(genres)
  {
    if genres != [] {
      var init := genres[..|genres| - 1];
      var last := genres[|genres| - 1];
      GenreNamesAreTheGenres(init);
      assert genres == init + [last];
      forall t | t in GenreNames(genres)
        ensures exists g :: g in genres && StrippedText(g) == t
      {
        if t in GenreNames(init) {
          var g :| g in init && StrippedText(g) == t;
          assert g in genres;
        } else {
          assert last in genres;
        }
      }
    }
  }

  function AuthorsOf(titleInfo: Option<Element>): seq<string>
  {
    if titleInfo.None? then [] else AuthorNames(ChildrenNamed(titleInfo.value.children, "author"))
  }

  function GenresOf(titleInfo: Option<Element>): seq<string>
  {
    if titleInfo.None? then [] else GenreNames(ChildrenNamed(titleInfo.value.children, "genre"))
  }

  /** The publication date: `publish-info/year` first, `title-info/date` only
      when the year gave nothing. */
  function DateOf(titleInfo: Option<Element>, publishInfo: Option<Element>): (r: Option<string>)
    ensures FieldText(publishInfo, "year").Some? ==> r == FieldText(publishInfo, "year")
    ensures FieldText(publishInfo, "year").None? ==> r == FieldText(titleInfo, "date")
  {
    var year := FieldText(publishInfo, "year");
    if year.Some? then year else FieldText(titleInfo, "date")
  }

  /** The trimmed, non-empty texts of the `p` elements of a pre-order walk, in
      order. */
  function Paragraphs(walk: seq<Element>): (r: seq<string>)
    ensures |r| <= |walk|
    ensures forall k :: 0 <= k < |r| ==> r[k] != ""
  {
    if walk == [] then []
    else Paragraphs(walk[..|walk| - 1]) + ParagraphOf(walk[|walk| - 1])
  }

  /** What one element of a walk contributes: its trimmed text when it is a
      `p` and that text is not empty, otherwise nothing. */
  function ParagraphOf(e: Element): (r: seq<string>)
    ensures |r| <= 1
    ensures r != [] ==> Named(e, "p") && r[0] == StrippedText(e) && r[0] != ""
  {
    var t := StrippedText(e);
    if Named(e, "p") && t != "" then [t] else []
  }

  /** Every collected paragraph is the trimmed text of some `p` of the walk,
      and every `p` of the walk whose trimmed text is not empty is collected. */
  lemma {:induction false} ParagraphsAreThePs(walk: seq<Element>)
    ensures forall t :: t in Paragraphs(walk) ==> exists e :: e in walk && Named(e, "p") && StrippedText(e) == t
    ensures forall e :: e in walk && Named(e, "p") && StrippedText(e) != "" ==> StrippedText(e) in Paragraphs(walk)
  {
    if walk != [] {
      var init := walk[..|walk| - 1];
      var e := walk[|walk| - 1];
      ParagraphsAreThePs(init);
      assert walk == init + [e];
      forall t | t in Paragraphs(walk)
        ensures exists x :: x in walk && Named(x, "p") && StrippedText(x) == t
      {
        if t in Paragraphs(init) {
          var x :| x in init && Named(x, "p") && StrippedText(x) == t;
          assert x in walk;
        } else {
          assert e in walk;
        }
      }
    }
  }

  /** `"\n\n".join(paras) if paras else None`. */
  function JoinParagraphs(paras: seq<string>): (r: Option<string>)
    requires forall k :: 0 <= k < |paras| ==> paras[k] != ""
    ensures r.None? <==> paras == []
    ensures r.Some? ==> |r.value| >= |paras[0]| && r.value[..|paras[0]|] == paras[0]
    ensures r.Some? ==> r.value != ""
  {
    if paras == [] then None
    else
      Some(Join(ParagraphSeparator, paras))
  }

  /** The annotation: every `p` under `title-info/annotation`. */
  function DescriptionOf(titleInfo: Option<Element>): Option<string>
  {
    match Child(titleInfo, "annotation")
    case None => None
    case Some(annotation) => JoinParagraphs(Paragraphs(Iter(annotation)))
  }

  /** `attrib.get("href") or attrib.get(xlink:href)`: the unprefixed `href`
      when it is present and not empty, else the XLink one (possibly absent). */
  function Href(attrib: map<string, string>): (r: Option<string>)
    ensures r.None? <==> !("href" in attrib && attrib["href"] != "") && XlinkHref !in attrib
    ensures "href" in attrib && attrib["href"] != "" ==> r == Some(attrib["href"])
    ensures r.Some? && !("href" in attrib && attrib["href"] != "") ==> XlinkHref in attrib && r.value == attrib[XlinkHref]
  {
    if "href" in attrib && attrib["href"] != "" then Some(attrib["href"])
    else if XlinkHref in attrib then Some(attrib[XlinkHref])
    else None
  }

  /** The id the cover image refers to: the `href` of
      `title-info/coverpage/image` with all leading `#` removed, when that
      leaves something. */
  function CoverId(titleInfo: Option<Element>): (r: Option<string>)
    ensures r.Some? ==> r.value != "" && r.value[0] != '#'
  {
    match Child(Child(titleInfo, "coverpage"), "image")
    case None => None
    case Some(image) =>
      var href := Href(image.attrib);
      if href.None? || href.value == "" then None
      else
        var id := LStripChar(href.value, '#');
        if id == "" then None else Some(id)
  }

  /** Is `e` a `binary` element whose `id` attribute is `id`? */
  predicate IsBinaryFor(e: Element, id: string)
  {
    Named(e, "binary") && "id" in e.attrib && e.attrib["id"] == id
  }

  /** The first `binary` element of a walk whose `id` is `id`. */
  function FindBinary(walk: seq<Element>, id: string): (r: Option<Element>)
    ensures r.None? <==> forall k :: 0 <= k < |walk| ==> !IsBinaryFor(walk[k], id)
    ensures r.Some? ==> exists k :: 0 <= k < |walk| && walk[k] == r.value && IsBinaryFor(r.value, id) &&
                                    forall j :: 0 <= j < k ==> !IsBinaryFor(walk[j], id)
  {
    if walk == [] then None
    else if IsBinaryFor(walk[0], id) then Some(walk[0])
    else
      var r := FindBinary(walk[1..], id);
      assert forall k :: 1 <= k < |walk| ==> walk[k] == walk[1..][k - 1];
      r
  }

  /** The cover bytes: the decoded, trimmed text of the first matching
      `binary` element anywhere in the document. */
  function CoverOf(root: Element, titleInfo: Option<Element>, decode: Decoder): Option<seq<byte>>
  {
    match CoverId(titleInfo)
    case None => None
    case Some(id) =>
      match FindBinary(Iter(root), id)
      case None => None
      case Some(binary) =>
        var data := StrippedText(binary);
        if data == "" then None else decode(data)
  }

  /** The paragraphs of every direct `body` child among `children`, bodies in
      document order. */
  function BodyParagraphs(children: seq<Element>): (r: seq<string>)
    ensures forall k :: 0 <= k < |r| ==> r[k] != ""
  {
    if children == [] then []
    else
      var init := BodyParagraphs(children[..|children| - 1]);
      var c := children[|children| - 1];
      if Named(c, "body") then init + Paragraphs(Iter(c)) else init
  }

  /** Each paragraph of the bodies comes from some direct `body` child, and
      every paragraph of every direct `body` child is collected. */
  lemma {:induction false} BodyParagraphsAreBodyPs(children: seq<Element>)
    ensures forall t :: t in BodyParagraphs(children) ==>
              exists c :: c in children && Named(c, "body") && t in Paragraphs(Iter(c))
    ensures forall c, t :: c in children && Named(c, "body") && t in Paragraphs(Iter(c)) ==>
              t in BodyParagraphs(children)
  {
    if children != [] {
      var init := children[..|children| - 1];
      BodyParagraphsAreBodyPs(init);
      assert children == init + [children[|children| - 1]];
    }
  }

  function FullTextOf(root: Element): Option<string>
  {
    JoinParagraphs(BodyParagraphs(root.children))
  }

  /** What `parse_fb2_book_info` returns for a parse result. */
  function BookInfoOf(root: Option<Element>, stem: string, decode: Decoder): (r: BookInfo)
    ensures r.title.Some?
    ensures root.None? ==> r == EmptyInfo.(title := Some(stem))
    ensures forall k :: 0 <= k < |r.authors| ==> r.authors[k] != ""
    ensures forall k :: 0 <= k < |r.genres| ==> r.genres[k] != ""
    ensures r.description.Some? ==> r.description.value != ""
    ensures r.fullText.Some? ==> r.fullText.value != ""
  {
    match root
    case None => EmptyInfo.(title := Some(stem))
    case Some(r) =>
      var titleInfo := TitleInfo(r);
      var publishInfo := PublishInfo(r);
      BookInfo(
        title := Some(TitleOf(r, stem)),
        authors := AuthorsOf(titleInfo),
        genres := GenresOf(titleInfo),
        publisher := FieldText(publishInfo, "publisher"),
        date := DateOf(titleInfo, publishInfo),
        lang := FieldText(titleInfo, "lang"),
        description := DescriptionOf(titleInfo),
        coverBytes := CoverOf(r, titleInfo, decode),
        fullText := FullTextOf(r))
  }

  // ---------- the title-only fast path ----------

  /** `extract_fb2_title`: the trimmed `description/title-info/book-title`
      text, or the file stem when parsing failed or that text is missing or
      blank. */
  function ExtractFb2Title(root: Option<Element>, stem: string): (r: string)
    ensures root.None? ==> r == stem
    ensures r != stem ==> r != "" && !IsSpace(r[0]) && !IsSpace(r[|r| - 1])
  {
    if root.None? then stem
    else
      var description := FindFirstChild(root.value.children, "description");
      if description.Some? then
        var titleInfo := FindFirstChild(description.value.children, "title-info");
        if titleInfo.Some? then
          var bookTitle := FindFirstChild(titleInfo.value.children, "book-title");
          if bookTitle.Some? then
            var text := Strip(TextContent(bookTitle));
            if text != "" then text else stem
          else stem
        else stem
      else stem
  }

  /** The fast path and the full parser agree on the title, for every parse
      result and every decoder. */
  lemma TitleFastPathAgrees(root: Option<Element>, stem: string, decode: Decoder)
    ensures BookInfoOf(root, stem, decode).title == Some(ExtractFb2Title(root, stem))
  {
    if root.Some? {
      var r := root.value;
      assert BookInfoOf(root, stem, decode).title == Some(TitleOf(r, stem));
      var description := FindFirstChild(r.children, "description");
      if description.Some? {
        var titleInfo := FindFirstChild(description.value.children, "title-info");
        assert TitleInfo(r) == titleInfo;
      } else {
        assert TitleInfo(r) == None;
      }
    }
  }

  // ---------- the full parser ----------

  /** The recurring `_find_first_child` / `_elem_text(...).strip()` / `if txt:`
      step of `parse_fb2_book_info`. */
  method ChildText(parent: Element, name: string) returns (r: Option<string>)
    ensures r == FieldText(Some(parent), name)
  {
    r := None;
    var child := FindFirstChild(parent.children, name);
    if child.Some? {
      var txt := ElemText(child);
      txt := Strip(txt);
      if txt != "" {
        r := Some(txt);
      }
    }
  }

  /** The body of the author loop: first, middle and last name parts, trimmed,
      empty ones skipped, joined with spaces. */
  method AuthorDisplayName(author: Element) returns (name: string)
    ensures name == AuthorName(author)
  {
    var firstName := FindFirstChild(author.children, "first-name");
    var lastName := FindFirstChild(author.children, "last-name");
    var middleName := FindFirstChild(author.children, "middle-name");

    var parts: seq<string> := [];
    if firstName.Some? {
      var t := ElemText(firstName);
      parts := parts + [Strip(t)];
    }
    assert parts == NamePart(author, "first-name");
    if middleName.Some? {
      var t := ElemText(middleName);
      parts := parts + [Strip(t)];
    }
    assert parts == NamePart(author, "first-name") + NamePart(author, "middle-name");
    if lastName.Some? {
      var t := ElemText(lastName);
      parts := parts + [Strip(t)];
    }
    assert parts == NamePart(author, "first-name") + NamePart(author, "middle-name") + NamePart(author, "last-name");
    name := Join(" ", NonEmptyOnly(parts));
  }

  /** The author loop: appends each non-empty display name. */
  method CollectAuthors(authors: seq<Element>) returns (names: seq<string>)
    ensures names == AuthorNames(authors)
  {
    names := [];
    for k := 0 to |authors|
      invariant names == AuthorNames(authors[..k])
    {
      var name := AuthorDisplayName(authors[k]);
      assert authors[..k + 1][..k] == authors[..k];
      if name != "" {
        names := names + [name];
      }
    }
    assert authors[..|authors|] == authors;
  }

  /** The genre loop: appends each non-empty trimmed genre text. */
  method CollectGenres(genres: seq<Element>) returns (names: seq<string>)
    ensures names == GenreNames(genres)
  {
    names := [];
    for k := 0 to |genres|
      invariant names == GenreNames(genres[..k])
    {
      var g := ElemText(Some(genres[k]));
      g := Strip(g);
      assert genres[..k + 1][..k] == genres[..k];
      if g != "" {
        names := names + [g];
      }
    }
    assert genres[..|genres|] == genres;
  }

  /** The `for elem in x.iter(): if _local_name(elem.tag) == "p": ...` loop,
      shared by the annotation and every body: appends the non-empty trimmed
      text of each `p` of the walk to `paras`. */
  method CollectParagraphs(walk: seq<Element>, paras: seq<string>) returns (result: seq<string>)
    ensures result == paras + Paragraphs(walk)
  {
    result := paras;
    for k := 0 to |walk|
      invariant result == paras + Paragraphs(walk[..k])
    {
      var elem := walk[k];
      ghost var before := result;
      if LocalName(elem.tag) == "p" {
        var t := ElemText(Some(elem));
        t := Strip(t);
        if t != "" {
          result := result + [t];
        }
        assert result == before + ParagraphOf(elem);
      } else {
        assert ParagraphOf(elem) == [];
      }
      ParagraphsStep(walk, k, paras, before, result);
    }
    assert walk[..|walk|] == walk;
  }

  /** One iteration of the paragraph loop extends `Paragraphs` by one element
      of the walk. */
  lemma ParagraphsStep(walk: seq<Element>, k: nat, paras: seq<string>, before: seq<string>, after: seq<string>)
    requires k < |walk|
    requires before == paras + Paragraphs(walk[..k])
    requires after == before + ParagraphOf(walk[k])
    ensures after == paras + Paragraphs(walk[..k + 1])
  {
    ParagraphsPrefix(walk, k);
    assert (paras + Paragraphs(walk[..k])) + ParagraphOf(walk[k]) ==
           paras + (Paragraphs(walk[..k]) + ParagraphOf(walk[k]));
  }

  /** `Paragraphs` of a prefix of the walk one element longer. */
  lemma ParagraphsPrefix(walk: seq<Element>, k: nat)
    requires k < |walk|
    ensures Paragraphs(walk[..k + 1]) == Paragraphs(walk[..k]) + ParagraphOf(walk[k])
  {
    assert walk[..k + 1][..k] == walk[..k];
  }

  /** The cover search: the first `binary` of the walk whose `id` matches ends
      the search; its trimmed text, when not empty, is decoded. */
  method FindCoverBytes(walk: seq<Element>, id: string, decode: Decoder) returns (cover: Option<seq<byte>>)
    ensures cover == (match FindBinary(walk, id)
                      case None => None
                      case Some(binary) => var data := StrippedText(binary); if data == "" then None else decode(data))
  {
    cover := None;
    var k := 0;
    while k < |walk|
      invariant 0 <= k <= |walk|
      invariant FindBinary(walk, id) == FindBinary(walk[k..], id)
    {
      var binElem := walk[k];
      assert walk[k..][1..] == walk[k + 1..];
      if LocalName(binElem.tag) == "binary" {
        if "id" in binElem.attrib && binElem.attrib["id"] == id {
          var dataBase64 := ElemText(Some(binElem));
          dataBase64 := Strip(dataBase64);
          if dataBase64 != "" {
            cover := decode(dataBase64);
          }
          return;
        }
      }
      k := k + 1;
    }
  }

  /** The title block: the trimmed `book-title` text, falling back to the
      file stem when it is missing or blank. */
  method ReadTitle(root: Element, titleInfo: Option<Element>, stem: string) returns (title: Option<string>)
    requires titleInfo == TitleInfo(root)
    ensures title == Some(TitleOf(root, stem))
  {
    title := None;
    if titleInfo.Some? {
      var txt := ChildText(titleInfo.value, "book-title");
      if txt.Some? {
        title := txt;
      }
    }
    if title.None? || title.value == "" {
      title := Some(stem);
    }
  }

  /** The publisher/date block: `publish-info/year` sets the date, and
      `title-info/date` is read only while the date is still unset. */
  method ReadDate(titleInfo: Option<Element>, publishInfo: Option<Element>) returns (date: Option<string>)
    ensures date == DateOf(titleInfo, publishInfo)
  {
    date := None;
    if publishInfo.Some? {
      var year := ChildText(publishInfo.value, "year");
      if year.Some? {
        date := year;
      }
    }
    if (date.None? || date.value == "") && titleInfo.Some? {
      var d := ChildText(titleInfo.value, "date");
      if d.Some? {
        date := d;
      }
    }
  }

  /** The annotation block: the `p` paragraphs under `title-info/annotation`
      joined with blank lines, or None when there are none. */
  method ReadDescription(titleInfo: Option<Element>) returns (description: Option<string>)
    ensures description == DescriptionOf(titleInfo)
  {
    description := None;
    if titleInfo.Some? {
      var annotation := FindFirstChild(titleInfo.value.children, "annotation");
      if annotation.Some? {
        var paras := CollectParagraphs(Iter(annotation.value), []);
        assert paras == Paragraphs(Iter(annotation.value));
        if paras != [] {
          description := Some(Join(ParagraphSeparator, paras));
        }
      }
    }
  }

  /** The cover block: resolves the image reference and looks it up among all
      `binary` elements of the document. */
  method ReadCover(root: Element, titleInfo: Option<Element>, decode: Decoder) returns (cover: Option<seq<byte>>)
    ensures cover == CoverOf(root, titleInfo, decode)
  {
    cover := None;
    var coverId: Option<string> := None;
    if titleInfo.Some? {
      var coverpage := FindFirstChild(titleInfo.value.children, "coverpage");
      if coverpage.Some? {
        var image := FindFirstChild(coverpage.value.children, "image");
        if image.Some? {
          var href := Href(image.value.attrib);
          if href.Some? && href.value != "" {
            coverId := Some(LStripChar(href.value, '#'));
          }
        }
      }
    }
    if coverId.Some? && coverId.value != "" {
      cover := FindCoverBytes(Iter(root), coverId.value, decode);
    }
  }

  /** The full-text block: the `p` paragraphs of every direct `body` child of
      the root, joined with blank lines, or None when there are none. */
  method ReadFullText(root: Element) returns (fullText: Option<string>)
    ensures fullText == FullTextOf(root)
  {
    var paragraphs: seq<string> := [];
    for b := 0 to |root.children|
      invariant paragraphs == BodyParagraphs(root.children[..b])
    {
      var body := root.children[b];
      assert root.children[..b + 1][..b] == root.children[..b];
      if LocalName(body.tag) != "body" {
        continue;
      }
      paragraphs := CollectParagraphs(Iter(body), paragraphs);
    }
    assert root.children[..|root.children|] == root.children;
    if paragraphs != [] {
      fullText := Some(Join(ParagraphSeparator, paragraphs));
    } else {
      fullText := None;
    }
  }

  /** `parse_fb2_book_info`: a record with only the stem as title when parsing
      failed, otherwise every field read block by block from the tree. */
  method ParseFb2BookInfo(root: Option<Element>, stem: string, decode: Decoder) returns (info: BookInfo)
    ensures info == BookInfoOf(root, stem, decode)
  {
    info := EmptyInfo;
    if root.None? {
      info := info.(title := Some(stem));
      return;
    }
    var r := root.value;

    var description := FindFirstChild(r.children, "description");
    var titleInfo := if description.Some? then FindFirstChild(description.value.children, "title-info") else None;
    var publishInfo: Option<Element> := None;
    if description.Some? {
      publishInfo := FindFirstChild(description.value.children, "publish-info");
    }

    var title := ReadTitle(r, titleInfo, stem);
    info := info.(title := title);

    if titleInfo.Some? {
      var authors := CollectAuthors(ChildrenNamed(titleInfo.value.children, "author"));
      var genres := CollectGenres(ChildrenNamed(titleInfo.value.children, "genre"));
      var lang := ChildText(titleInfo.value, "lang");
      info := info.(authors := authors, genres := genres, lang := lang);
    }

    if publishInfo.Some? {
      var publisher := ChildText(publishInfo.value, "publisher");
      info := info.(publisher := publisher);
    }
    var date := ReadDate(titleInfo, publishInfo);
    var annotation := ReadDescription(titleInfo);
    var cover := ReadCover(r, titleInfo, decode);
    var fullText := ReadFullText(r);
    info := info.(date := date, description := annotation, coverBytes := cover, fullText := fullText);
  }
}
