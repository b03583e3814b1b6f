/** The display model of a book and how `fetchBooks` in the browser page
    builds it from the items the catalog API returns
    (backend/public/app.js, lines 54-62). */
module Books {
  import opened Js

  /** `volumeInfo.imageLinks` of an upstream item. */
  datatype ImageLinks = ImageLinks(thumbnail: Option<string>)

  /** `volumeInfo` of an upstream item; every field may be missing. */
  datatype VolumeInfo = VolumeInfo(
    title: JsString,
    authors: Option<seq<string>>,
    imageLinks: Option<ImageLinks>,
    description: Option<string>,
    previewLink: Option<string>)

  /** One entry of the upstream `items` array. */
  datatype Item = Item(volumeInfo: Option<VolumeInfo>)

  /** The card model. `title` is copied without a fallback, so it stays
      optional; every other field has one. */
  datatype Book = Book(
    title: JsString,
    author: string,
    cover: string,
    description: string,
    link: string)

  const UnknownAuthor := "Unknown Author"
  const PlaceholderCover := "https://via.placeholder.com/120x180?text=No+Cover"
  const NoDescription := "No description available."
  const NoLink := "#"

  /** `authors?.join(", ") || "Unknown Author"`. */
  function AuthorLine(authors: Option<seq<string>>): (r: string)
    ensures r != ""
    ensures authors.None? || authors.value == [] || authors.value == [""] ==> r == UnknownAuthor
    ensures authors.Some? && authors.value != [] && authors.value != [""] ==> r == Join(authors.value, ", ")
  {
    var joined := if authors.Some? then Some(Join(authors.value, ", ")) else None;
    assert authors.Some? ==> (joined.value == "" <==> authors.value == [] || authors.value == [""]) by {
      if authors.Some? { JoinEmptyIff(authors.value, ", "); }
    }
    OrElse(joined, UnknownAuthor)
  }

  /** `imageLinks?.thumbnail`. */
  function Thumbnail(links: Option<ImageLinks>): (thumb: Option<string>)
    ensures links.None? ==> thumb.None?
    ensures links.Some? ==> thumb == links.value.thumbnail
  {
    if links.Some? then links.value.thumbnail else None
  }

  /** The object literal built for one item: the title as it is, every other
      field from the upstream value when that is truthy, else its fallback. */
  function ToBook(v: VolumeInfo): (b: Book)
    ensures b.title == v.title
    ensures b.author != "" && b.cover != "" && b.description != "" && b.link != ""
    ensures b.author == AuthorLine(v.authors)
    ensures Truthy(Thumbnail(v.imageLinks)) ==> b.cover == Thumbnail(v.imageLinks).value
    ensures !Truthy(Thumbnail(v.imageLinks)) ==> b.cover == PlaceholderCover
    ensures Truthy(v.description) ==> b.description == v.description.value
    ensures !Truthy(v.description) ==> b.description == NoDescription
    ensures Truthy(v.previewLink) ==> b.link == v.previewLink.value
    ensures !Truthy(v.previewLink) ==> b.link == NoLink
  {
    Book(
      v.title,
      AuthorLine(v.authors),
      OrElse(Thumbnail(v.imageLinks), PlaceholderCover),
      OrElse(v.description, NoDescription),
      OrElse(v.previewLink, NoLink))
  }

  /** `items.map(...)`. Reading `item.volumeInfo.title` of an item without
      `volumeInfo` throws, which rejects the whole promise: `None`. */
  function MapItems(items: seq<Item>): (r: Option<seq<Book>>)
    ensures r.Some? <==> forall i :: 0 <= i < |items| ==> items[i].volumeInfo.Some?
    ensures r.Some? ==> |r.value| == |items|
    ensures r.Some? ==> forall i :: 0 <= i < |items| ==> r.value[i] == ToBook(items[i].volumeInfo.value)
  {
    if items == [] then Some([])
    else
      match items[0].volumeInfo
      case None => None
      case Some(v) =>
        var rest := MapItems(items[1..]);
        if rest.None? then None else Some([ToBook(v)] + rest.value)
  }

  /** The second `.then` of `fetchBooks`: a missing `items` is the empty list. */
  function Normalize(items: Option<seq<Item>>): (r: Option<seq<Book>>)
    ensures items.None? ==> r == Some([])
    ensures items.Some? ==> r == MapItems(items.value)
  {
    if items.None? then Some([]) else MapItems(items.value)
  }

  /** One book per item, in the same order, titles copied as they are. */
  lemma NormalizeKeepsItems(items: seq<Item>)
    requires forall i :: 0 <= i < |items| ==> items[i].volumeInfo.Some?
    ensures Normalize(Some(items)).Some?
    ensures |Normalize(Some(items)).value| == |items|
    ensures forall i :: 0 <= i < |items| ==>
      Normalize(Some(items)).value[i].title == items[i].volumeInfo.value.title
  {
  }

  /** A volume with one non-empty author is shown under that author's name. */
  lemma SingleAuthorShown(v: VolumeInfo, a: string)
    requires v.authors == Some([a]) && a != ""
    ensures ToBook(v).author == a
  {
    assert Join([a], ", ") == a;
  }
}
