/** The search flow of the browser page: `handleSearch`, the outcome of
    `fetchBooks` and the branch choice of `renderBooks`
    (backend/public/app.js, lines 12-28, 42-83). */
module SearchUi {
  import opened Js
  import opened Books

  /** The JSON body of a successful `/api/books` reply, as far as the page
      reads it. */
  datatype Payload = Payload(items: Option<seq<Item>>)

  /** What `fetch` delivers for a request: a rejected promise, or a response
      with its `ok` flag and its body, `None` when `response.json()` fails. */
  datatype Response = NetworkError | Http(ok: bool, body: Option<Payload>)

  /** What the results container ends up showing. */
  datatype View = Message(text: string) | Spinner | Grid(books: seq<Book>)

  /** The outcome of one search: the query sent to the backend, if any, and
      the final view. */
  datatype Search = Search(request: Option<string>, view: View)

  const PromptText := "Please enter a search term."
  const FailureText := "Oops! Something went wrong."

  /** `fetchBooks`: `None` when the promise rejects (transport failure, a
      response that is not ok, a body that is not JSON, or an item without
      `volumeInfo`); otherwise the normalised books. */
  function FetchBooks(response: Response): (r: Option<seq<Book>>)
    ensures response.NetworkError? || (response.Http? && !response.ok) ==> r.None?
    ensures response.Http? && response.ok && response.body.Some? && response.body.value.items.None?
      ==> r == Some([])
    ensures r.Some? ==> response.Http? && response.ok && response.body.Some?
    ensures response.Http? && response.ok && response.body.Some? ==> r == Normalize(response.body.value.items)
  {
    match response
    case NetworkError => None
    case Http(ok, body) =>
      if !ok then None
      else if body.None? then None
      else Normalize(body.value.items)
  }

  /** `renderBooks`: an empty list shows the loading spinner, anything else
      a grid of cards in the order given. */
  function RenderBooks(books: seq<Book>): (v: View)
    ensures v == Spinner <==> books == []
    ensures books != [] ==> v == Grid(books)
    ensures !v.Message?
  {
    if |books| == 0 then Spinner else Grid(books)
  }

  /** `handleSearch`, with `respond` standing for the backend: the reply it
      would give to a query. */
  function HandleSearch(input: string, respond: string -> Response): (s: Search)
    ensures s.request.None? <==> AllSpace(input)
    ensures s.request.Some? ==> s.request.value == Trim(input) && s.request.value != ""
    ensures s.view == Message(PromptText) <==> AllSpace(input)
    ensures s.request.Some? && FetchBooks(respond(s.request.value)).None? ==> s.view == Message(FailureText)
    ensures s.request.Some? && FetchBooks(respond(s.request.value)).Some?
      ==> s.view == RenderBooks(FetchBooks(respond(s.request.value)).value)
  {
    var query := Trim(input);
    if query == "" then Search(None, Message(PromptText))
    else
      var view := match FetchBooks(respond(query))
        case None => Message(FailureText)
        case Some(books) => RenderBooks(books);
      Search(Some(query), view)
  }

  /** A blank input never reaches the backend: the outcome does not depend
      on how the backend would answer. */
  lemma BlankInputSendsNothing(input: string, respond: string -> Response, other: string -> Response)
    requires AllSpace(input)
    ensures HandleSearch(input, respond) == HandleSearch(input, other) == Search(None, Message(PromptText))
  {
  }

  /** A successful reply without matches shows the spinner, not a message. */
  lemma EmptyResultShowsSpinner(input: string, respond: string -> Response)
    requires !AllSpace(input)
    requires respond(Trim(input)) == Http(true, Some(Payload(None)))
      || respond(Trim(input)) == Http(true, Some(Payload(Some([]))))
    ensures HandleSearch(input, respond).view == Spinner
  {
  }

  /** A query with one match for which the catalog reports one author shows
      one card with that title and author. */
  lemma OneMatchShowsOneCard(input: string, respond: string -> Response, v: VolumeInfo, author: string)
    requires !AllSpace(input)
    requires respond(Trim(input)) == Http(true, Some(Payload(Some([Item(Some(v))]))))
    requires v.authors == Some([author]) && author != ""
    ensures HandleSearch(input, respond).view.Grid?
    ensures |HandleSearch(input, respond).view.books| == 1
    ensures HandleSearch(input, respond).view.books[0].title == v.title
    ensures HandleSearch(input, respond).view.books[0].author == author
  {
    SingleAuthorShown(v, author);
  }
}
