/**
  The application state of `src/app/mod.rs`: the request method, the request
  tabs and screen blocks with their index conversions and cyclic navigation,
  the request sent to the transport, and the `App` record the event handlers
  update.
 */
module AppState {
  import opened Wrappers
  import opened TextInput
  import opened Forms

  datatype InputMode = Normal | Insert

  datatype RequestMethod = Get | Post | Put | Delete

  /** The HTTP method name (`ToString for RequestMethod`): one of the four standard tokens. */
  function MethodName(m: RequestMethod): (s: string)
    ensures s in {"GET", "POST", "PUT", "DELETE"}
    ensures 3 <= |s| <= 6
    ensures forall i :: 0 <= i < |s| ==> 'A' <= s[i] <= 'Z'
  {
    match m
    case Get => "GET"
    case Post => "POST"
    case Put => "PUT"
    case Delete => "DELETE"
  }

  /** Distinct methods have distinct names. */
  lemma MethodNameInjective(a: RequestMethod, b: RequestMethod)
    ensures MethodName(a) == MethodName(b) ==> a == b
  {
  }

  // ---------------------------------------------------------------- request tabs

  datatype RequestTab = Body | Query | Headers | Auth | Cookies

  const TabCount: nat := 5

  /** `usize::from(RequestTab)`: the tab's position, 0 to 4. */
  function TabIndex(t: RequestTab): (i: nat)
    ensures i < TabCount
  {
    match t
    case Body => 0
    case Query => 1
    case Headers => 2
    case Auth => 3
    case Cookies => 4
  }

  /** `usize -> RequestTab`; `None` where the source panics ("Invalid tab index"). */
  function TabFromIndex(i: nat): (r: Option<RequestTab>)
    ensures r.Some? <==> i < TabCount
    ensures r.Some? ==> TabIndex(r.value) == i
  {
    if i == 0 then Some(Body)
    else if i == 1 then Some(Query)
    else if i == 2 then Some(Headers)
    else if i == 3 then Some(Auth)
    else if i == 4 then Some(Cookies)
    else None
  }

  lemma TabIndexRoundTrip(t: RequestTab, i: nat)
    ensures TabFromIndex(TabIndex(t)) == Some(t)
    ensures i < TabCount ==> TabIndex(TabFromIndex(i).value) == i
  {
  }

  /** The next tab, cycling past the last back to the first. */
  function NextTab(t: RequestTab): (r: RequestTab)
    ensures TabIndex(r) == (TabIndex(t) + 1) % TabCount
  {
    var i := TabIndex(t) + 1;
    TabFromIndex(if i > 4 then 0 else i).value
  }

  /** The previous tab, cycling past the first back to the last. */
  function PreviousTab(t: RequestTab): (r: RequestTab)
    ensures TabIndex(r) == (TabIndex(t) + TabCount - 1) % TabCount
  {
    var i := TabIndex(t);
    TabFromIndex(if i == 0 then 4 else i - 1).value
  }

  lemma TabNavigationInverse(t: RequestTab)
    ensures PreviousTab(NextTab(t)) == t && NextTab(PreviousTab(t)) == t
  {
  }

  // ---------------------------------------------------------------- screen blocks

  datatype AppBlock = Endpoint | Method | Request | RequestContent | Response

  const BlockCount: nat := 5

  /** `u16::from(AppBlock)`: 1 to 5, with the method selector first. */
  function BlockIndex(b: AppBlock): (i: nat)
    ensures 1 <= i <= BlockCount
  {
    match b
    case Method => 1
    case Endpoint => 2
    case Request => 3
    case RequestContent => 4
    case Response => 5
  }

  /** `u16 -> AppBlock`; `None` where the source panics ("Invalid block index"). */
  function BlockFromIndex(i: nat): (r: Option<AppBlock>)
    ensures r.Some? <==> 1 <= i <= BlockCount
    ensures r.Some? ==> BlockIndex(r.value) == i
  {
    if i == 1 then Some(Method)
    else if i == 2 then Some(Endpoint)
    else if i == 3 then Some(Request)
    else if i == 4 then Some(RequestContent)
    else if i == 5 then Some(Response)
    else None
  }

  lemma BlockIndexRoundTrip(b: AppBlock, i: nat)
    ensures BlockFromIndex(BlockIndex(b)) == Some(b)
    ensures 1 <= i <= BlockCount ==> BlockIndex(BlockFromIndex(i).value) == i
  {
  }

  /** `Navigation::next` for blocks: all five, cycling from Response back to Method. */
  function NextBlock(b: AppBlock): (r: AppBlock)
    ensures BlockIndex(r) == BlockIndex(b) % BlockCount + 1
  {
    var i := BlockIndex(b) + 1;
    BlockFromIndex(if i > 5 then 1 else i).value
  }

  /** `Navigation::previous` for blocks: cycling from Method back to Response. */
  function PreviousBlock(b: AppBlock): (r: AppBlock)
    ensures BlockIndex(r) == (BlockIndex(b) + BlockCount - 2) % BlockCount + 1
  {
    var i := BlockIndex(b) - 1;
    BlockFromIndex(if i == 0 then 5 else i).value
  }

  lemma BlockNavigationInverse(b: AppBlock)
    ensures PreviousBlock(NextBlock(b)) == b && NextBlock(PreviousBlock(b)) == b
  {
  }

  // ---------------------------------------------------------------- the application

  datatype HttpResponse = HttpResponse(statusCode: nat, text: string)

  datatype AppPopup = ChangeMethod | FormPopup(form: Form)

  /** `App` without its channels; `responseScroll` is `(u16, u16)` as a pair of `nat`. */
  datatype App = App(
    inputMode: InputMode,
    endpoint: Input,
    requestMethod: RequestMethod,
    rawBody: Input,
    requestTab: RequestTab,
    selectedBlock: AppBlock,
    selectedHeader: nat,
    response: Option<HttpResponse>,
    isLoading: bool,
    headers: map<string, string>,
    responseScroll: (nat, nat),
    popup: Option<AppPopup>,
    queryParams: seq<(string, string)>,
    selectedQueryParam: nat
  )

  const DefaultEndpoint: string := "https://fakestoreapi.com/products"

  lemma DefaultEndpointSingleLine()
    ensures IsSingleLine(DefaultEndpoint)
  {
    assert forall i | 0 <= i < |DefaultEndpoint| :: DefaultEndpoint[i] != Lines.Newline;
    Lines.SingleLine(DefaultEndpoint);
  }

  /** The start-up state: Normal mode, no popup, the endpoint block selected, JSON headers. */
  function DefaultApp(): (app: App)
    ensures app.inputMode == Normal && app.popup == None && app.selectedBlock == Endpoint
    ensures app.requestMethod == Get && app.requestTab == Body
    ensures app.rawBody == DefaultInput() && Valid(app.rawBody) && IsSingleLine(app.rawBody.text)
    ensures IsSingleLine(app.endpoint.text)
    ensures app.endpoint.text == DefaultEndpoint && app.endpoint.cursor == Coordinates(0, 0)
    ensures app.headers.Keys == {"Content-Type", "Accept"}
    ensures app.headers["Content-Type"] == "application/json" && app.headers["Accept"] == "application/json"
    ensures app.response == None && !app.isLoading && app.selectedHeader == 0
    ensures app.responseScroll == (0, 0)
  {
    DefaultEndpointSingleLine();
    Lines.SingleLine("");
    App(
      Normal,
      Input(DefaultEndpoint, DefaultCoordinates()),
      Get,
      DefaultInput(),
      Body,
      Endpoint,
      0,
      None,
      false,
      map["Content-Type" := "application/json", "Accept" := "application/json"],
      (0, 0),
      None,
      [],
      0)
  }

  datatype HttpRequest = HttpRequest(requestMethod: RequestMethod, endpoint: string, headers: map<string, string>, body: string)

  /** `Request::from_app`: the request carries the app's method, texts and headers unchanged. */
  function RequestFromApp(app: App): (r: HttpRequest)
    ensures r.requestMethod == app.requestMethod && r.headers == app.headers
    ensures r.endpoint == app.endpoint.text && r.body == app.rawBody.text
  {
    HttpRequest(app.requestMethod, app.endpoint.text, app.headers, app.rawBody.text)
  }

  /** The request depends on the texts only: cursors, mode, popup and selections do not matter. */
  lemma RequestIgnoresEditorState(a: App, b: App)
    requires a.requestMethod == b.requestMethod && a.headers == b.headers
    requires a.endpoint.text == b.endpoint.text && a.rawBody.text == b.rawBody.text
    ensures RequestFromApp(a) == RequestFromApp(b)
  {
  }
}
