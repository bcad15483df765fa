/**
 * The JSON-RPC method dispatch of the HTTP server (handleMcpRequest) and the tool-name
 * dispatch behind `tools/call` (executeToolCall), with the tool bodies that are modelled:
 * listCatalog, searchCatalog, getDetail, scrapeModuleUnits and simpleTest. The catalog
 * response, the unit pages and the remaining tools' answers are inputs.
 */
module Tools {
  import opened Wrappers
  import opened Text
  import Catalog
  import Scrape

  const ProtocolVersion: string := "2025-06-18"
  const ServerName: string := "mcp-learn-catalog"
  const ServerVersion: string := "2.0.0"

  // ---------------------------------------------------------------------------
  // Tool names
  // ---------------------------------------------------------------------------

  datatype Tool =
    | ListCatalog | SearchCatalog | GetDetail | ScrapeModuleUnits | SimpleTest
    | FindByProduct | FindCertificationPath | GetLearningPathDetails | GetAdvancedSearch
    | ScrapeLearningPath

  /** The tools, in the order `tools/list` announces them. */
  const AllTools: seq<Tool> := [
    ListCatalog, SearchCatalog, GetDetail, ScrapeModuleUnits, SimpleTest,
    FindByProduct, FindCertificationPath, GetLearningPathDetails, GetAdvancedSearch,
    ScrapeLearningPath]

  function NameOf(t: Tool): string {
    match t
    case ListCatalog => "listCatalog"
    case SearchCatalog => "searchCatalog"
    case GetDetail => "getDetail"
    case ScrapeModuleUnits => "scrapeModuleUnits"
    case SimpleTest => "simpleTest"
    case FindByProduct => "findByProduct"
    case FindCertificationPath => "findCertificationPath"
    case GetLearningPathDetails => "getLearningPathDetails"
    case GetAdvancedSearch => "getAdvancedSearch"
    case ScrapeLearningPath => "scrapeLearningPath"
  }

  /** The `switch (toolName)` of executeToolCall. */
  function ToolByName(name: string): (r: Option<Tool>)
    ensures r.Some? ==> NameOf(r.value) == name
  {
    if name == "listCatalog" then Some(ListCatalog)
    else if name == "searchCatalog" then Some(SearchCatalog)
    else if name == "getDetail" then Some(GetDetail)
    else if name == "scrapeModuleUnits" then Some(ScrapeModuleUnits)
    else if name == "simpleTest" then Some(SimpleTest)
    else if name == "findByProduct" then Some(FindByProduct)
    else if name == "findCertificationPath" then Some(FindCertificationPath)
    else if name == "getLearningPathDetails" then Some(GetLearningPathDetails)
    else if name == "getAdvancedSearch" then Some(GetAdvancedSearch)
    else if name == "scrapeLearningPath" then Some(ScrapeLearningPath)
    else None
  }

  /** Every tool is dispatched under its own name. */
  lemma ToolByNameOf(t: Tool)
    ensures ToolByName(NameOf(t)) == Some(t)
  {
  }

  /** The names `tools/list` announces. */
  function ListedNames(): (r: seq<string>)
    ensures |r| == |AllTools|
    ensures forall i :: 0 <= i < |r| ==> r[i] == NameOf(AllTools[i])
  {
    seq(|AllTools|, i requires 0 <= i < |AllTools| => NameOf(AllTools[i]))
  }

  /** A name is dispatched to a tool exactly when `tools/list` announces it. */
  lemma ListedIffDispatched(name: string)
    ensures name in ListedNames() <==> ToolByName(name).Some?
  {
    var names := ListedNames();
    if ToolByName(name).Some? {
      var t := ToolByName(name).value;
      assert t in AllTools;
      var i :| 0 <= i < |AllTools| && AllTools[i] == t;
      assert names[i] == name;
    }
    if name in names {
      var i :| 0 <= i < |names| && names[i] == name;
      ToolByNameOf(AllTools[i]);
    }
  }

  // ---------------------------------------------------------------------------
  // Tool calls
  // ---------------------------------------------------------------------------

  /** The arguments the modelled tools read; `scrape` holds those of scrapeModuleUnits. */
  datatype CallArgs = CallArgs(
    typeArg: Option<string>,
    q: Option<string>,
    maxResults: Option<int>,
    msg: Option<string>,
    scrape: Scrape.ScrapeArgs)

  /**
   * What the environment answers: the catalog response to the call's one catalog request
   * (or the error fetchCatalog throws), each unit page, the HTML-to-text converter, and
   * the answers of the tools this model does not open up.
   */
  datatype Env = Env(
    catalog: Result<Catalog.CatalogData, string>,
    fetch: string -> Scrape.FetchResult,
    htmlToText: string -> string,
    other: (Tool, CallArgs) -> Result<string, string>)

  /** A tool's result, before it is formatted as JSON text. */
  datatype ToolValue =
    | Listed(items: seq<Catalog.Item>)
    | Found(items: seq<Catalog.Item>)
    | Details(aggregates: map<string, seq<Catalog.Item>>)
    | Scraped(rows: seq<Scrape.Row>)
    | Echo(text: string)
    | OtherValue(text: string)

  /** Why a tool call throws. */
  datatype ToolError =
    | UnknownTool(name: string)
    | ArgumentsMissing
    | ParamsMissing
    | CatalogFailed(message: string)
    | ScrapeFailed(reason: Scrape.ScrapeError)
    | OtherFailed(message: string)

  const MissingDataMessage: string := "Missing required data: firstUnitUrl and units are required"

  /** The error message where the source fixes its text. */
  function FixedMessage(e: ToolError): Option<string> {
    match e
    case UnknownTool(name) => Some("Unknown tool: " + name)
    case ScrapeFailed(reason) => if reason.MissingData? then Some(MissingDataMessage) else None
    case CatalogFailed(m) => Some(m)
    case OtherFailed(m) => Some(m)
    case ArgumentsMissing => None
    case ParamsMissing => None
  }

  /** callListCatalog: the items under the requested type, limited by `max_results`. */
  function ListCatalogItems(data: Catalog.CatalogData, args: CallArgs): (r: seq<Catalog.Item>)
    ensures r <= Catalog.Lookup(data, args.typeArg.GetOr("undefined"))
  {
    Catalog.MaybeLimit(Catalog.Lookup(data, args.typeArg.GetOr("undefined")), args.maxResults)
  }

  /** callSearchCatalog: the filtered, concatenated and limited items of the searched types. */
  function SearchCatalogItems(data: Catalog.CatalogData, args: CallArgs): (r: seq<Catalog.Item>)
    ensures forall x :: x in r ==> Catalog.KeptBy(x, args.q)
    ensures forall x :: x in r ==>
              exists i :: 0 <= i < |Catalog.SearchTypes(args.typeArg, Catalog.HttpSearchTypes)| &&
                          x in Catalog.Lookup(data, Catalog.SearchTypes(args.typeArg, Catalog.HttpSearchTypes)[i])
    ensures args.maxResults.Some? && args.maxResults.value > 0 ==> |r| <= args.maxResults.value
  {
    var types := Catalog.SearchTypes(args.typeArg, Catalog.HttpSearchTypes);
    var gathered := Catalog.Gathered(data, types, args.q);
    forall x | x in gathered
      ensures exists i :: 0 <= i < |types| && x in Catalog.Lookup(data, types[i])
    {
      Catalog.GatheredMembership(data, types, args.q, x);
    }
    Catalog.MaybeLimit(gathered, args.maxResults)
  }

  /** The body of a modelled tool, once its arguments are known to be present. */
  function RunTool(t: Tool, args: CallArgs, env: Env): (r: Result<ToolValue, ToolError>)
    ensures r.Err? ==> !r.error.UnknownTool? && !r.error.ArgumentsMissing? && !r.error.ParamsMissing?
    ensures r.Err? && r.error.ScrapeFailed? ==> t == ScrapeModuleUnits
    ensures r.Err? && r.error.CatalogFailed? ==> env.catalog.Err? && r.error.message == env.catalog.error
    ensures t == SimpleTest ==> r == Ok(Echo("Echo: " + args.msg.GetOr("undefined")))
  {
    match t
    case ListCatalog =>
      (match env.catalog
       case Err(m) => Err(CatalogFailed(m))
       case Ok(data) => Ok(Listed(ListCatalogItems(data, args))))
    case SearchCatalog =>
      (match env.catalog
       case Err(m) => Err(CatalogFailed(m))
       case Ok(data) => Ok(Found(SearchCatalogItems(data, args))))
    case GetDetail =>
      (match env.catalog
       case Err(m) => Err(CatalogFailed(m))
       case Ok(data) => Ok(Details(Catalog.NonEmptyArrays(data))))
    case ScrapeModuleUnits =>
      (match Scrape.HttpScrape(args.scrape, env.fetch, env.htmlToText)
       case Err(e) => Err(ScrapeFailed(e))
       case Ok(rows) => Ok(Scraped(rows)))
    case SimpleTest => Ok(Echo("Echo: " + args.msg.GetOr("undefined")))
    case _ =>
      (match env.other(t, args)
       case Err(m) => Err(OtherFailed(m))
       case Ok(text) => Ok(OtherValue(text)))
  }

  /**
   * executeToolCall: an unknown name (an absent one reads as `undefined`) throws
   * `Unknown tool: <name>`; a known tool called without arguments throws when it
   * destructures them.
   */
  function ExecuteToolCall(name: Option<string>, args: Option<CallArgs>, env: Env): (r: Result<ToolValue, ToolError>)
    ensures ToolByName(name.GetOr("undefined")).None? <==> r == Err(UnknownTool(name.GetOr("undefined")))
    ensures ToolByName(name.GetOr("undefined")).Some? && args.None? ==> r == Err(ArgumentsMissing)
    ensures r.Err? && r.error.ScrapeFailed? ==> name == Some("scrapeModuleUnits")
    ensures r.Err? ==> !r.error.ParamsMissing?
  {
    var n := name.GetOr("undefined");
    match ToolByName(n)
    case None => Err(UnknownTool(n))
    case Some(t) =>
      if args.None? then Err(ArgumentsMissing) else RunTool(t, args.value, env)
  }

  // ---------------------------------------------------------------------------
  // handleMcpRequest
  // ---------------------------------------------------------------------------

  /** `request.params` of a `tools/call`: the tool name and its arguments. */
  datatype CallParams = CallParams(name: Option<string>, arguments: Option<CallArgs>)

  datatype Request = Request(methodName: string, params: Option<CallParams>)

  /** What a successful request returns. */
  datatype RpcResult =
    | Initialized(protocolVersion: string, serverName: string, serverVersion: string)
    | ToolList(names: seq<string>)
    | ToolResult(value: ToolValue)

  /** A JSON-RPC error; `data` is the thrown error, for -32603. */
  datatype RpcError = RpcError(code: int, message: string, data: Option<ToolError>)

  /** `{result}` or `{error}`: a reply never carries both. */
  datatype Reply = Result(result: RpcResult) | Error(error: RpcError)

  const InvalidRequest: int := -32600
  const MethodNotFound: int := -32601
  const InternalError: int := -32603

  /**
   * handleMcpRequest for a session whose `initialized` flag is given. Params missing from
   * a `tools/call` make the destructuring of `request.params` throw, which ends as an
   * internal error carrying ParamsMissing, with no fixed message.
   */
  function HandleMcpRequest(initialized: bool, req: Request, env: Env): (r: Reply)
    ensures req.methodName == "initialize" ==> r == Result(Initialized(ProtocolVersion, ServerName, ServerVersion))
    ensures req.methodName == "tools/list" ==> r == Result(ToolList(ListedNames()))
    ensures req.methodName == "tools/call" && !initialized ==> r == Error(RpcError(MethodNotFound, "Session not initialized", None))
    ensures req.methodName !in {"initialize", "tools/list", "tools/call"} ==>
              r == Error(RpcError(MethodNotFound, "Method not found: " + req.methodName, None))
    ensures r.Error? ==> r.error.code in {MethodNotFound, InternalError}
    ensures r.Error? && r.error.code == InternalError ==> r.error.message == "Internal error" && req.methodName == "tools/call"
    ensures req.methodName == "tools/call" && initialized ==>
              (r == Error(RpcError(InternalError, "Internal error", Some(ParamsMissing))) <==> req.params.None?)
  {
    if req.methodName == "initialize" then Result(Initialized(ProtocolVersion, ServerName, ServerVersion))
    else if req.methodName == "tools/list" then Result(ToolList(ListedNames()))
    else if req.methodName == "tools/call" then
      if !initialized then Error(RpcError(MethodNotFound, "Session not initialized", None))
      else if req.params.None? then Error(RpcError(InternalError, "Internal error", Some(ParamsMissing)))
      else
        match ExecuteToolCall(req.params.value.name, req.params.value.arguments, env)
        case Ok(v) => Result(ToolResult(v))
        case Err(e) => Error(RpcError(InternalError, "Internal error", Some(e)))
    else Error(RpcError(MethodNotFound, "Method not found: " + req.methodName, None))
  }

  /** `initialize` and `tools/list` answer the same whether or not the session is initialized. */
  lemma UngatedMethods(req: Request, env: Env)
    requires req.methodName == "initialize" || req.methodName == "tools/list"
    ensures HandleMcpRequest(false, req, env) == HandleMcpRequest(true, req, env)
  {
  }

  /** An unknown tool name surfaces as an internal error (-32603), not as method-not-found. */
  lemma UnknownToolIsInternalError(name: string, args: Option<CallArgs>, env: Env)
    requires ToolByName(name).None?
    ensures HandleMcpRequest(true, Request("tools/call", Some(CallParams(Some(name), args))), env)
            == Error(RpcError(InternalError, "Internal error", Some(UnknownTool(name))))
    ensures FixedMessage(UnknownTool(name)) == Some("Unknown tool: " + name)
  {
  }

  /**
   * On an initialized session, a `tools/call` of a tool by its name, with arguments, gives
   * that tool's own outcome: its value as the result, or what it threw as an internal error.
   */
  lemma ToolsCallRunsTool(t: Tool, args: CallArgs, env: Env)
    ensures var r := HandleMcpRequest(true, Request("tools/call", Some(CallParams(Some(NameOf(t)), Some(args)))), env);
            match RunTool(t, args, env)
            case Ok(v) => r == Result(ToolResult(v))
            case Err(e) => r == Error(RpcError(InternalError, "Internal error", Some(e)))
  {
    ToolByNameOf(t);
  }
}
