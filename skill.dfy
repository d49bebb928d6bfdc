/** The entry point of the skill (`run`): reading the arguments, the action and
    credential checks made before any request, the tenant credential exchange's
    failure checks, and the dispatch to the six operations. The platform is a set
    of oracles, the environment variables a parameter. */
module Skill {
  import opened Common
  import opened Strings
  import opened Blocks
  import opened Collector
  import opened Extractors
  import opened Drive
  import opened Writer

  /** An argument as the caller passes it: absent (None), a boolean, a number or
      a string. */
  datatype Value = Null | Bool(b: bool) | Int(n: int) | Str(s: string)

  /** The words `_to_bool` reads as true. */
  const TRUE_WORDS: set<string> := {"1", "true", "yes", "y", "on"}

  /** `_to_bool`: an absent value is the default, a boolean is itself, a number is
      true when non-zero, and a string is true when, stripped and lower-cased, it
      is one of the true words. */
  function ToBool(v: Value, default: bool): bool
  {
    match v
    case Null => default
    case Bool(b) => b
    case Int(n) => n != 0
    case Str(s) => Lower(Strip(s)) in TRUE_WORDS
  }

  /** A string is read as true exactly when it is a true word, in any mix of case,
      with any whitespace around it. */
  lemma ToBoolStringIff(s: string, default: bool)
    ensures ToBool(Str(s), default) <==>
      exists w1, core, w2 :: s == w1 + core + w2 && AllSpace(w1) && AllSpace(w2) && Lower(core) in TRUE_WORDS
  {
    if ToBool(Str(s), default) {
      var w1, core, w2 := StripSplits(s);
      assert s == w1 + core + w2 && AllSpace(w1) && AllSpace(w2) && Lower(core) in TRUE_WORDS;
    }
    if exists w1, core, w2 :: s == w1 + core + w2 && AllSpace(w1) && AllSpace(w2) && Lower(core) in TRUE_WORDS {
      var w1, core, w2 :| s == w1 + core + w2 && AllSpace(w1) && AllSpace(w2) && Lower(core) in TRUE_WORDS;
      StripPadded(w1, core, w2);
      TrueWordCoreStripped(core);
    }
  }

  /** `s.strip()` is what is left between the leading and the trailing whitespace. */
  lemma StripSplits(s: string) returns (w1: string, core: string, w2: string)
    ensures s == w1 + core + w2 && AllSpace(w1) && AllSpace(w2) && core == Strip(s)
  {
    var t := TrimStart(s);
    TrimStartShape(s);
    core := TrimEnd(t);
    TrimEndShape(t);
    w1, w2 := s[..|s| - |t|], t[|core|..];
    assert s == w1 + t;
    assert t == core + w2;
  }

  /** A string that lower-cases to a true word has no whitespace to strip. */
  lemma TrueWordCoreStripped(core: string)
    requires Lower(core) in TRUE_WORDS
    ensures Strip(core) == core
  {
    LowerAt(core);
    var w := Lower(core);
    assert w != [] && !IsSpace(w[0]) && !IsSpace(w[|w| - 1]);
    assert !IsSpace(core[0]) && !IsSpace(core[|core| - 1]);
    assert TrimStart(core) == core;
  }

  /** `_to_bool` on strings ignores letter case. */
  lemma ToBoolIgnoresCase(s: string, default: bool)
    ensures ToBool(Str(Lower(s)), default) == ToBool(Str(s), default)
  {
    StripLower(s);
    LowerIdempotent(Strip(s));
  }

  /** `_to_bool` on strings ignores surrounding whitespace. */
  lemma ToBoolIgnoresPadding(w1: string, s: string, w2: string, default: bool)
    requires AllSpace(w1) && AllSpace(w2)
    ensures ToBool(Str(w1 + s + w2), default) == ToBool(Str(s), default)
  {
    StripPadded(w1, s, w2);
  }

  /** The request of the tenant credential exchange. */
  datatype AuthRequest = AuthRequest(appId: string, appSecret: string)

  /** Its answer; an absent credential is "", an absent `code` any non-zero code. */
  datatype AuthResponse = AuthResponse(code: int, msg: Option<string>, tenantAccessToken: string)

  /** The two checks `_get_tenant_access_token` makes of the exchange's answer. */
  function TenantToken(resp: AuthResponse): (r: Result<string>)
    ensures r.Ok? <==> resp.code == 0 && resp.tenantAccessToken != ""
    ensures resp.code != 0 ==> r == Err(AuthFailed(MessageOr(resp.msg)))
    ensures resp.code == 0 && resp.tenantAccessToken == "" ==> r == Err(AuthNoToken)
    ensures r.Ok? ==> r.value == resp.tenantAccessToken
  {
    if resp.code != 0 then Err(AuthFailed(MessageOr(resp.msg)))
    else if resp.tenantAccessToken == "" then Err(AuthNoToken)
    else Ok(resp.tenantAccessToken)
  }

  /** The credential `run` uses: a given user token as it is; otherwise both app
      credentials are needed, and they are exchanged for a tenant credential. */
  function ResolveToken(accessToken: string, appId: string, appSecret: string, auth: AuthRequest -> AuthResponse)
    : (r: Result<string>)
    ensures accessToken != "" ==> r == Ok(accessToken)
    ensures accessToken == "" && (appId == "" || appSecret == "") ==> r == Err(MissingCredentials)
    ensures accessToken == "" && appId != "" && appSecret != "" ==> r == TenantToken(auth(AuthRequest(appId, appSecret)))
    ensures r.Ok? ==> r.value != ""
  {
    if accessToken != "" then Ok(accessToken)
    else if appId == "" || appSecret == "" then Err(MissingCredentials)
    else TenantToken(auth(AuthRequest(appId, appSecret)))
  }

  /** The keyword arguments of `run`; an absent string is "", an absent number 0. */
  datatype Args = Args(
    action: string,
    actionAlias: string,
    accessToken: string,
    appId: string,
    appSecret: string,
    aiFolderToken: string,
    folderToken: string,
    pageSize: int,
    maxItems: int,
    title: string,
    documentId: string,
    content: string,
    index: Option<int>,
    maxBlocks: int,
    maxChars: int,
    runWriteTest: Value)

  /** The environment variables `run` falls back on; an unset one is "". */
  datatype Env = Env(accessToken: string, appId: string, appSecret: string, aiFolderToken: string)

  /** The platform's endpoints as oracles. */
  datatype Platform = Platform(
    auth: AuthRequest -> AuthResponse,
    listing: seq<FileListResponse>,
    create: CreateRequest -> CreateResponse,
    append: AppendRequest -> AppendResponse,
    children: ChildrenApi)

  /** What a successful action answers. */
  datatype Data =
    | NoData
    | Listed(listing: Listing)
    | Created(created: CreatedDoc)
    | Written(written: WriteResult)
    | Content(content: DocContent)
    | Outline(outline: DocOutline)
    /** `self_test` is handed over with its inputs; its run is not part of the model */
    | SelfTest(token: string, folderToken: string, runWriteTest: bool)

  /** The answer of `run`: ok, the action, the data and the error. */
  datatype Envelope = Envelope(ok: bool, action: string, data: Data, error: Option<Error>)

  /** Python's `a or b` on strings. */
  function Or(a: string, b: string): string
  {
    if a != "" then a else b
  }

  /** Python's `n or default` on numbers. */
  function OrNumber(n: int, default: int): int
  {
    if n == 0 then default else n
  }

  function ActionOf(args: Args): string { Strip(Or(args.action, args.actionAlias)) }
  function AccessTokenOf(args: Args, env: Env): string { Strip(Or(args.accessToken, env.accessToken)) }
  function AppIdOf(args: Args, env: Env): string { Strip(Or(args.appId, env.appId)) }
  function AppSecretOf(args: Args, env: Env): string { Strip(Or(args.appSecret, env.appSecret)) }
  function FolderOf(args: Args, env: Env): string { Strip(Or(args.aiFolderToken, Or(args.folderToken, env.aiFolderToken))) }

  function TokenOf(args: Args, env: Env, platform: Platform): Result<string>
  {
    ResolveToken(AccessTokenOf(args, env), AppIdOf(args, env), AppSecretOf(args, env), platform.auth)
  }

  /** The six actions `run` accepts. */
  const ALLOWED_ACTIONS: set<string> :=
    {"list_folder_docs", "create_doc", "write_doc", "get_doc_content", "get_doc_outline", "self_test"}

  /** The accepted actions in the order the refusal of an unknown action lists them. */
  const SORTED_ACTIONS: seq<string> :=
    ["create_doc", "get_doc_content", "get_doc_outline", "list_folder_docs", "self_test", "write_doc"]

  /** Python's `<` on strings: code point by code point, a proper prefix first. */
  ghost predicate StringLess(a: string, b: string)
  {
    exists k :: 0 <= k <= |a| && k <= |b| && a[..k] == b[..k] &&
      ((k == |a| && k < |b|) || (k < |a| && k < |b| && a[k] < b[k]))
  }

  /** `sorted(allowed_actions)`: the same names, each before the next. */
  lemma SortedActionsAreSorted()
    ensures forall x :: x in SORTED_ACTIONS <==> x in ALLOWED_ACTIONS
    ensures forall i :: 0 < i < |SORTED_ACTIONS| ==> StringLess(SORTED_ACTIONS[i - 1], SORTED_ACTIONS[i])
  {
    var s := SORTED_ACTIONS;
    assert StringLess(s[0], s[1]) by { assert s[0][..0] == s[1][..0]; }
    assert StringLess(s[1], s[2]) by { assert s[1][..8] == s[2][..8]; }
    assert StringLess(s[2], s[3]) by { assert s[2][..0] == s[3][..0]; }
    assert StringLess(s[3], s[4]) by { assert s[3][..0] == s[4][..0]; }
    assert StringLess(s[4], s[5]) by { assert s[4][..0] == s[5][..0]; }
  }

  /** An error answer. */
  function Fail(action: string, e: Error): Envelope
  {
    Envelope(false, action, NoData, Some(e))
  }

  /** The answer for the result `r` of an action. */
  function Respond(action: string, r: Result<Data>): (e: Envelope)
    ensures e.action == action && (e.ok <==> r.Ok?) && (e.ok <==> e.error.None?)
    ensures r.Ok? ==> e.data == r.value
    ensures r.Err? ==> e == Fail(action, r.error)
  {
    match r
    case Ok(v) => Envelope(true, action, v, None)
    case Err(err) => Fail(action, err)
  }

  function AsListed(r: Result<Listing>): Result<Data>
  {
    match r case Ok(v) => Ok(Listed(v)) case Err(err) => Err(err)
  }

  function AsCreated(r: Result<CreatedDoc>): Result<Data>
  {
    match r case Ok(v) => Ok(Created(v)) case Err(err) => Err(err)
  }

  function AsWritten(r: Result<WriteResult>): Result<Data>
  {
    match r case Ok(v) => Ok(Written(v)) case Err(err) => Err(err)
  }

  function AsContent(r: Result<DocContent>): Result<Data>
  {
    match r case Ok(v) => Ok(Content(v)) case Err(err) => Err(err)
  }

  function AsOutline(r: Result<DocOutline>): Result<Data>
  {
    match r case Ok(v) => Ok(Outline(v)) case Err(err) => Err(err)
  }

  /** The answer of `get_doc_content`: the rendered text of a correct collection,
      or an error of the id check or of a page request. */
  ghost predicate ContentReported(e: Envelope, api: ChildrenApi, documentId: string, maxBlocks: int, maxChars: int)
  {
    if e.ok then
      && e.data.Content?
      && exists blocks :: Collected(api, documentId, maxBlocks, blocks) && e.data.content == DocContentOf(documentId, blocks, maxChars)
    else
      && e.error.Some?
      && (documentId == "" ==> e.error.value == MissingArgument("get_doc_content", "document_id"))
      && (documentId != "" ==> FailsAt(api, documentId, e.error.value))
  }

  /** The answer of `get_doc_outline`: the headings of a correct collection, or an
      error of the id check or of a page request. */
  ghost predicate OutlineReported(e: Envelope, api: ChildrenApi, documentId: string, maxBlocks: int)
  {
    if e.ok then
      && e.data.Outline?
      && e.data.outline.documentId == documentId
      && e.data.outline.headingCount == |e.data.outline.outline|
      && exists blocks :: Collected(api, documentId, maxBlocks, blocks) && e.data.outline.outline == OutlineOf(blocks)
    else
      && e.error.Some?
      && (documentId == "" ==> e.error.value == MissingArgument("get_doc_outline", "document_id"))
      && (documentId != "" ==> FailsAt(api, documentId, e.error.value))
  }

  /** `run`: an empty action is refused as "unknown", an unknown action is refused
      with the sorted list of the accepted ones, and missing or refused credentials
      end the call, all before any operation starts; otherwise the action's
      operation answers, and any failure becomes an error answer. */
  method Run(args: Args, env: Env, platform: Platform) returns (e: Envelope)
    ensures e.ok <==> e.error.None?
    ensures ActionOf(args) == "" ==> e == Fail("unknown", MissingAction)
    ensures ActionOf(args) != "" ==> e.action == ActionOf(args)
    ensures ActionOf(args) != "" && ActionOf(args) !in ALLOWED_ACTIONS ==>
      e == Fail(ActionOf(args), UnsupportedAction(ActionOf(args), SORTED_ACTIONS))
    ensures ActionOf(args) in ALLOWED_ACTIONS && TokenOf(args, env, platform).Err? ==>
      e == Fail(ActionOf(args), TokenOf(args, env, platform).error)
    ensures ActionOf(args) == "list_folder_docs" && TokenOf(args, env, platform).Ok? ==>
      e == Respond(ActionOf(args), AsListed(ListingOf(platform.listing, FolderOf(args, env), OrNumber(args.maxItems, 500))))
    ensures ActionOf(args) == "create_doc" && TokenOf(args, env, platform).Ok? ==>
      e == Respond(ActionOf(args), AsCreated(CreateDoc(platform.create, Strip(args.title), FolderOf(args, env))))
    ensures ActionOf(args) == "write_doc" && TokenOf(args, env, platform).Ok? ==>
      e == Respond(ActionOf(args), AsWritten(WriteDoc(platform.append, Strip(args.documentId), args.content,
                                                      match args.index case None => -1 case Some(i) => i)))
    ensures ActionOf(args) == "get_doc_content" && TokenOf(args, env, platform).Ok? ==>
      e == Respond(ActionOf(args), AsContent(DocContentAnswer(platform.children, Strip(args.documentId),
                                                              OrNumber(args.maxBlocks, 2000), OrNumber(args.maxChars, 20000))))
    ensures ActionOf(args) == "get_doc_content" && TokenOf(args, env, platform).Ok? ==>
      ContentReported(e, platform.children, Strip(args.documentId), OrNumber(args.maxBlocks, 2000), OrNumber(args.maxChars, 20000))
    ensures ActionOf(args) == "get_doc_outline" && TokenOf(args, env, platform).Ok? ==>
      e == Respond(ActionOf(args), AsOutline(DocOutlineAnswer(platform.children, Strip(args.documentId),
                                                              OrNumber(args.maxBlocks, 2000))))
    ensures ActionOf(args) == "get_doc_outline" && TokenOf(args, env, platform).Ok? ==>
      OutlineReported(e, platform.children, Strip(args.documentId), OrNumber(args.maxBlocks, 2000))
    ensures ActionOf(args) == "self_test" && TokenOf(args, env, platform).Ok? ==>
      e == (if FolderOf(args, env) == "" then Fail("self_test", MissingArgument("self_test", "folder_token"))
            else Envelope(true, "self_test", SelfTest(TokenOf(args, env, platform).value, FolderOf(args, env),
                                                     ToBool(args.runWriteTest, false)), None))
  {
    var action := ActionOf(args);
    if action == "" {
      return Fail("unknown", MissingAction);
    }
    if action !in ALLOWED_ACTIONS {
      return Fail(action, UnsupportedAction(action, SORTED_ACTIONS));
    }
    var resolved := TokenOf(args, env, platform);
    if resolved.Err? {
      return Fail(action, resolved.error);
    }
    var token := resolved.value;
    var folderToken := FolderOf(args, env);
    var documentId := Strip(args.documentId);
    var maxBlocks := OrNumber(args.maxBlocks, 2000);
    if action == "list_folder_docs" {
      var r, _ := ListFolderDocs(platform.listing, folderToken, OrNumber(args.pageSize, 100), OrNumber(args.maxItems, 500));
      e := Respond(action, AsListed(r));
    } else if action == "create_doc" {
      e := Respond(action, AsCreated(CreateDoc(platform.create, Strip(args.title), folderToken)));
    } else if action == "write_doc" {
      var index := match args.index case None => -1 case Some(i) => i;
      e := Respond(action, AsWritten(WriteDoc(platform.append, documentId, args.content, index)));
    } else if action == "get_doc_content" {
      var r := GetDocContent(platform.children, documentId, maxBlocks, OrNumber(args.maxChars, 20000));
      e := Respond(action, AsContent(r));
    } else if action == "get_doc_outline" {
      var r := GetDocOutline(platform.children, documentId, maxBlocks);
      e := Respond(action, AsOutline(r));
    } else if folderToken == "" {
      e := Fail(action, MissingArgument("self_test", "folder_token"));
    } else {
      e := Envelope(true, action, SelfTest(token, folderToken, ToBool(args.runWriteTest, false)), None);
    }
  }
}
