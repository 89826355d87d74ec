/** Response containers: the values a handler returns to ask for a file, a
    redirect, a stream or a rendered template. `File` and `Stream` check and
    overwrite their own fields after construction; `Template` and `Redirect`
    turn their fields into the arguments of a response. */
module ResponseContainers {
  import opened Results

  /** A background task or task group; its content is not modelled. */
  datatype BackgroundTask = BackgroundTask(id: nat)

  /** A cookie to set on the response; its content is not modelled. */
  datatype Cookie = Cookie(id: nat)

  /** Response headers, name to value. */
  type Headers = map<string, string>

  // ---------------------------------------------------------------------
  // Template
  // ---------------------------------------------------------------------

  /** A request as the template context sees it: an identity and its ASGI
      scope, each scope value taken as the text it formats to. */
  datatype Request = Request(id: nat, scope: map<string, string>)

  /** A value of the template context: one the user supplied, the request
      itself, or the CSRF input markup. */
  datatype ContextValue = UserValue(id: nat) | RequestValue(request: Request) | Markup(text: string)

  /** A configured template engine; its content is not modelled. */
  datatype TemplateEngine = TemplateEngine(id: nat)

  /** The application, as far as a container's to_response uses it. */
  datatype App = App(templateEngine: Option<TemplateEngine>)

  /** A `Template` container. */
  datatype Template = Template(
    name: string,
    context: map<string, ContextValue>,
    background: Option<BackgroundTask>,
    headers: Headers,
    cookies: seq<Cookie>,
    mediaType: Option<string>,
    encoding: string)

  /** The arguments a `TemplateResponse` is built from. */
  datatype TemplateResponse = TemplateResponse(
    background: Option<BackgroundTask>,
    context: map<string, ContextValue>,
    encoding: string,
    headers: Headers,
    statusCode: int,
    templateEngine: TemplateEngine,
    templateName: string,
    mediaType: string)

  const CsrfInputPrefix: string := "<input type=\"hidden\" name=\"_csrf_token\" value=\""
  const CsrfInputSuffix: string := "\" />"

  /** The hidden form field carrying a CSRF token. */
  function CsrfInput(token: string): (markup: string)
    ensures |markup| == |CsrfInputPrefix| + |token| + |CsrfInputSuffix|
    ensures markup[..|CsrfInputPrefix|] == CsrfInputPrefix
    ensures markup[|CsrfInputPrefix|..|markup| - |CsrfInputSuffix|] == token
    ensures markup[|markup| - |CsrfInputSuffix|..] == CsrfInputSuffix
  {
    CsrfInputPrefix + token + CsrfInputSuffix
  }

  /** The markup gives back the token it was made from, so different tokens
      give different markup. */
  lemma CsrfInputInjective(a: string, b: string)
    ensures CsrfInput(a) == CsrfInput(b) <==> a == b
  {
    if CsrfInput(a) == CsrfInput(b) {
      var m := CsrfInput(a);
      assert a == m[|CsrfInputPrefix|..|m| - |CsrfInputSuffix|];
    }
  }

  /** `request.scope.get("_csrf_token", "")`. */
  function CsrfToken(request: Request): string
  {
    if "_csrf_token" in request.scope then request.scope["_csrf_token"] else ""
  }

  /** `create_template_context`: the user's context with `request` and
      `csrf_input` entered after it, so those two override user keys. */
  function CreateTemplateContext(t: Template, request: Request): (context: map<string, ContextValue>)
    ensures context.Keys == t.context.Keys + {"request", "csrf_input"}
    ensures forall k :: k in t.context && k != "request" && k != "csrf_input" ==> context[k] == t.context[k]
    ensures context["request"] == RequestValue(request)
    ensures context["csrf_input"] == Markup(CsrfInput(CsrfToken(request)))
  {
    t.context["request" := RequestValue(request)]["csrf_input" := Markup(CsrfInput(CsrfToken(request)))]
  }

  /** The `csrf_input` entry carries the scope's token when the scope has
      one, and an empty value otherwise; whatever the user put under
      `csrf_input` is gone. */
  lemma CsrfInputOfContext(t: Template, request: Request)
    ensures "_csrf_token" in request.scope ==>
      CreateTemplateContext(t, request)["csrf_input"] == Markup(CsrfInput(request.scope["_csrf_token"]))
    ensures "_csrf_token" !in request.scope ==>
      CreateTemplateContext(t, request)["csrf_input"] == Markup(CsrfInputPrefix + CsrfInputSuffix)
  {
    assert CsrfInput("") == CsrfInputPrefix + CsrfInputSuffix;
  }

  /** The context depends on the user's context only outside the two added
      keys: two templates whose contexts agree elsewhere get the same
      context for the same request. */
  lemma ContextOverridesAddedKeys(t: Template, u: Template, request: Request)
    requires t.context.Keys + {"request", "csrf_input"} == u.context.Keys + {"request", "csrf_input"}
    requires forall k :: k in t.context && k != "request" && k != "csrf_input" ==> t.context[k] == u.context[k]
    ensures CreateTemplateContext(t, request) == CreateTemplateContext(u, request)
  {
    var c, d := CreateTemplateContext(t, request), CreateTemplateContext(u, request);
    forall k | k in c
      ensures c[k] == d[k]
    {
      if k != "request" && k != "csrf_input" {
        assert k in u.context;
      }
    }
  }

  /** `Template.to_response`: raises when the application has no template
      engine, otherwise passes the container's fields and the built context
      to the response. */
  function TemplateToResponse(t: Template, headers: Headers, mediaType: string, statusCode: int,
                              app: App, request: Request)
    : (r: Result<TemplateResponse, ContainerError>)
    ensures r.Err? <==> app.templateEngine.None?
    ensures r.Err? ==> r.error == TemplateEngineNotConfigured
    ensures r.Ok? ==> r.value == TemplateResponse(t.background, CreateTemplateContext(t, request), t.encoding,
      headers, statusCode, app.templateEngine.value, t.name, mediaType)
  {
    if app.templateEngine.None? then Err(TemplateEngineNotConfigured)
    else Ok(TemplateResponse(
      background := t.background,
      context := CreateTemplateContext(t, request),
      encoding := t.encoding,
      headers := headers,
      statusCode := statusCode,
      templateEngine := app.templateEngine.value,
      templateName := t.name,
      mediaType := mediaType))
  }

  // ---------------------------------------------------------------------
  // Redirect
  // ---------------------------------------------------------------------

  /** A `Redirect` container. */
  datatype Redirect = Redirect(
    path: string,
    background: Option<BackgroundTask>,
    headers: Headers,
    cookies: seq<Cookie>,
    mediaType: Option<string>,
    encoding: string)

  /** The arguments a `RedirectResponse` is built from. */
  datatype RedirectResponse = RedirectResponse(
    background: Option<BackgroundTask>,
    encoding: string,
    headers: Headers,
    statusCode: int,
    url: string)

  /** `Redirect.to_response`: the container's path becomes the URL; the
      status code, headers, background and encoding pass through. */
  function RedirectToResponse(rd: Redirect, headers: Headers, mediaType: string, statusCode: int,
                              app: App, request: Request)
    : (r: RedirectResponse)
    ensures r.url == rd.path && r.statusCode == statusCode && r.headers == headers
    ensures r.background == rd.background && r.encoding == rd.encoding
  {
    RedirectResponse(
      background := rd.background,
      encoding := rd.encoding,
      headers := headers,
      statusCode := statusCode,
      url := rd.path)
  }

  /** The media type argument, the container's own media type, its headers
      and cookies, the application and the request have no effect on the
      response. */
  lemma RedirectIgnoresMediaType(rd: Redirect, headers: Headers, statusCode: int,
                                 mediaType: string, otherMediaType: string,
                                 app: App, otherApp: App, request: Request, otherRequest: Request,
                                 ownMediaType: Option<string>, ownHeaders: Headers, ownCookies: seq<Cookie>)
    ensures RedirectToResponse(rd, headers, mediaType, statusCode, app, request)
      == RedirectToResponse(rd.(mediaType := ownMediaType, headers := ownHeaders, cookies := ownCookies),
                            headers, otherMediaType, statusCode, otherApp, otherRequest)
  {
  }

  // ---------------------------------------------------------------------
  // Stream
  // ---------------------------------------------------------------------

  /** A stream source as `__post_init__` inspects it: whether it is an
      (async) iterable or iterator, and whether it is callable. */
  datatype StreamValue = StreamValue(id: nat, iterable: bool, callable: bool)

  /** The value the source holds after the call step of `__post_init__`:
      a callable that is not iterable is replaced by what `call` returns
      for it; any other value stays. */
  function ResolveStream(v: StreamValue, call: StreamValue -> StreamValue): StreamValue
  {
    if !v.iterable && v.callable then call(v) else v
  }

  /** The source is accepted exactly when it is iterable, or a callable that
      is not iterable and returns an iterable; the callable's result is not
      called again even when it is itself callable. */
  lemma StreamAccepted(v: StreamValue, call: StreamValue -> StreamValue)
    ensures ResolveStream(v, call).iterable <==> v.iterable || (v.callable && call(v).iterable)
    ensures v.iterable ==> ResolveStream(v, call) == v
    ensures !v.iterable && v.callable ==> ResolveStream(v, call) == call(v)
    ensures !v.iterable && !v.callable ==> !ResolveStream(v, call).iterable
  {
  }

  /** Once accepted, running the check again changes nothing. */
  lemma ResolveStreamIdempotent(v: StreamValue, call: StreamValue -> StreamValue)
    requires ResolveStream(v, call).iterable
    ensures ResolveStream(ResolveStream(v, call), call) == ResolveStream(v, call)
  {
  }

  /** A `Stream` container; its other fields are set by the dataclass
      constructor and never touched afterwards. */
  class Stream {
    /** The `iterator` field of the dataclass. */
    var source: StreamValue

    /** The dataclass constructor. */
    constructor (value: StreamValue)
      ensures source == value
    {
      source := value;
    }

    /** `__post_init__`: call a non-iterable callable once and keep its
        result, then raise unless the value is iterable. `call` stands for
        invoking the stored callable. */
    method PostInit(call: StreamValue -> StreamValue) returns (r: Outcome<ContainerError>)
      modifies this`source
      ensures source == ResolveStream(old(source), call)
      ensures r == (if source.iterable then Pass else Fail(IteratorNotIterable))
    {
      if !source.iterable && source.callable {
        source := call(source);
      }
      if !source.iterable {
        return Fail(IteratorNotIterable);
      }
      return Pass;
    }
  }

  /** `Stream(iterator=source)`: construct, then run `__post_init__`. */
  method NewStream(source: StreamValue, call: StreamValue -> StreamValue) returns (r: Result<Stream, ContainerError>)
    ensures r.Err? <==> !(source.iterable || (source.callable && call(source).iterable))
    ensures r.Err? ==> r.error == IteratorNotIterable
    ensures r.Ok? ==> fresh(r.value) && r.value.source == ResolveStream(source, call) && r.value.source.iterable
  {
    var s := new Stream(source);
    var outcome := s.PostInit(call);
    StreamAccepted(source, call);
    if outcome.Fail? {
      return Err(outcome.error);
    }
    return Ok(s);
  }

  // ---------------------------------------------------------------------
  // File
  // ---------------------------------------------------------------------

  /** What `getattr(file_system, name, None)` finds: nothing, a value that is
      not callable, or a callable. */
  datatype Attribute = Absent | NonCallable | CallableAttribute

  /** A file system object, as far as the capability check inspects it. */
  datatype FileSystem = FileSystem(id: nat, info: Attribute, open: Attribute)

  /** The result of a stat call; its content is not modelled. A present
      `os.stat_result` is a non-empty tuple and so always truthy. */
  datatype StatResult = StatResult(id: nat)

  /** The file system has a callable `info` and a callable `open`. */
  predicate Conforms(fs: FileSystem)
  {
    fs.info == CallableAttribute && fs.open == CallableAttribute
  }

  /** `stat_result` after `__post_init__`: a supplied value is kept, a
      missing one is computed from the path. */
  function FillStat(current: Option<StatResult>, path: string, stat: string -> StatResult): Option<StatResult>
  {
    if current.None? then Some(stat(path)) else current
  }

  /** Every file ends up with a stat result; a supplied one is kept, and
      `stat` is used only when none was supplied; filling twice is filling
      once. */
  lemma FillStatProperties(current: Option<StatResult>, path: string, stat: string -> StatResult)
    ensures FillStat(current, path, stat).Some?
    ensures current.Some? ==> FillStat(current, path, stat) == current
    ensures current.None? ==> FillStat(current, path, stat) == Some(stat(path))
    ensures FillStat(FillStat(current, path, stat), path, stat) == FillStat(current, path, stat)
  {
  }

  /** A `File` container; its other fields are set by the dataclass
      constructor and never touched afterwards. */
  class File {
    var path: string
    var fileSystem: FileSystem
    var statResult: Option<StatResult>

    /** The dataclass constructor. */
    constructor (path: string, fileSystem: FileSystem, statResult: Option<StatResult>)
      ensures this.path == path && this.fileSystem == fileSystem && this.statResult == statResult
    {
      this.path := path;
      this.fileSystem := fileSystem;
      this.statResult := statResult;
    }

    /** `__post_init__`: raise unless the file system conforms, then fill in
        a missing stat result. `stat` stands for `Path(path).stat()`. */
    method PostInit(stat: string -> StatResult) returns (r: Outcome<ContainerError>)
      modifies this`statResult
      ensures r == (if Conforms(fileSystem) then Pass else Fail(FileSystemNotConforming))
      ensures statResult == if r.Pass? then FillStat(old(statResult), path, stat) else old(statResult)
    {
      if !Conforms(fileSystem) {
        return Fail(FileSystemNotConforming);
      }
      if statResult.None? {
        statResult := Some(stat(path));
      }
      return Pass;
    }
  }

  /** `File(path=..., file_system=..., stat_result=...)`: construct, then
      run `__post_init__`. */
  method NewFile(path: string, fileSystem: FileSystem, statResult: Option<StatResult>, stat: string -> StatResult)
    returns (r: Result<File, ContainerError>)
    ensures r.Err? <==> !Conforms(fileSystem)
    ensures r.Err? ==> r.error == FileSystemNotConforming
    ensures r.Ok? ==> fresh(r.value) && r.value.path == path && r.value.fileSystem == fileSystem
    ensures r.Ok? ==> r.value.statResult == FillStat(statResult, path, stat) && r.value.statResult.Some?
  {
    var f := new File(path, fileSystem, statResult);
    var outcome := f.PostInit(stat);
    if outcome.Fail? {
      return Err(outcome.error);
    }
    FillStatProperties(statResult, path, stat);
    return Ok(f);
  }
}
