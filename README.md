# Starlite routing and response containers, in Dafny

This project models two parts of the Starlite web framework and proves properties about them.

**HTTP routes** (`starlite/routes.py`):

- `BaseRoute.parse_path` turns a path template such as `/users/{id:int}` into:
  - the path itself;
  - a format string (`/users/{id}`);
  - one parameter record per `{name:type}` group.
- `BaseRoute.__init__` builds the route's method set, adding `HEAD` whenever `GET` is declared.
- `HTTPRoute.create_handler_map` fills the table from HTTP method to `(handler, kwargs model)`. It raises when a method is already registered.
- The start of `HTTPRoute.handle` rejects methods outside the set, then looks up the handler.

**Response containers** (`starlite/response_containers.py`):

- `File.__post_init__` checks that the file system is conforming and fills in a missing `stat_result`.
- `Stream.__post_init__` calls a non-iterable callable once and rejects a non-iterable result.
- `Template.create_template_context` merges the user's context with `request` and the CSRF hidden input.
- `Template.to_response` checks for a template engine.
- `Redirect.to_response` maps the container's fields onto a redirect response.

The files:

- `results.dfy` (module `Results`): the `Option`, `Result` and `Outcome` wrappers, and the exceptions the modelled code raises.
- `py_strings.dfy` (module `PyStrings`): Python's `str.strip`, `str.split`, `str.replace` and `str.isspace`, as used by `parse_path`.
- `path_params.dfy` (module `PathParams`):
  - the `findall` of the regular expression `{(.*?)}`, as a function `Matches` and a scanning method `FindAll`;
  - the parsing of one group (`ParseParam`);
  - `parse_path` itself, as a specification function `Parsed` and a method `ParsePath` with a loop.
- `path_templates.dfy` (module `PathTemplates`):
  - a template as a list of literal and parameter segments;
  - the round trip: a well-formed template, rendered to text, parses back to its own format string and parameters.
  - A well-formed template (`WellFormed`) meets four conditions:
    - its literal text holds no `{` or `:`;
    - each group has one colon, no braces and no newline, and a known type name;
    - no group's text occurs inside a different group's text, as `id:int` does inside ` id:int`;
    - adjacent literals are merged.
  - The exclusions are needed because `path_format.replace(param, name)` (routes.py:81) rewrites every copy of a group's text anywhere in the path, not only the group itself. So `/{id:int}/{ id:int}` gets the format `/{id}/{ id}`.
  - For example, `id:int{id:int}` gets the format `id{id}`. `LiteralCopyOfGroupReplaced` proves this about `Parsed` for every group.
- `routes.dfy` (module `Routes`): the method set, the handler map as a specification function, the `HttpRoute` class whose `CreateHandlerMap` fills the map in place, and the dispatch check.
- `response_containers.dfy` (module `ResponseContainers`):
  - `Template` and `Redirect` as values;
  - `File` and `Stream` as classes whose `PostInit` overwrites a field, as `__post_init__` does.

Semantics the model follows:

- The regular expression's `.` does not match a newline. A `{` followed by a newline before any `}` therefore starts no match, and the scan goes on after that `{`.
- `param.split(":")` into exactly two names:
  - no colon raises ImproperlyConfiguredException (`MissingParameterType`);
  - two or more colons make the two-name unpacking raise ValueError (`TooManyValuesToUnpack`).
- `param_type_map[param_type]` raises KeyError for an unknown type name (`UnknownParameterType`).
- `str.strip()` removes the characters `str.isspace` accepts, listed as code points.
- `str.replace` replaces every non-overlapping occurrence, left to right.
- `route_handler_map.get(method)` is truthy exactly when the key is present, because every value is a non-empty tuple. The duplicate check is therefore a key-membership test.
- A present `os.stat_result` is a non-empty tuple and so always truthy. `if not self.stat_result` is therefore the test "no stat result supplied".

## Model

| member | source | states |
|---|---|---|
| PathParams.FindAll | starlite/routes.py:33 | the scanning loop returns exactly the `findall` list of the lazy group `{(.*?)}` |
| PathParams.MatchesAreLazy | starlite/routes.py:33 | no found group contains a `}` or a newline (the match is lazy and `.` excludes newlines) |
| PathParams.MatchesGroup | starlite/routes.py:33 | a closed group `{inner}` at the front yields `inner` and then the matches of the rest |
| PathParams.MatchesSkipLiteral | starlite/routes.py:33 | text without `{` contributes no match |
| PathParams.CloseIsFirst | starlite/routes.py:33 | a group ends at the first `}`, with no `}` or newline before it |
| PathParams.ParseParamCases | starlite/routes.py:76-82 | a group without a colon raises the missing-type error, one with two or more colons raises the unpacking error, and one with exactly one colon yields stripped name and type, or KeyError for an unknown type |
| PathParams.ParseParamOfParts | starlite/routes.py:80-82 | for `a:b` the record is `{name: strip(a), type: table[strip(b)], full: "a:b"}`, or KeyError on `strip(b)` |
| PathParams.ParsePath | starlite/routes.py:65-83 | the method with the loop computes `Parsed` of the normalized path |
| PathParams.ParsedRecords | starlite/routes.py:75-83 | parsing succeeds exactly when every group parses; then record i is the parse of group i, in order |
| PathParams.ParsedFirstError | starlite/routes.py:75-82 | on failure the error raised is that of the first group that fails |
| PathParams.MissingColonRejected | starlite/routes.py:76-79 | any group without a colon makes parsing fail, with that group's error when the groups before it parse |
| PathParams.ParsedParameterShape | starlite/routes.py:80-82 | every record has the group as `full`, a stripped name with no colon, and a type from the table |
| PathParams.ParsedOneGroup | starlite/routes.py:69-83 | a path with one group parses to that group's record, with the group replaced by the name in the format |
| PathParams.ParseFromSucceeds | starlite/routes.py:75-82 | the parsing fold succeeds exactly when every remaining group parses |
| PathParams.ParseFromFirstError | starlite/routes.py:75-82 | the fold stops with the error of the first group that fails |
| PathTemplates.ParseRendered | starlite/routes.py:65-83 | a well-formed template, rendered to text, parses to its own format string (each group replaced by its stripped name) and its own parameter records |
| PathTemplates.MatchesRender | starlite/routes.py:33 | the groups found in a rendered template are exactly its parameter groups |
| PathTemplates.ParamRecords | starlite/routes.py:80-82 | each parameter group of a template parses to the template's record for it |
| PathTemplates.ParseFold | starlite/routes.py:75-82 | after k groups the format has those k groups replaced and holds the first k records |
| PathTemplates.UserIdPath | starlite/routes.py:65-83 | `/users/{id:int}` parses to format `/users/{id}` and the record `id`, `int`, `id:int` |
| PathTemplates.EmptyGroupPath | starlite/routes.py:76-79 | `/users/{}` raises the missing-type error for the empty group |
| PyStrings.StripIsTrim | starlite/routes.py:80 | `strip` removes exactly the leading and trailing whitespace run and nothing inside |
| PyStrings.StripIdempotent | starlite/routes.py:80 | stripping twice is stripping once |
| PyStrings.StripPadded | starlite/routes.py:80 | whitespace around text with non-space ends is removed and the text kept |
| PyStrings.JoinSplit | starlite/routes.py:80 | joining the pieces of `split(sep)` with `sep` gives back the string |
| PyStrings.SplitCount | starlite/routes.py:80 | `split(":")` has one more piece than the string has colons |
| PyStrings.ReplaceAllIsSplitJoin | starlite/routes.py:81 | `replace(x, y)` is splitting on `x` and joining with `y` |
| Routes.MethodSet | starlite/routes.py:60-62 | a method is in the route's set exactly when a handler declares it, or it is `HEAD` and some handler declares `GET` |
| Routes.DeclaredMethodsMembership | starlite/routes.py:115 | the chained method list holds exactly the methods some handler declares |
| Routes.HttpRoute.constructor | starlite/routes.py:57-62 | the route takes the parsed path's fields, the handlers' names, the HTTP scope and an empty map, and its method set follows from its handlers |
| Routes.NewHttpRoute | starlite/routes.py:106-119 | once the arguments pass validation, building a route raises exactly what parse_path raises. Otherwise the route holds:<br>- the parsed path;<br>- the handlers and their names, in order;<br>- the HTTP scope;<br>- an empty handler map;<br>- the method set that follows from its handlers. |
| PathTemplates.LiteralCopyOfGroupReplaced | starlite/routes.py:75-83 | for a group `n:ty` preceded by the same text `n:ty`, the format replaces both copies with the stripped name |
| Routes.HttpRoute.CreateHandlerMap | starlite/routes.py:191-202 | the loop leaves the outcome and map that the specification `Register` gives for the map it started from |
| Routes.RegisterPass | starlite/routes.py:195-201 | when the kwargs models build without raising, building the map succeeds exactly when no method is declared twice across the handlers and none was already in the map |
| Routes.DistinctDeclared | starlite/routes.py:195-201 | a method repeats exactly when one handler declares it twice or two handlers both declare it |
| Routes.RegisterContents | starlite/routes.py:195-202 | on success the keys are the earlier keys plus the declared methods, earlier entries stay, and each declared method maps to its declaring handler and that handler's kwargs model |
| Routes.RegisterMethodsPass | starlite/routes.py:197-202 | one handler's methods register exactly when none repeats and none is present; then each maps to that handler |
| Routes.RegisterMethodsFail | starlite/routes.py:198-201 | the raised error names the route's path and one of the handler's methods |
| Routes.HandlerMapKeys | starlite/routes.py:60-62 | on success every key of the map is in the method set, and `HEAD` is a key only when a handler declares it |
| Routes.Dispatch | starlite/routes.py:125-128 | a method outside the set is rejected with MethodNotAllowed and only then; a method in the set but not in the map raises the KeyError of the lookup; a result is returned exactly when the method is in the set and in the map, and it is that map entry |
| Routes.HttpRoute.Handle | starlite/routes.py:125-128 | the method check of `handle` computes `Dispatch` on the route's own set and map |
| Routes.DispatchDeclared | starlite/routes.py:125-128 | after a successful build, every declared method dispatches to its declaring handler and kwargs model |
| Routes.HeadWithoutHandler | starlite/routes.py:61-62 | with `GET` but no `HEAD` declared, `HEAD` passes the method check and the map lookup raises KeyError |
| ResponseContainers.CreateTemplateContext | starlite/response_containers.py:403-417 | the context has the user's keys plus `request` and `csrf_input`; user values stay except under those two keys, which hold the request and the CSRF input markup |
| ResponseContainers.ContextOverridesAddedKeys | starlite/response_containers.py:413-417 | whatever the user put under `request` or `csrf_input` has no effect on the context |
| ResponseContainers.CsrfInputOfContext | starlite/response_containers.py:412-416 | `csrf_input` carries the scope's `_csrf_token`, or an empty value when the scope has none |
| ResponseContainers.CsrfInput | starlite/response_containers.py:416 | the markup is the hidden-input prefix, the token and the closing suffix |
| ResponseContainers.CsrfInputInjective | starlite/response_containers.py:416 | different tokens give different markup |
| ResponseContainers.TemplateToResponse | starlite/response_containers.py:389-401 | conversion raises exactly when the application has no template engine; otherwise it carries the built context, the name, the engine and the passed arguments |
| ResponseContainers.RedirectToResponse | starlite/response_containers.py:246-252 | the redirect URL is the container's path; status code, headers, background and encoding pass through |
| ResponseContainers.RedirectIgnoresMediaType | starlite/response_containers.py:224-252 | neither the media type argument nor the container's own media type, headers and cookies, the application or the request changes the response |
| ResponseContainers.StreamAccepted | starlite/response_containers.py:292-300 | a source is accepted exactly when it is iterable, or a non-iterable callable whose result is iterable; an iterable is unchanged; a callable's result is not called again |
| ResponseContainers.ResolveStreamIdempotent | starlite/response_containers.py:292-295 | an accepted source is unchanged by a second normalization |
| ResponseContainers.Stream.PostInit | starlite/response_containers.py:292-300 | the field becomes the normalized source, and the call raises exactly when that is not iterable |
| ResponseContainers.NewStream | starlite/response_containers.py:292-300 | construction fails exactly for a source that is neither iterable nor a callable returning an iterable; otherwise the stored value is iterable |
| ResponseContainers.FillStatProperties | starlite/response_containers.py:157-158 | a supplied stat result is kept, a missing one is computed from the path, and the result is always present |
| ResponseContainers.File.PostInit | starlite/response_containers.py:151-158 | raises exactly when `info` or `open` is missing or not callable, leaving the stat result alone; otherwise fills in a missing stat result |
| ResponseContainers.NewFile | starlite/response_containers.py:151-158 | construction fails exactly for a non-conforming file system; otherwise the file holds a stat result, the supplied one if any |

## Left out

- `normalize_path` is not part of this model. `ParsePath` and `NewHttpRoute` take it as a function parameter, and every property is stated about the normalized path.
- The parameter types (`str`, `int`, `float`, `UUID`) are an enumeration. The Python classes themselves are not modelled.
- `get_name(handler.fn)` is a field of the handler.
- `create_handler_kwargs_model` (signature models, dependency resolution) is a function parameter of `CreateHandlerMap`. The kwargs model is an opaque value.
- `RegisterPass`: an exception raised while building the kwargs model (routes.py:85-94) is not modelled. In the model, `create_handler_map` therefore fails only on a repeated method.
  - That exception would come from `resolve_dependencies`, `get_signature_model` or `KwargsModel.create_for_signature_model`.
- In `handle`, everything after the handler lookup is left out: guards, caching, parameter parsing, calling the handler and sending the response. It is asynchronous I/O over the ASGI connection.
- `validate_arguments` is not modelled. It is the pydantic argument check on `HTTPRoute.__init__` (routes.py:105) and on `BaseRoute.__init__` (routes.py:48).
  - `BaseRoute.__init__` validates the chained method list against `Method`, and `handler_names` as a list of strings, before `parse_path` runs. A handler method outside `Method` therefore raises a validation error before any parse error.
  - `NewHttpRoute`'s contract applies only to arguments that pass this validation.
- `Path(path).stat()` is a function parameter `stat`. The OSError it can raise for a missing file is not modelled.
- The file system's capabilities are modelled only as what `getattr` finds for `info` and `open`: absent, not callable, or callable.
- A stream source is modelled only by its identity and by whether it is iterable and whether it is callable. Calling it is a function parameter `call`; an exception raised by the call is not modelled.
- `Stream.to_response` and `File.to_response` are not part of the modelled core. They only pass fields through to response classes that are outside the model.
- The response classes (`TemplateResponse`, `RedirectResponse`, …) are records of the arguments they receive.
- `RedirectToResponse`: the `Literal[301, 302, 303, 307, 308]` annotation on `status_code` is not enforced at run time, so the model passes any status code through.
- `CsrfToken`: a scope value is taken as the text it formats to inside the f-string.
- Template engines, applications, background tasks and cookies are opaque identities.
