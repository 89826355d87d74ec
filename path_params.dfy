/** Parsing of route path templates such as `/users/{user_id:int}`
    (`BaseRoute.parse_path`): the `{(.*?)}` scanner, the per-parameter
    `name:type` parse and the loop that collects the parameters and builds
    the path format. */
module PathParams {
  import opened Results
  import opened PyStrings

  /** The Python types a path parameter can be declared with. */
  datatype ParamType = StrType | IntType | FloatType | UuidType

  /** `param_type_map`: the only type names a path parameter may use. */
  const ParamTypeMap: map<string, ParamType> :=
    map["str" := StrType, "int" := IntType, "float" := FloatType, "uuid" := UuidType]

  /** One `{"name": ..., "type": ..., "full": ...}` record of `path_parameters`. */
  datatype PathParameter = PathParameter(name: string, paramType: ParamType, full: string)

  /** The triple `(path, path_format, path_parameters)` that parse_path returns. */
  datatype ParsedPath = ParsedPath(path: string, pathFormat: string, pathParameters: seq<PathParameter>)

  // ---------------------------------------------------------------------
  // The scanner: `re.compile(r"{(.*?)}").findall(path)`.
  // `.` matches any character but a newline and `*?` is lazy, so from a `{`
  // the group ends at the first `}`, unless a newline comes first.
  // ---------------------------------------------------------------------

  /** Where the lazy group opened just before `t` closes: the index of the
      first `}` in `t`, or None when a newline or the end comes first. */
  function Close(t: string): (r: Option<nat>)
    ensures r.Some? ==> r.value < |t| && t[r.value] == '}'
  {
    if t == [] || t[0] == '\n' then None
    else if t[0] == '}' then Some(0)
    else match Close(t[1..])
      case Some(k) => Some(k + 1)
      case None => None
  }

  /** The inner texts of all matches of `{(.*?)}` in `s`, left to right. */
  function Matches(s: string): seq<string>
    decreases |s|
  {
    if s == [] then []
    else if s[0] == '{' then
      match Close(s[1..])
      case Some(k) => [s[1..k + 1]] + Matches(s[k + 2..])
      case None => Matches(s[1..])
    else Matches(s[1..])
  }

  /** The group closes at the first `}` when no newline comes before it. */
  lemma {:induction false} CloseFound(t: string, m: nat)
    requires m < |t| && t[m] == '}'
    requires forall k :: 0 <= k < m ==> t[k] != '}' && t[k] != '\n'
    ensures Close(t) == Some(m)
  {
    if m > 0 {
      CloseFound(t[1..], m - 1);
    }
  }

  /** The group does not close when a newline or the end comes before any `}`. */
  lemma {:induction false} CloseMissing(t: string, m: nat)
    requires m <= |t| && (m == |t| || t[m] == '\n')
    requires forall k :: 0 <= k < m ==> t[k] != '}' && t[k] != '\n'
    ensures Close(t) == None
  {
    if m > 0 {
      CloseMissing(t[1..], m - 1);
    }
  }

  /** The group ends at the first `}`: no `}` or newline comes before it. */
  lemma {:induction false} CloseIsFirst(t: string)
    requires Close(t).Some?
    ensures forall k :: 0 <= k < Close(t).value ==> t[k] != '}' && t[k] != '\n'
  {
    if t[0] != '}' {
      CloseIsFirst(t[1..]);
      forall k | 0 < k < Close(t).value
        ensures t[k] != '}' && t[k] != '\n'
      {
        assert t[k] == t[1..][k - 1];
      }
    }
  }

  /** The scan is lazy: no inner text holds a `}` or a newline. */
  lemma {:induction false} MatchesAreLazy(s: string)
    ensures forall i :: 0 <= i < |Matches(s)| ==> '}' !in Matches(s)[i] && '\n' !in Matches(s)[i]
    decreases |s|
  {
    if s != [] {
      if s[0] == '{' && Close(s[1..]).Some? {
        var k := Close(s[1..]).value;
        CloseIsFirst(s[1..]);
        MatchesAreLazy(s[k + 2..]);
        var inner := s[1..k + 1];
        forall j | 0 <= j < |inner|
          ensures inner[j] != '}' && inner[j] != '\n'
        {
          assert inner[j] == s[1..][j];
        }
        var ms := Matches(s);
        forall i | 0 < i < |ms|
          ensures '}' !in ms[i] && '\n' !in ms[i]
        {
          assert ms[i] == Matches(s[k + 2..])[i - 1];
        }
      } else {
        MatchesAreLazy(s[1..]);
      }
    }
  }

  /** Text without `{` holds no match. */
  lemma {:induction false} MatchesSkipLiteral(x: string, rest: string)
    requires '{' !in x
    ensures Matches(x + rest) == Matches(rest)
    decreases |x|
  {
    if x == [] {
      assert x + rest == rest;
    } else {
      var s := x + rest;
      assert x[0] != '{';
      assert s != [] && s[0] == x[0] && s[1..] == x[1..] + rest;
      assert Matches(s) == Matches(s[1..]);
      MatchesSkipLiteral(x[1..], rest);
    }
  }

  /** A `{inner}` group without `}` or newline inside is one match. */
  lemma MatchesGroup(inner: string, rest: string)
    requires '}' !in inner && '\n' !in inner
    ensures Matches("{" + inner + "}" + rest) == [inner] + Matches(rest)
  {
    var s := "{" + inner + "}" + rest;
    var t := s[1..];
    assert t == inner + "}" + rest;
    CloseFound(t, |inner|);
    assert s[1..|inner| + 1] == inner;
    assert s[|inner| + 2..] == rest;
  }

  /** At a `{` whose group closes at `j`, the scan yields the group's inner
      text and resumes after the `}`. */
  lemma MatchesAtGroup(s: string, i: nat, j: nat)
    requires i < j < |s| && s[i] == '{' && s[j] == '}'
    requires forall k :: i < k < j ==> s[k] != '}' && s[k] != '\n'
    ensures Matches(s[i..]) == [s[i + 1..j]] + Matches(s[j + 1..])
  {
    var u := s[i..];
    assert u[0] == '{' && u[1..] == s[i + 1..];
    CloseFound(u[1..], j - i - 1);
    assert u[1..j - i] == s[i + 1..j];
    assert u[j - i + 1..] == s[j + 1..];
  }

  /** At a `{` whose group meets a newline or the end at `j` before any
      `}`, the scan moves on by one character. */
  lemma MatchesAtUnclosed(s: string, i: nat, j: nat)
    requires i < j <= |s| && s[i] == '{' && (j == |s| || s[j] == '\n')
    requires forall k :: i < k < j ==> s[k] != '}' && s[k] != '\n'
    ensures Matches(s[i..]) == Matches(s[i + 1..])
  {
    var u := s[i..];
    assert u[0] == '{' && u[1..] == s[i + 1..];
    CloseMissing(u[1..], j - i - 1);
  }

  /** At any other character the scan moves on by one character. */
  lemma MatchesAtOther(s: string, i: nat)
    requires i < |s| && s[i] != '{'
    ensures Matches(s[i..]) == Matches(s[i + 1..])
  {
    var u := s[i..];
    assert u[0] == s[i] && u[1..] == s[i + 1..];
  }

  /** The scanner as a loop over the path: from each `{`, the inner text
      up to the first following `}`. */
  method FindAll(s: string) returns (found: seq<string>)
    ensures found == Matches(s)
  {
    found := [];
    var i := 0;
    while i < |s|
      invariant 0 <= i <= |s|
      invariant found + Matches(s[i..]) == Matches(s)
    {
      if s[i] == '{' {
        var j := i + 1;
        while j < |s| && s[j] != '}' && s[j] != '\n'
          invariant i + 1 <= j <= |s|
          invariant forall k :: i < k < j ==> s[k] != '}' && s[k] != '\n'
        {
          j := j + 1;
        }
        if j < |s| && s[j] == '}' {
          MatchesAtGroup(s, i, j);
          assert found + [s[i + 1..j]] + Matches(s[j + 1..]) == found + Matches(s[i..]);
          found := found + [s[i + 1..j]];
          i := j + 1;
        } else {
          MatchesAtUnclosed(s, i, j);
          i := i + 1;
        }
      } else {
        MatchesAtOther(s, i);
        i := i + 1;
      }
    }
  }

  // ---------------------------------------------------------------------
  // One parameter: `name, type = (p.strip() for p in param.split(":"))`
  // and `param_type_map[type]`.
  // ---------------------------------------------------------------------

  /** Parse the inner text of one `{...}` group into its record, or the
      exception the source raises for it. */
  function ParseParam(param: string): (r: Result<PathParameter, RouteError>)
    ensures r.Ok? ==> ':' in param && r.value.full == param
  {
    if ':' !in param then Err(MissingParameterType(param))
    else
      var parts := Split(param, ":");
      if |parts| != 2 then Err(TooManyValuesToUnpack(param))
      else
        var name, typeName := Strip(parts[0]), Strip(parts[1]);
        if typeName !in ParamTypeMap then Err(UnknownParameterType(typeName))
        else Ok(PathParameter(name, ParamTypeMap[typeName], param))
  }

  /** The three outcomes of one parameter, by the number of colons: none is
      a configuration error, two or more fail the two-way unpack, and exactly
      one gives the stripped name and the looked-up type, or a failed lookup. */
  lemma ParseParamCases(param: string)
    ensures multiset(param)[':'] == 0 ==> ParseParam(param) == Err(MissingParameterType(param))
    ensures multiset(param)[':'] >= 2 ==> ParseParam(param) == Err(TooManyValuesToUnpack(param))
    ensures multiset(param)[':'] == 1 ==>
      var k := IndexOf(param, ':');
      var name, typeName := Strip(param[..k]), Strip(param[k + 1..]);
      && ':' !in param[k + 1..]
      && ParseParam(param) ==
           if typeName in ParamTypeMap then Ok(PathParameter(name, ParamTypeMap[typeName], param))
           else Err(UnknownParameterType(typeName))
  {
    CountZero(param, ':');
    SplitCount(param, ':');
    if multiset(param)[':'] == 1 {
      ParseParamOneColon(param);
    }
  }

  /** The one-colon case of `ParseParamCases`. */
  lemma ParseParamOneColon(param: string)
    requires multiset(param)[':'] == 1
    ensures var k := IndexOf(param, ':');
      var name, typeName := Strip(param[..k]), Strip(param[k + 1..]);
      && ':' !in param[k + 1..]
      && ParseParam(param) ==
           if typeName in ParamTypeMap then Ok(PathParameter(name, ParamTypeMap[typeName], param))
           else Err(UnknownParameterType(typeName))
  {
    CountZero(param, ':');
    var k := IndexOf(param, ':');
    var a, b := param[..k], param[k + 1..];
    assert param == a + ":" + b;
    OneColonAfterFirst(a, b);
    ParseParamOfParts(a, b);
  }

  /** With one colon in all, none follows the first. */
  lemma OneColonAfterFirst(a: string, b: string)
    requires ':' !in a && multiset(a + ":" + b)[':'] == 1
    ensures ':' !in b
  {
    assert multiset(a + ":" + b) == multiset(a) + multiset{':'} + multiset(b);
    CountZero(a, ':');
    CountZero(b, ':');
  }

  /** A parameter written `name:type`, with one colon, parses to the stripped
      name and the type's table entry, or fails the lookup of the stripped
      type name. */
  lemma ParseParamOfParts(a: string, b: string)
    requires ':' !in a && ':' !in b
    ensures ParseParam(a + ":" + b) ==
      if Strip(b) in ParamTypeMap then Ok(PathParameter(Strip(a), ParamTypeMap[Strip(b)], a + ":" + b))
      else Err(UnknownParameterType(Strip(b)))
  {
    var param := a + ":" + b;
    assert param == a + [':'] + b;
    assert param[|a|] == ':';
    SplitAtFirst(a, ':', b);
    SplitWithout(b, ':');
    assert Split(param, ":") == [a, b];
  }

  // ---------------------------------------------------------------------
  // The whole path: the loop over the matches.
  // ---------------------------------------------------------------------

  /** The rest of the loop from a state with format `pathFormat` and
      parameters `acc` so far, over the remaining matches `ms`. */
  function ParseFrom(pathFormat: string, acc: seq<PathParameter>, ms: seq<string>)
    : (r: Result<(string, seq<PathParameter>), RouteError>)
    ensures r.Ok? ==> |r.value.1| == |acc| + |ms|
    decreases |ms|
  {
    if ms == [] then Ok((pathFormat, acc))
    else match ParseParam(ms[0])
      case Err(e) => Err(e)
      case Ok(p) => ParseFrom(ReplaceAll(pathFormat, ms[0], p.name), acc + [p], ms[1..])
  }

  /** What parse_path computes for an already normalized path. */
  function Parsed(path: string): (r: Result<ParsedPath, RouteError>)
    ensures r.Ok? ==> r.value.path == path && |r.value.pathParameters| == |Matches(path)|
  {
    var r := ParseFrom(path, [], Matches(path));
    if r.Err? then Err(r.error) else Ok(ParsedPath(path, r.value.0, r.value.1))
  }

  /** `BaseRoute.parse_path`: normalize the path, then for each `{...}` group
      check and split it, replace its text by its name in the format, and
      append its record. `normalize` stands for `normalize_path`. */
  method ParsePath(rawPath: string, normalize: string -> string) returns (r: Result<ParsedPath, RouteError>)
    ensures r == Parsed(normalize(rawPath))
  {
    var path := normalize(rawPath);
    var pathFormat := path;
    var pathParameters: seq<PathParameter> := [];
    var found := FindAll(path);
    var i := 0;
    while i < |found|
      invariant 0 <= i <= |found|
      invariant ParseFrom(pathFormat, pathParameters, found[i..]) == ParseFrom(path, [], found)
    {
      var param := found[i];
      assert found[i..][0] == param && found[i..][1..] == found[i + 1..];
      if ':' !in param {
        return Err(MissingParameterType(param));
      }
      var parts := Split(param, ":");
      if |parts| != 2 {
        return Err(TooManyValuesToUnpack(param));
      }
      var name, typeName := Strip(parts[0]), Strip(parts[1]);
      pathFormat := ReplaceAll(pathFormat, param, name);
      if typeName !in ParamTypeMap {
        return Err(UnknownParameterType(typeName));
      }
      pathParameters := pathParameters + [PathParameter(name, ParamTypeMap[typeName], param)];
      i := i + 1;
    }
    return Ok(ParsedPath(path, pathFormat, pathParameters));
  }

  // ---------------------------------------------------------------------
  // Properties of the loop.
  // ---------------------------------------------------------------------

  /** One turn of the loop over a match that parses. */
  lemma ParseFromStep(pathFormat: string, acc: seq<PathParameter>, ms: seq<string>, p: PathParameter)
    requires ms != [] && ParseParam(ms[0]) == Ok(p)
    ensures ParseFrom(pathFormat, acc, ms) == ParseFrom(ReplaceAll(pathFormat, ms[0], p.name), acc + [p], ms[1..])
  {
  }

  /** The loop succeeds exactly when every match parses. */
  lemma {:induction false} ParseFromSucceeds(pathFormat: string, acc: seq<PathParameter>, ms: seq<string>)
    ensures ParseFrom(pathFormat, acc, ms).Ok? <==> forall i :: 0 <= i < |ms| ==> ParseParam(ms[i]).Ok?
    decreases |ms|
  {
    if ms != [] {
      var r := ParseParam(ms[0]);
      if r.Ok? {
        var next := ReplaceAll(pathFormat, ms[0], r.value.name);
        assert ParseFrom(pathFormat, acc, ms) == ParseFrom(next, acc + [r.value], ms[1..]);
        ParseFromSucceeds(next, acc + [r.value], ms[1..]);
        assert forall i :: 0 < i < |ms| ==> ms[i] == ms[1..][i - 1];
      }
    }
  }

  /** When the loop succeeds, its records are the records so far followed by
      each match's own record, in order. */
  lemma {:induction false} ParseFromRecords(pathFormat: string, acc: seq<PathParameter>, ms: seq<string>)
    requires ParseFrom(pathFormat, acc, ms).Ok?
    ensures var ps := ParseFrom(pathFormat, acc, ms).value.1;
      && ps[..|acc|] == acc
      && forall i :: 0 <= i < |ms| ==> ParseParam(ms[i]).Ok? && ps[|acc| + i] == ParseParam(ms[i]).value
    decreases |ms|
  {
    if ms != [] {
      var r := ParseParam(ms[0]);
      assert r.Ok?;
      var p := r.value;
      var acc' := acc + [p];
      var rest := ParseFrom(ReplaceAll(pathFormat, ms[0], p.name), acc', ms[1..]);
      assert ParseFrom(pathFormat, acc, ms) == rest;
      ParseFromRecords(ReplaceAll(pathFormat, ms[0], p.name), acc', ms[1..]);
      var ps := rest.value.1;
      assert ps[..|acc|] == ps[..|acc'|][..|acc|];
      assert ps[|acc|] == ps[..|acc'|][|acc|];
      forall i | 0 < i < |ms|
        ensures ParseParam(ms[i]).Ok? && ps[|acc| + i] == ParseParam(ms[i]).value
      {
        assert ms[i] == ms[1..][i - 1];
        assert |acc| + i == |acc'| + (i - 1);
      }
    }
  }

  /** When the loop fails, it raises the exception of the first match that
      does not parse. */
  lemma {:induction false} ParseFromFirstError(pathFormat: string, acc: seq<PathParameter>, ms: seq<string>, i: nat)
    requires i < |ms| && ParseParam(ms[i]).Err?
    requires forall k :: 0 <= k < i ==> ParseParam(ms[k]).Ok?
    ensures ParseFrom(pathFormat, acc, ms) == Err(ParseParam(ms[i]).error)
    decreases |ms|
  {
    if i > 0 {
      var p := ParseParam(ms[0]).value;
      ParseFromFirstError(ReplaceAll(pathFormat, ms[0], p.name), acc + [p], ms[1..], i - 1);
    }
  }

  /** parse_path succeeds exactly when every `{...}` group parses; its records
      are then one per group, in order, each the group's own record. */
  lemma ParsedRecords(path: string)
    ensures Parsed(path).Ok? <==> forall i :: 0 <= i < |Matches(path)| ==> ParseParam(Matches(path)[i]).Ok?
    ensures Parsed(path).Ok? ==>
      forall i :: 0 <= i < |Matches(path)| ==>
        Parsed(path).value.pathParameters[i] == ParseParam(Matches(path)[i]).value
  {
    var ms := Matches(path);
    ParseFromSucceeds(path, [], ms);
    if !Parsed(path).Ok? {
      var i :| 0 <= i < |ms| && !ParseParam(ms[i]).Ok?;
      assert !ParseParam(Matches(path)[i]).Ok?;
    } else {
      ParseFromRecords(path, [], ms);
      var ps := Parsed(path).value.pathParameters;
      forall i | 0 <= i < |Matches(path)|
        ensures ps[i] == ParseParam(Matches(path)[i]).value
      {
        assert ps[0 + i] == ps[i];
      }
    }
  }

  /** parse_path raises the exception of the first `{...}` group that does
      not parse. */
  lemma ParsedFirstError(path: string, i: nat)
    requires i < |Matches(path)| && ParseParam(Matches(path)[i]).Err?
    requires forall k :: 0 <= k < i ==> ParseParam(Matches(path)[k]).Ok?
    ensures Parsed(path) == Err(ParseParam(Matches(path)[i]).error)
  {
    ParseFromFirstError(path, [], Matches(path), i);
  }

  /** A `{...}` group without a colon, `{}` included, makes parse_path fail,
      and it raises ImproperlyConfiguredException when no earlier group failed. */
  lemma MissingColonRejected(path: string, i: nat)
    requires i < |Matches(path)| && ':' !in Matches(path)[i]
    ensures Parsed(path).Err?
    ensures (forall k :: 0 <= k < i ==> ParseParam(Matches(path)[k]).Ok?) ==>
      Parsed(path) == Err(MissingParameterType(Matches(path)[i]))
  {
    ParsedRecords(path);
    if forall k :: 0 <= k < i ==> ParseParam(Matches(path)[k]).Ok? {
      ParsedFirstError(path, i);
    }
  }

  /** Each record of a successful parse holds the stripped text on either side
      of the group's single colon, the table entry of the type, and the raw
      inner text. */
  lemma ParsedParameterShape(path: string, i: nat)
    requires Parsed(path).Ok? && i < |Matches(path)|
    ensures var m := Matches(path)[i];
      && multiset(m)[':'] == 1
      && var k := IndexOf(m, ':');
      && Strip(m[k + 1..]) in ParamTypeMap
      && Parsed(path).value.pathParameters[i]
           == PathParameter(Strip(m[..k]), ParamTypeMap[Strip(m[k + 1..])], m)
  {
    ParsedRecords(path);
    ParseParamCases(Matches(path)[i]);
  }

  /** A path with a single `{...}` group after text without `{`: parse_path
      raises that group's exception, or returns the one record and the path
      with the group's inner text replaced by the name. */
  lemma ParsedOneGroup(prefix: string, inner: string)
    requires '{' !in prefix && '}' !in inner && '\n' !in inner
    ensures var path := prefix + "{" + inner + "}";
      Parsed(path) ==
        match ParseParam(inner)
        case Err(e) => Err(e)
        case Ok(p) => Ok(ParsedPath(path, ReplaceAll(path, inner, p.name), [p]))
  {
    var path := prefix + "{" + inner + "}";
    MatchesGroup(inner, "");
    assert "{" + inner + "}" + "" == "{" + inner + "}";
    MatchesSkipLiteral(prefix, "{" + inner + "}");
    assert prefix + ("{" + inner + "}") == path;
    assert Matches(path) == [inner];
    assert [inner][1..] == [];
    match ParseParam(inner)
    case Err(e) =>
    case Ok(p) =>
      var pathFormat := ReplaceAll(path, inner, p.name);
      assert [] + [p] == [p];
      assert ParseFrom(path, [], [inner]) == ParseFrom(pathFormat, [p], []) == Ok((pathFormat, [p]));
  }
}
