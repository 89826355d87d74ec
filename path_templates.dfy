/** What parse_path computes on a path written from a template: literal text
    and `{name:type}` groups. Rendering the template and parsing the result
    gives back the template's parameters, in order, and the format in which
    every group is written `{name}`. */
module PathTemplates {
  import opened Results
  import opened PyStrings
  import opened PathParams

  /** A piece of a path template: literal text, or a `{rawName:rawType}`
      group whose name and type may carry surrounding whitespace. */
  datatype Segment = Literal(text: string) | Param(rawName: string, rawType: string)

  /** The inner text of a group, as the scanner finds it. */
  function Inner(rawName: string, rawType: string): (inner: string)
    ensures ':' in inner
  {
    assert (rawName + ":" + rawType)[|rawName|] == ':';
    rawName + ":" + rawType
  }

  /** The path text of a template. */
  function Render(t: seq<Segment>): string
  {
    if t == [] then []
    else
      var piece := match t[0]
        case Literal(text) => text
        case Param(n, ty) => "{" + Inner(n, ty) + "}";
      piece + Render(t[1..])
  }

  /** The expected path format: every group written as `{name}` with the
      name stripped. */
  function Format(t: seq<Segment>): string
  {
    if t == [] then []
    else
      var piece := match t[0]
        case Literal(text) => text
        case Param(n, ty) => "{" + Strip(n) + "}";
      piece + Format(t[1..])
  }

  /** The path part way through the replacements: the groups whose inner
      text is in `done` are already written `{name}`, the others `{name:type}`. */
  function RenderWith(t: seq<Segment>, done: set<string>): string
  {
    if t == [] then []
    else
      var piece := match t[0]
        case Literal(text) => text
        case Param(n, ty) => "{" + Body(n, ty, done) + "}";
      piece + RenderWith(t[1..], done)
  }

  /** What stands between the braces of a group part way through the
      replacements. */
  function Body(rawName: string, rawType: string, done: set<string>): string
  {
    if Inner(rawName, rawType) in done then Strip(rawName) else Inner(rawName, rawType)
  }

  /** The inner texts of the template's groups, left to right. */
  function Inners(t: seq<Segment>): (r: seq<string>)
    ensures |r| <= |t|
  {
    if t == [] then []
    else match t[0]
      case Literal(_) => Inners(t[1..])
      case Param(n, ty) => [Inner(n, ty)] + Inners(t[1..])
  }

  /** The expected parameter records, left to right. */
  function Parameters(t: seq<Segment>): (r: seq<PathParameter>)
    requires SegmentsOk(t)
    ensures |r| == |Inners(t)|
  {
    if t == [] then []
    else match t[0]
      case Literal(_) => Parameters(t[1..])
      case Param(n, ty) =>
        assert SegmentOk(t[0]);
        [PathParameter(Strip(n), ParamTypeMap[Strip(ty)], Inner(n, ty))] + Parameters(t[1..])
  }

  /** A segment the round trip holds for: literal text holds no `{` and no
      colon; a group's name and type hold no colon, brace or newline, and the
      stripped type is one of the table's names. */
  predicate SegmentOk(g: Segment)
  {
    match g
    case Literal(text) => '{' !in text && ':' !in text
    case Param(n, ty) =>
      && ':' !in n && '{' !in n && '}' !in n && '\n' !in n
      && ':' !in ty && '{' !in ty && '}' !in ty && '\n' !in ty
      && Strip(ty) in ParamTypeMap
  }

  /** Every segment of the template is well formed. */
  predicate SegmentsOk(t: seq<Segment>)
  {
    forall i :: 0 <= i < |t| ==> SegmentOk(t[i])
  }

  /** No two literals stand next to each other. */
  predicate LiteralsMerged(t: seq<Segment>)
  {
    forall i :: 0 <= i < |t| - 1 && t[i].Literal? ==> t[i + 1].Param?
  }

  /** One inner text occurs inside another only when the two are the same. */
  predicate NoNesting(ms: seq<string>)
  {
    forall i, j :: 0 <= i < |ms| && 0 <= j < |ms| ==> ms[i] == ms[j] || !IsSubstring(ms[i], ms[j])
  }

  /** A template the round trip holds for. */
  predicate WellFormed(t: seq<Segment>)
  {
    SegmentsOk(t) && LiteralsMerged(t) && NoNesting(Inners(t))
  }

  // ---------------------------------------------------------------------
  // `str.replace` over rendered text.
  // ---------------------------------------------------------------------

  /** A pattern without the character `c` never spans it, so replacing
      splits at `c`. */
  lemma {:induction false} ReplaceSplitAt(p: string, c: char, q: string, x: string, y: string)
    requires x != [] && c !in x
    ensures ReplaceAll(p + [c] + q, x, y) == ReplaceAll(p, x, y) + [c] + ReplaceAll(q, x, y)
    decreases |p|
  {
    var s := p + [c] + q;
    if p == [] {
      assert s == [c] + q;
      assert x[0] != c;
      assert !(x <= s);
      assert s[1..] == q;
    } else if x <= s {
      PrefixBeforeChar(p, c, q, x);
      var p' := p[|x|..];
      assert s[|x|..] == p' + [c] + q;
      ReplaceSplitAt(p', c, q, x, y);
      assert ReplaceAll(s, x, y) == y + ReplaceAll(s[|x|..], x, y);
      assert ReplaceAll(p, x, y) == y + ReplaceAll(p', x, y);
    } else {
      assert !(x <= p);
      assert s[0] == p[0] && s[1..] == p[1..] + [c] + q;
      ReplaceSplitAt(p[1..], c, q, x, y);
    }
  }

  /** A pattern without `c` that starts `p + [c] + q` lies within `p`. */
  lemma PrefixBeforeChar(p: string, c: char, q: string, x: string)
    requires c !in x && x <= p + [c] + q
    ensures x <= p
  {
    var s := p + [c] + q;
    assert s[|p|] == c;
    assert forall k :: 0 <= k < |x| ==> x[k] == s[k] && s[k] != c;
    assert |x| <= |p|;
    assert forall k :: 0 <= k < |x| ==> x[k] == p[k];
  }

  /** Replacing a pattern that does not occur changes nothing. */
  lemma {:induction false} ReplaceAbsent(s: string, x: string, y: string)
    requires x != [] && !IsSubstring(x, s)
    ensures ReplaceAll(s, x, y) == s
    decreases |s|
  {
    if s != [] {
      ReplaceAbsent(s[1..], x, y);
      assert s == [s[0]] + s[1..];
    }
  }

  /** A pattern holding a character the text lacks does not occur in it. */
  lemma AbsentByChar(x: string, s: string, c: char)
    requires c in x && c !in s
    ensures !IsSubstring(x, s)
  {
    if IsSubstring(x, s) {
      SubstringChars(x, s, c);
    }
  }

  /** Replacing a whole text by itself. */
  lemma ReplaceWhole(x: string, y: string)
    requires x != []
    ensures ReplaceAll(x, x, y) == y
  {
    assert x <= x && x[|x|..] == [];
  }

  /** Literal text without a colon, followed by nothing or by a `{`, holds
      no part of an occurrence of a `{`-free pattern with a colon. */
  lemma {:induction false} ReplaceLiteral(text: string, rest: string, x: string, y: string)
    requires ':' in x && '{' !in x && ':' !in text
    requires rest == [] || rest[0] == '{'
    ensures ReplaceAll(text + rest, x, y) == text + ReplaceAll(rest, x, y)
    decreases |text|
  {
    if text == [] {
      assert text + rest == rest;
    } else {
      var s := text + rest;
      var c := IndexOf(x, ':');
      assert c < |text| ==> s[c] == text[c];
      assert |text| < |s| ==> s[|text|] == rest[0];
      assert !(x <= s);
      assert s[0] == text[0] && s[1..] == text[1..] + rest;
      ReplaceLiteral(text[1..], rest, x, y);
    }
  }

  // ---------------------------------------------------------------------
  // The scan of a rendered template.
  // ---------------------------------------------------------------------

  /** The scanner finds exactly the template's groups, in order. */
  lemma {:induction false} MatchesRender(t: seq<Segment>)
    requires SegmentsOk(t)
    ensures Matches(Render(t)) == Inners(t)
  {
    if t != [] {
      assert forall i :: 0 <= i < |t| - 1 ==> t[1..][i] == t[i + 1];
      MatchesRender(t[1..]);
      assert SegmentOk(t[0]);
      match t[0]
      case Literal(text) =>
        MatchesSkipLiteral(text, Render(t[1..]));
      case Param(n, ty) =>
        var inner := Inner(n, ty);
        assert '}' !in inner && '\n' !in inner by {
          assert inner == n + ":" + ty;
        }
        assert Render(t) == "{" + inner + "}" + Render(t[1..]);
        MatchesGroup(inner, Render(t[1..]));
    }
  }

  /** The record parse_path makes of each group is the template's record. */
  lemma {:induction false} ParamRecords(t: seq<Segment>, k: nat)
    requires SegmentsOk(t)
    requires k < |Inners(t)|
    ensures ParseParam(Inners(t)[k]) == Ok(Parameters(t)[k])
  {
    SegmentsOkTail(t);
    match t[0]
    case Literal(_) =>
      ParamRecords(t[1..], k);
    case Param(n, ty) =>
      assert Inners(t) == [Inner(n, ty)] + Inners(t[1..]);
      assert Parameters(t) == [PathParameter(Strip(n), ParamTypeMap[Strip(ty)], Inner(n, ty))] + Parameters(t[1..]);
      if k == 0 {
        GroupRecord(n, ty);
      } else {
        ParamRecords(t[1..], k - 1);
      }
  }

  /** The first segment and the rest of a well-formed template are well formed. */
  lemma SegmentsOkTail(t: seq<Segment>)
    requires t != [] && SegmentsOk(t)
    ensures SegmentOk(t[0]) && SegmentsOk(t[1..])
  {
    assert forall i :: 0 <= i < |t| - 1 ==> t[1..][i] == t[i + 1];
  }

  /** A well-formed group parses to its own record. */
  lemma GroupRecord(n: string, ty: string)
    requires SegmentOk(Param(n, ty))
    ensures ParseParam(Inner(n, ty)) == Ok(PathParameter(Strip(n), ParamTypeMap[Strip(ty)], Inner(n, ty)))
  {
    ParseParamOfParts(n, ty);
  }

  /** Where a group's inner text stands among the template's inner texts. */
  lemma {:induction false} InnerIndex(t: seq<Segment>, i: nat) returns (j: nat)
    requires i < |t| && t[i].Param?
    ensures j < |Inners(t)| && Inners(t)[j] == Inner(t[i].rawName, t[i].rawType)
  {
    if i == 0 {
      j := 0;
    } else {
      assert t[1..][i - 1] == t[i];
      var j' := InnerIndex(t[1..], i - 1);
      j := if t[0].Param? then j' + 1 else j';
    }
  }

  /** Before any replacement the path is the rendered template. */
  lemma {:induction false} RenderWithNone(t: seq<Segment>)
    ensures RenderWith(t, {}) == Render(t)
  {
    if t != [] {
      RenderWithNone(t[1..]);
    }
  }

  /** After every group's replacement the path is the expected format. */
  lemma {:induction false} RenderWithAll(t: seq<Segment>, done: set<string>)
    requires forall i :: 0 <= i < |t| && t[i].Param? ==> Inner(t[i].rawName, t[i].rawType) in done
    ensures RenderWith(t, done) == Format(t)
  {
    if t != [] {
      assert forall i :: 0 <= i < |t| - 1 ==> t[1..][i] == t[i + 1];
      RenderWithAll(t[1..], done);
      if t[0].Param? {
        assert Inner(t[0].rawName, t[0].rawType) in done;
      }
    }
  }

  /** A pattern cannot start at a character it does not hold. */
  lemma ReplaceAfterChar(c: char, q: string, x: string, y: string)
    requires x != [] && c !in x
    ensures ReplaceAll([c] + q, x, y) == [c] + ReplaceAll(q, x, y)
  {
    var s := [c] + q;
    assert x[0] != c && s[0] == c;
    assert s[1..] == q;
  }

  /** Replacing inside braces leaves the braces and splits at them. */
  lemma ReplaceGroup(body: string, rest: string, x: string, y: string)
    requires x != [] && '{' !in x && '}' !in x
    ensures ReplaceAll("{" + body + "}" + rest, x, y)
      == "{" + ReplaceAll(body, x, y) + "}" + ReplaceAll(rest, x, y)
  {
    var q := body + ['}'] + rest;
    var rb, rr := ReplaceAll(body, x, y), ReplaceAll(rest, x, y);
    calc {
      ReplaceAll("{" + body + "}" + rest, x, y);
      { assert "{" + body + "}" + rest == ['{'] + q; }
      ReplaceAll(['{'] + q, x, y);
      { ReplaceAfterChar('{', q, x, y); }
      ['{'] + ReplaceAll(q, x, y);
      { ReplaceSplitAt(body, '}', rest, x, y); }
      ['{'] + (rb + ['}'] + rr);
      "{" + rb + "}" + rr;
    }
  }

  /** Replacing `x` by `y` inside one group: a group already written
      `{name}` keeps it, a group whose inner text is `x` becomes `{y}`, and
      any other group is untouched. */
  lemma ReplaceBody(n: string, ty: string, done: set<string>, x: string, y: string)
    requires SegmentOk(Param(n, ty)) && ':' in x
    requires Inner(n, ty) == x ==> Strip(n) == y
    requires Inner(n, ty) == x || !IsSubstring(x, Inner(n, ty))
    ensures ReplaceAll(Body(n, ty, done), x, y) == Body(n, ty, done + {x})
  {
    var g := Inner(n, ty);
    if g in done {
      if ':' in Strip(n) {
        StripChars(n, ':');
      }
      AbsentByChar(x, Strip(n), ':');
      ReplaceAbsent(Strip(n), x, y);
    } else if g == x {
      ReplaceWhole(x, y);
    } else {
      ReplaceAbsent(g, x, y);
    }
  }

  /** Every group whose inner text is `x` has the name `y`, and `x` occurs
      in no other group's inner text. */
  predicate Agrees(u: seq<Segment>, x: string, y: string)
  {
    forall i :: 0 <= i < |u| && u[i].Param? ==>
      var g := Inner(u[i].rawName, u[i].rawType);
      (g == x ==> Strip(u[i].rawName) == y) && (g == x || !IsSubstring(x, g))
  }

  /** One pass of `path_format.replace(param, param_name)` moves the groups
      with inner text `x` from `{name:type}` to `{name}` and leaves the rest
      of the path alone. */
  lemma {:induction false} ReplaceStep(u: seq<Segment>, done: set<string>, x: string, y: string)
    requires SegmentsOk(u) && LiteralsMerged(u)
    requires ':' in x && '{' !in x && '}' !in x && Agrees(u, x, y)
    ensures ReplaceAll(RenderWith(u, done), x, y) == RenderWith(u, done + {x})
  {
    if u != [] {
      var v := u[1..];
      assert forall i :: 0 <= i < |v| ==> v[i] == u[i + 1];
      ReplaceStep(v, done, x, y);
      var rest := RenderWith(v, done);
      assert SegmentOk(u[0]);
      match u[0]
      case Literal(text) =>
        if v != [] {
          assert v[0].Param?;
        }
        ReplaceLiteral(text, rest, x, y);
      case Param(n, ty) =>
        ReplaceGroup(Body(n, ty, done), rest, x, y);
        ReplaceBody(n, ty, done, x, y);
    }
  }

  /** Every inner text of a well-formed template holds a colon and no brace. */
  lemma {:induction false} InnersBraceFree(t: seq<Segment>, k: nat)
    requires SegmentsOk(t)
    requires k < |Inners(t)|
    ensures ':' in Inners(t)[k] && '{' !in Inners(t)[k] && '}' !in Inners(t)[k]
  {
    assert forall i :: 0 <= i < |t| - 1 ==> t[1..][i] == t[i + 1];
    assert SegmentOk(t[0]);
    match t[0]
    case Literal(_) =>
      InnersBraceFree(t[1..], k);
    case Param(n, ty) =>
      if k == 0 {
        assert Inners(t)[0] == n + ":" + ty;
      } else {
        InnersBraceFree(t[1..], k - 1);
      }
  }

  /** The set of a sequence's elements. */
  function Elements(ms: seq<string>): (d: set<string>)
    ensures forall m :: m in d <==> m in ms
  {
    set m | m in ms
  }

  /** Every group with the `k`-th inner text has the `k`-th record's name,
      and the `k`-th inner text occurs in no other group's inner text. */
  lemma GroupsAgree(t: seq<Segment>, k: nat)
    requires WellFormed(t) && k < |Inners(t)|
    ensures Agrees(t, Inners(t)[k], Parameters(t)[k].name)
  {
    var x := Inners(t)[k];
    ParamRecords(t, k);
    forall i | 0 <= i < |t| && t[i].Param?
      ensures var g := Inner(t[i].rawName, t[i].rawType);
        (g == x ==> Strip(t[i].rawName) == Parameters(t)[k].name) && (g == x || !IsSubstring(x, g))
    {
      var j := InnerIndex(t, i);
      assert SegmentOk(t[i]);
      ParseParamOfParts(t[i].rawName, t[i].rawType);
    }
  }

  /** Once every group is replaced, the path is the expected format. */
  lemma RenderWithEvery(t: seq<Segment>)
    ensures RenderWith(t, Elements(Inners(t))) == Format(t)
  {
    forall i | 0 <= i < |t| && t[i].Param?
      ensures Inner(t[i].rawName, t[i].rawType) in Elements(Inners(t))
    {
      var j := InnerIndex(t, i);
    }
    RenderWithAll(t, Elements(Inners(t)));
  }

  /** The `k`-th replacement writes the `k`-th group's occurrences `{name}`. */
  lemma ReplaceNext(t: seq<Segment>, k: nat)
    requires WellFormed(t) && k < |Inners(t)|
    ensures && Inners(t)[k] != []
            && ReplaceAll(RenderWith(t, Elements(Inners(t)[..k])), Inners(t)[k], Parameters(t)[k].name)
               == RenderWith(t, Elements(Inners(t)[..k + 1]))
  {
    var ms := Inners(t);
    InnersBraceFree(t, k);
    GroupsAgree(t, k);
    ReplaceStep(t, Elements(ms[..k]), ms[k], Parameters(t)[k].name);
    ElementsSnoc(ms, k);
  }

  /** One turn of parse_path's loop over a rendered template: the `k`-th
      group's record is appended and its groups are written `{name}`. */
  lemma ParseFoldStep(t: seq<Segment>, k: nat)
    requires WellFormed(t) && k < |Inners(t)|
    ensures ParseFrom(RenderWith(t, Elements(Inners(t)[..k])), Parameters(t)[..k], Inners(t)[k..])
      == ParseFrom(RenderWith(t, Elements(Inners(t)[..k + 1])), Parameters(t)[..k + 1], Inners(t)[k + 1..])
  {
    ParamRecords(t, k);
    ReplaceNext(t, k);
    ParseFromAdvance(RenderWith(t, Elements(Inners(t)[..k])), RenderWith(t, Elements(Inners(t)[..k + 1])),
                     Parameters(t), Inners(t), k);
  }

  /** One turn of the parsing fold at position `k`, stated over plain values. */
  lemma ParseFromAdvance(f: string, f': string, ps: seq<PathParameter>, ms: seq<string>, k: nat)
    requires k < |ms| && k < |ps| && ms[k] != [] && ParseParam(ms[k]) == Ok(ps[k])
    requires ReplaceAll(f, ms[k], ps[k].name) == f'
    ensures ParseFrom(f, ps[..k], ms[k..]) == ParseFrom(f', ps[..k + 1], ms[k + 1..])
  {
    assert ps[..k] + [ps[k]] == ps[..k + 1];
    assert ms[k..][0] == ms[k] && ms[k..][1..] == ms[k + 1..];
    ParseFromStep(f, ps[..k], ms[k..], ps[k]);
  }

  /** Taking one more element adds it to the set. */
  lemma ElementsSnoc(ms: seq<string>, k: nat)
    requires k < |ms|
    ensures Elements(ms[..k]) + {ms[k]} == Elements(ms[..k + 1])
  {
    assert ms[..k + 1] == ms[..k] + [ms[k]];
  }

  /** The loop of parse_path from the `k`-th group on, over a rendered
      template, ends with the expected format and records. */
  lemma {:induction false} ParseFold(t: seq<Segment>, k: nat)
    requires WellFormed(t) && k <= |Inners(t)|
    ensures ParseFrom(RenderWith(t, Elements(Inners(t)[..k])), Parameters(t)[..k], Inners(t)[k..])
      == Ok((Format(t), Parameters(t)))
    decreases |Inners(t)| - k
  {
    var ms := Inners(t);
    var ps := Parameters(t);
    if k == |ms| {
      RenderWithEvery(t);
      assert ms[..k] == ms;
      assert ps[..k] == ps;
      assert ms[k..] == [];
    } else {
      ParseFoldStep(t, k);
      ParseFold(t, k + 1);
    }
  }

  /** The round trip: parse_path on a rendered well-formed template finds the
      template's parameters, in order, each with its stripped name, its type
      and its raw inner text, and its format writes every group `{name}`. */
  lemma ParseRendered(t: seq<Segment>)
    requires WellFormed(t)
    ensures Parsed(Render(t)) == Ok(ParsedPath(Render(t), Format(t), Parameters(t)))
  {
    MatchesRender(t);
    ParseFold(t, 0);
    assert Elements(Inners(t)[..0]) == {};
    RenderWithNone(t);
  }

  // ---------------------------------------------------------------------
  // Worked examples.
  // ---------------------------------------------------------------------

  /** `path_format.replace(param, name)` rewrites every copy of a group's
      text, not only the group: when the literal text before `{n:ty}` is
      `n:ty` itself, that copy becomes the name too. (Such a literal holds a
      colon, which `SegmentOk` excludes from the round trip.) */
  lemma LiteralCopyOfGroupReplaced(n: string, ty: string)
    requires SegmentOk(Param(n, ty))
    ensures var g := n + ":" + ty;
      Parsed(g + "{" + g + "}")
        == Ok(ParsedPath(g + "{" + g + "}", Strip(n) + "{" + Strip(n) + "}",
                         [PathParameter(Strip(n), ParamTypeMap[Strip(ty)], g)]))
  {
    var g := n + ":" + ty;
    GroupTextBraceFree(n, ty);
    ParsedOneGroup(g, g);
    ParseParamOfParts(n, ty);
    ReplaceCopyAndGroup(g, Strip(n));
  }

  /** The text of a well-formed group has no braces and no newline. */
  lemma GroupTextBraceFree(n: string, ty: string)
    requires SegmentOk(Param(n, ty))
    ensures var g := n + ":" + ty;
      g != [] && '{' !in g && '}' !in g && '\n' !in g
  {
    assert (n + ":" + ty)[|n|] == ':';
  }

  /** Replacing `x` in `x{x}` replaces both copies. */
  lemma ReplaceCopyAndGroup(x: string, y: string)
    requires x != [] && '{' !in x && '}' !in x
    ensures ReplaceAll(x + "{" + x + "}", x, y) == y + "{" + y + "}"
  {
    ReplaceWhole(x, y);
    ReplaceSplitAt(x, '}', "", x, y);
    assert x + "}" == x + ['}'] + "";
    ReplaceSplitAt(x, '{', x + "}", x, y);
    assert x + "{" + x + "}" == x + ['{'] + (x + "}");
  }

  /** A path with one group after literal text parses to the group's
      record, with the group written `{name}` in the format. */
  lemma ParsedOneParam(prefix: string, n: string, ty: string)
    requires SegmentOk(Literal(prefix)) && SegmentOk(Param(n, ty))
    ensures Parsed(prefix + "{" + n + ":" + ty + "}")
      == Ok(ParsedPath(prefix + "{" + n + ":" + ty + "}", prefix + "{" + Strip(n) + "}",
                       [PathParameter(Strip(n), ParamTypeMap[Strip(ty)], n + ":" + ty)]))
  {
    var t := [Literal(prefix), Param(n, ty)];
    assert t[1..][1..] == [];
    assert SegmentOk(t[0]) && SegmentOk(t[1]);
    assert Inners(t) == [n + ":" + ty];
    assert Render(t) == prefix + "{" + n + ":" + ty + "}" by {
      assert Render(t[1..]) == "{" + Inner(n, ty) + "}";
    }
    assert Format(t) == prefix + "{" + Strip(n) + "}" by {
      assert Format(t[1..]) == "{" + Strip(n) + "}";
    }
    assert Parameters(t[1..]) == [PathParameter(Strip(n), ParamTypeMap[Strip(ty)], n + ":" + ty)];
    ParseRendered(t);
  }

  /** The group `{id:int}` is well formed, with name `id` and type `int`. */
  lemma IdIntGroup()
    ensures SegmentOk(Param("id", "int")) && Strip("id") == "id" && ParamTypeMap[Strip("int")] == IntType
  {
    StripUnpadded("id");
    StripUnpadded("int");
  }

  /** `/users/{id:int}` has the format `/users/{id}` and one `int` parameter. */
  lemma UserIdPath()
    ensures Parsed("/users/{id:int}")
      == Ok(ParsedPath("/users/{id:int}", "/users/{id}", [PathParameter("id", IntType, "id:int")]))
  {
    IdIntGroup();
    UserIdText();
    ParsedOneParam("/users/", "id", "int");
  }

  /** The pieces of `/users/{id:int}` and of `/users/{id}`. */
  lemma UserIdText()
    ensures "/users/" + "{" + "id" + ":" + "int" + "}" == "/users/{id:int}"
    ensures "/users/" + "{" + "id" + "}" == "/users/{id}"
    ensures "id" + ":" + "int" == "id:int"
  {
  }

  /** `{}` is a group without a colon. */
  lemma EmptyGroupPath()
    ensures Parsed("/users/{}") == Err(MissingParameterType(""))
  {
    ParsedOneGroup("/users/", "");
    assert "/users/" + "{" + "" + "}" == "/users/{}";
  }
}
