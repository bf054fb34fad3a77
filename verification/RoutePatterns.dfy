/**
 Route patterns: how "/users/{id}" is compiled, what it matches, and how to write a path for it.

 A compiled pattern is a list of segments, each a literal text or a named parameter. Its shape is
 the pattern with the names left out, which is what the router compares to find duplicates.

 Compiling is inverted by writing the segments out, matching by rendering a path from values, and
 two patterns have the same shape exactly when they match the same paths.
 */
module RoutePatterns {
  import opened Common
  import opened Strings
  import opened UriText

  datatype Segment = Static(text: string) | Parameter(name: string)

  type Handler = nat

  datatype Route = Route(
    pattern: string,
    shape: string,
    segments: seq<Segment>,
    staticCount: nat,
    methods: map<nat, Handler>)

  datatype RouteError =
    | BadPath | InvalidSegment | InvalidName | DuplicateName | InvalidPattern | DuplicateRoute | ConflictingNames

  type Parameters = map<string, string>

  // ----- compiling -----

  predicate IsAlpha(c: char) { 'a' <= c <= 'z' || 'A' <= c <= 'Z' }

  predicate IsNameChar(c: char) { IsAlpha(c) || '0' <= c <= '9' || c == '_' }

  predicate IsValidName(name: string) {
    name != "" && (IsAlpha(name[0]) || name[0] == '_') && forall c :: c in name ==> IsNameChar(c)
  }

  /** A parameter name is a non-empty run of ASCII letters, digits and underscores that does not begin with a digit. */
  lemma NameIff(name: string)
    ensures IsValidName(name) <==>
              && name != "" && name[0] !in "0123456789"
              && forall c <- name ::
                   c in "ABCDEFGHIJKLMNOPQRSTUVWXYZ" || c in "abcdefghijklmnopqrstuvwxyz" || c in "0123456789_"
  {
    forall c: char
      ensures c in "0123456789" <==> '0' <= c <= '9'
      ensures IsNameChar(c) <==>
                c in "ABCDEFGHIJKLMNOPQRSTUVWXYZ" || c in "abcdefghijklmnopqrstuvwxyz" || c in "0123456789_"
    {
      DigitIn(c);
      LetterIn(c);
    }
    assert name != "" ==> name[0] in name;
    assert name != "" && IsNameChar(name[0]) && !('0' <= name[0] <= '9') ==> IsAlpha(name[0]) || name[0] == '_';
  }

  lemma DigitIn(c: char)
    ensures c in "0123456789" <==> '0' <= c <= '9'
    ensures c in "0123456789_" <==> '0' <= c <= '9' || c == '_'
  {
    CharIn("0123456789", '0', c);
    assert "0123456789_" == "0123456789" + "_";
  }

  lemma LetterIn(c: char)
    ensures c in "ABCDEFGHIJKLMNOPQRSTUVWXYZ" <==> 'A' <= c <= 'Z'
    ensures c in "abcdefghijklmnopqrstuvwxyz" <==> 'a' <= c <= 'z'
  {
    CharIn("ABCDEFGHIJKLMNOPQRSTUVWXYZ", 'A', c);
    CharIn("abcdefghijklmnopqrstuvwxyz", 'a', c);
  }

  lemma CharIn(s: string, first: char, c: char)
    requires |s| < 100 && first as int < 1000 && forall i :: 0 <= i < |s| ==> s[i] as int == first as int + i
    ensures c in s <==> first as int <= c as int < first as int + |s|
  {
    if first as int <= c as int < first as int + |s| { assert s[c as int - first as int] == c; }
  }

  /** What one raw segment becomes, given the parameter names before it. */
  function CompileSegment(raw: string, names: set<string>): Result<Segment, RouteError> {
    var begins := raw != "" && raw[0] == '{';
    var ends := raw != "" && raw[|raw| - 1] == '}';
    if begins || ends then
      if !begins || !ends || |raw| < 3 || '{' in raw[1..] || IndexOf(raw, '}') != |raw| - 1 then Err(InvalidSegment)
      else
        var name := raw[1..|raw| - 1];
        if !IsValidName(name) then Err(InvalidName)
        else if name in names then Err(DuplicateName)
        else Ok(Parameter(name))
    else if '{' in raw || '}' in raw then Err(InvalidPattern)
    else Ok(Static(raw))
  }

  function NamesWith(names: set<string>, s: Segment): set<string> {
    if s.Parameter? then names + {s.name} else names
  }

  function CompileAll(raw: seq<string>, names: set<string>): Result<seq<Segment>, RouteError> {
    if raw == [] then Ok([])
    else
      match CompileSegment(raw[0], names)
      case Err(e) => Err(e)
      case Ok(s) => Onto([s], CompileAll(raw[1..], NamesWith(names, s)))
  }

  function Onto(front: seq<Segment>, rest: Result<seq<Segment>, RouteError>): Result<seq<Segment>, RouteError> {
    match rest case Ok(back) => Ok(front + back) case Err(e) => Err(e)
  }

  function SegmentText(s: Segment): string {
    match s case Static(text) => text case Parameter(name) => "{" + name + "}"
  }

  function ShapeText(s: Segment): string {
    match s case Static(text) => text case Parameter(_) => "{}"
  }

  function Texts(segments: seq<Segment>): (r: seq<string>)
    ensures |r| == |segments|
  {
    if segments == [] then [] else [SegmentText(segments[0])] + Texts(segments[1..])
  }

  function ShapeTexts(segments: seq<Segment>): (r: seq<string>)
    ensures |r| == |segments| && forall i :: 0 <= i < |r| ==> r[i] == ShapeText(segments[i])
  {
    if segments == [] then [] else [ShapeText(segments[0])] + ShapeTexts(segments[1..])
  }

  function StaticCount(segments: seq<Segment>): nat {
    if segments == [] then 0 else (if segments[0].Static? then 1 else 0) + StaticCount(segments[1..])
  }

  function ShapeOf(segments: seq<Segment>): string { JoinPath(ShapeTexts(segments)) }

  function Compile(path: string): Result<Route, RouteError> {
    match CompileAll(SplitPath(path), {})
    case Err(e) => Err(e)
    case Ok(segments) => Ok(Route(path, ShapeOf(segments), segments, StaticCount(segments), map[]))
  }

  /** The shape as it is built up: every segment after its own '/'. */
  function Slashed(parts: seq<string>): string {
    if parts == [] then "" else "/" + parts[0] + Slashed(parts[1..])
  }

  lemma {:induction false} SlashedIsJoin(parts: seq<string>)
    requires parts != []
    ensures Slashed(parts) == "/" + Join(parts, '/')
  {
    if |parts| > 1 {
      SlashedIsJoin(parts[1..]);
      assert "/" + parts[0] + ("/" + Join(parts[1..], '/')) == "/" + (parts[0] + ['/'] + Join(parts[1..], '/'));
    } else {
      assert parts[1..] == [] && "/" + parts[0] + "" == "/" + parts[0];
    }
  }

  lemma {:induction false} SlashedAdded(parts: seq<string>, p: string)
    ensures Slashed(parts + [p]) == Slashed(parts) + ("/" + p)
  {
    var all := parts + [p];
    if parts == [] {
      assert all == [p] && [p][1..] == [];
      assert "/" + p + "" == "" + ("/" + p);
    } else {
      SlashedAdded(parts[1..], p);
      assert all[0] == parts[0] && all[1..] == parts[1..] + [p];
      var head, tail := "/" + parts[0], Slashed(parts[1..]);
      assert head + (tail + ("/" + p)) == head + tail + ("/" + p);
    }
  }

  lemma SegmentAdded(segments: seq<Segment>, s: Segment)
    ensures Slashed(ShapeTexts(segments + [s])) == Slashed(ShapeTexts(segments)) + ("/" + ShapeText(s))
    ensures StaticCount(segments + [s]) == StaticCount(segments) + if s.Static? then 1 else 0
  {
    SlashedAdded(ShapeTexts(segments), ShapeText(s));
    assert ShapeTexts(segments + [s]) == ShapeTexts(segments) + [ShapeText(s)];
    CountAdded(segments, s);
  }

  lemma {:induction false} CountAdded(segments: seq<Segment>, s: Segment)
    ensures StaticCount(segments + [s]) == StaticCount(segments) + if s.Static? then 1 else 0
  {
    var all := segments + [s];
    if segments == [] {
      assert all == [s] && [s][1..] == [];
    } else {
      CountAdded(segments[1..], s);
      assert all[0] == segments[0] && all[1..] == segments[1..] + [s];
    }
  }

  lemma OntoOnto(a: seq<Segment>, s: Segment, rest: Result<seq<Segment>, RouteError>)
    ensures Onto(a, Onto([s], rest)) == Onto(a + [s], rest)
  {
    match rest { case Ok(back) => assert a + ([s] + back) == a + [s] + back; case Err(_) => }
  }

  /** compile_pattern. */
  method CompilePattern(path: string) returns (r: Result<Route, RouteError>)
    ensures r == Compile(path)
  {
    var rawSegments := SplitPathSegments(path);
    var names: set<string> := {};
    var shape := "";
    var segments: seq<Segment> := [];
    var staticCount := 0;
    assert rawSegments[0..] == rawSegments;
    match CompileAll(rawSegments, {}) { case Ok(back) => assert [] + back == back; case Err(_) => }
    hide CompileSegment, SplitPath;
    for i := 0 to |rawSegments|
      invariant CompileAll(rawSegments, {}) == Onto(segments, CompileAll(rawSegments[i..], names))
      invariant shape == Slashed(ShapeTexts(segments)) && staticCount == StaticCount(segments) && |segments| == i
    {
      assert rawSegments[i..][0] == rawSegments[i] && rawSegments[i..][1..] == rawSegments[i + 1..];
      var compiled := CompileSegment(rawSegments[i], names);
      if compiled.Err? { return Err(compiled.error); }
      var s := compiled.value;
      OntoOnto(segments, s, CompileAll(rawSegments[i + 1..], NamesWith(names, s)));
      SegmentAdded(segments, s);
      if s.Parameter? {
        names := names + {s.name};
        shape := shape + "/{}";
      } else {
        staticCount := staticCount + 1;
        shape := shape + ("/" + s.text);
      }
      segments := segments + [s];
    }
    assert rawSegments[|rawSegments|..] == [] && segments + [] == segments;
    if segments != [] { SlashedIsJoin(ShapeTexts(segments)); }
    return Ok(Route(path, if shape == "" then "/" else shape, segments, staticCount, map[]));
  }

  // ----- what compiling accepts -----

  predicate SegmentOk(s: Segment, names: set<string>) {
    match s
    case Static(text) => '{' !in text && '}' !in text
    case Parameter(name) => IsValidName(name) && name !in names
  }

  predicate SegmentsOk(segments: seq<Segment>, names: set<string>) {
    segments == [] || (SegmentOk(segments[0], names) && SegmentsOk(segments[1..], NamesWith(names, segments[0])))
  }

  /** Braces only around valid names, each name once, no '/' inside a segment. */
  predicate WellFormed(segments: seq<Segment>) {
    SegmentsOk(segments, {}) && Free(Texts(segments), '/') && Texts(segments) != [""]
  }

  lemma CompileSegmentIs(raw: string, names: set<string>, s: Segment)
    ensures CompileSegment(raw, names) == Ok(s) <==> SegmentText(s) == raw && SegmentOk(s, names)
  {
    if SegmentText(s) == raw && SegmentOk(s, names) {
      if s.Parameter? {
        assert raw == "{" + s.name + ['}'] + "";
        IndexPast("{" + s.name, '}', "");
        assert raw[1..|raw| - 1] == s.name && raw[1..] == s.name + "}";
      } else if raw != "" {
        assert raw[0] in raw && raw[|raw| - 1] in raw;
      }
    }
    if CompileSegment(raw, names) == Ok(s) && s.Parameter? {
      assert raw == "{" + raw[1..|raw| - 1] + "}";
    }
  }

  lemma {:induction false} CompileAllIs(raw: seq<string>, names: set<string>, segments: seq<Segment>)
    ensures CompileAll(raw, names) == Ok(segments) <==> Texts(segments) == raw && SegmentsOk(segments, names)
  {
    hide CompileSegment, SegmentText, SegmentOk;
    if raw != [] && segments != [] {
      var s := segments[0];
      CompileSegmentIs(raw[0], names, s);
      CompileAllIs(raw[1..], NamesWith(names, s), segments[1..]);
      assert raw == [raw[0]] + raw[1..] && segments == [s] + segments[1..];
      if CompileAll(raw, names) == Ok(segments) {
        var c := CompileSegment(raw[0], names).value;
        assert segments == [c] + CompileAll(raw[1..], NamesWith(names, c)).value;
        assert c == s && segments[1..] == CompileAll(raw[1..], NamesWith(names, s)).value;
      }
      assert Texts(segments) == raw ==> Texts(segments)[0] == raw[0] && Texts(segments)[1..] == raw[1..];
    }
  }

  /** Compiling inverts writing a pattern down: it accepts exactly the texts of well-formed segments. */
  lemma CompileInverts(path: string, segments: seq<Segment>)
    requires path != "" && path[0] == '/'
    ensures Compile(path).Ok? && Compile(path).value.segments == segments <==>
              WellFormed(segments) && JoinPath(Texts(segments)) == path
  {
    CompileAllIs(SplitPath(path), {}, segments);
    SplitInvertsJoin(path, Texts(segments));
    SplitInvertsJoin(path, SplitPath(path));
  }

  // ----- matching -----

  /** Whether one segment of a path is one the pattern wants there. */
  predicate SegmentMatches(s: Segment, actual: string) {
    match s
    case Static(text) => actual == text
    case Parameter(_) => actual != "" && Decode(actual, false).Some?
  }

  function Bound(s: Segment, actual: string, parameters: Parameters): Parameters
    requires SegmentMatches(s, actual)
  {
    if s.Parameter? && s.name !in parameters then parameters[s.name := Decode(actual, false).value] else parameters
  }

  function MatchAll(segments: seq<Segment>, actual: seq<string>, parameters: Parameters): Option<Parameters>
    requires |segments| == |actual|
  {
    if segments == [] then Some(parameters)
    else if !SegmentMatches(segments[0], actual[0]) then None
    else MatchAll(segments[1..], actual[1..], Bound(segments[0], actual[0], parameters))
  }

  function Match(segments: seq<Segment>, path: string): Option<Parameters> {
    if |SplitPath(path)| != |segments| then None else MatchAll(segments, SplitPath(path), map[])
  }

  /** match_pattern. */
  method MatchPattern(route: Route, path: string) returns (r: Option<Parameters>)
    ensures r == Match(route.segments, path)
  {
    var pathSegments := SplitPathSegments(path);
    if |pathSegments| != |route.segments| { return None; }
    var parameters: Parameters := map[];
    assert route.segments[0..] == route.segments && pathSegments[0..] == pathSegments;
    hide Decode, SplitPath;
    for index := 0 to |route.segments|
      invariant Match(route.segments, path) == MatchAll(route.segments[index..], pathSegments[index..], parameters)
    {
      var expected, actual := route.segments[index], pathSegments[index];
      assert route.segments[index..][1..] == route.segments[index + 1..];
      assert pathSegments[index..][1..] == pathSegments[index + 1..];
      if expected.Static? {
        if expected.text != actual { return None; }
        continue;
      }
      if actual == "" { return None; }
      var decoded := DecodeComponent(actual, false);
      if decoded.None? { return None; }
      if expected.name !in parameters { parameters := parameters[expected.name := decoded.value]; }
    }
    return Some(parameters);
  }

  predicate AllMatch(segments: seq<Segment>, actual: seq<string>) {
    |segments| == |actual| && forall i :: 0 <= i < |segments| ==> SegmentMatches(segments[i], actual[i])
  }

  lemma {:induction false} MatchAllIff(segments: seq<Segment>, actual: seq<string>, parameters: Parameters)
    requires |segments| == |actual|
    ensures MatchAll(segments, actual, parameters).Some? <==> AllMatch(segments, actual)
  {
    hide SegmentMatches;
    if segments != [] && SegmentMatches(segments[0], actual[0]) {
      MatchAllIff(segments[1..], actual[1..], Bound(segments[0], actual[0], parameters));
      if AllMatch(segments[1..], actual[1..]) {
        forall i | 0 < i < |segments| ensures SegmentMatches(segments[i], actual[i]) {
          assert segments[1..][i - 1] == segments[i] && actual[1..][i - 1] == actual[i];
        }
      }
    }
  }

  lemma MatchIff(segments: seq<Segment>, path: string)
    ensures Match(segments, path).Some? <==> AllMatch(segments, SplitPath(path))
  {
    if |SplitPath(path)| == |segments| { MatchAllIff(segments, SplitPath(path), map[]); }
  }

  // ----- reverse routing -----

  function NamesOf(segments: seq<Segment>): set<string> {
    set i | 0 <= i < |segments| && segments[i].Parameter? :: segments[i].name
  }

  /** Every parameter of the pattern has a non-empty value. */
  predicate ValuesFor(segments: seq<Segment>, values: Parameters) {
    forall i :: 0 <= i < |segments| && segments[i].Parameter? ==>
      var n := segments[i].name; n in values && values[n] != "" && IsOctets(values[n])
  }

  function RenderSegment(s: Segment, values: Parameters): string
    requires s.Parameter? ==> s.name in values && IsOctets(values[s.name])
  {
    match s case Static(text) => text case Parameter(name) => Encode(values[name])
  }

  function RenderAll(segments: seq<Segment>, values: Parameters): (r: seq<string>)
    requires ValuesFor(segments, values)
    ensures |r| == |segments|
  {
    seq(|segments|, i requires 0 <= i < |segments| => RenderSegment(segments[i], values))
  }

  function Render(segments: seq<Segment>, values: Parameters): string
    requires ValuesFor(segments, values)
  {
    JoinPath(RenderAll(segments, values))
  }

  lemma {:induction false} TextsAt(segments: seq<Segment>, i: nat)
    requires i < |segments|
    ensures Texts(segments)[i] == SegmentText(segments[i])
  {
    if i > 0 { TextsAt(segments[1..], i - 1); }
  }

  lemma RenderSplits(segments: seq<Segment>, values: Parameters)
    requires WellFormed(segments) && ValuesFor(segments, values)
    ensures SplitPath(Render(segments, values)) == RenderAll(segments, values)
  {
    var parts := RenderAll(segments, values);
    forall p | p in parts ensures '/' !in p && (|segments| == 1 ==> p != "") {
      var i :| 0 <= i < |parts| && parts[i] == p;
      TextsAt(segments, i);
      assert Texts(segments)[i] in Texts(segments);
      if segments[i].Parameter? {
        EncodeIsSafe(values[segments[i].name]);
        assert !IsSafe('/');
      } else if |segments| == 1 {
        assert Texts(segments) == [segments[0].text];
      }
    }
    if |parts| == 1 { assert parts[0] in parts; }
    SplitInvertsJoin(JoinPath(parts), parts);
  }

  lemma RenderedMatches(s: Segment, values: Parameters)
    requires s.Parameter? ==> s.name in values && values[s.name] != "" && IsOctets(values[s.name])
    ensures SegmentMatches(s, RenderSegment(s, values))
    ensures s.Parameter? ==> Decode(RenderSegment(s, values), false) == Some(values[s.name])
  {
    if s.Parameter? {
      DecodeEncode(values[s.name], false);
      EncodeIsSafe(values[s.name]);
    }
  }

  lemma {:induction false} NamesAreNew(segments: seq<Segment>, names: set<string>)
    requires SegmentsOk(segments, names)
    ensures NamesOf(segments) !! names
  {
    if segments != [] {
      NamesAreNew(segments[1..], NamesWith(names, segments[0]));
      NamesOfCons(segments);
    }
  }

  lemma NamesOfCons(segments: seq<Segment>)
    requires segments != []
    ensures NamesOf(segments) == NamesWith(NamesOf(segments[1..]), segments[0])
  {
    var tail := segments[1..];
    forall n ensures n in NamesOf(segments) <==> n in NamesWith(NamesOf(tail), segments[0]) {
      if n in NamesOf(segments) {
        var i :| 0 <= i < |segments| && segments[i].Parameter? && segments[i].name == n;
        if i > 0 { assert tail[i - 1] == segments[i]; }
      }
      if n in NamesOf(tail) {
        var i :| 0 <= i < |tail| && tail[i].Parameter? && tail[i].name == n;
        assert segments[i + 1] == tail[i];
      }
    }
  }

  function Chosen(segments: seq<Segment>, values: Parameters): Parameters {
    map n | n in NamesOf(segments) && n in values :: values[n]
  }

  lemma BoundThenChosen(segments: seq<Segment>, values: Parameters, parameters: Parameters, bound: Parameters)
    requires segments != [] && SegmentsOk(segments, parameters.Keys) && ValuesFor(segments, values)
    requires var s := segments[0];
             bound == if s.Parameter? then parameters[s.name := values[s.name]] else parameters
    ensures SegmentsOk(segments[1..], bound.Keys) && ValuesFor(segments[1..], values)
    ensures bound + Chosen(segments[1..], values) == parameters + Chosen(segments, values)
  {
    var s := segments[0];
    assert bound.Keys == NamesWith(parameters.Keys, s);
    NamesAreNew(segments[1..], bound.Keys);
    NamesOfCons(segments);
    hide NamesOf;
  }

  lemma {:induction false} RenderMatches(segments: seq<Segment>, values: Parameters, parameters: Parameters)
    requires SegmentsOk(segments, parameters.Keys) && ValuesFor(segments, values)
    ensures MatchAll(segments, RenderAll(segments, values), parameters) == Some(parameters + Chosen(segments, values))
    decreases |segments|
  {
    hide Chosen, SegmentMatches, RenderSegment;
    var actual := RenderAll(segments, values);
    if segments == [] {
      NothingChosen(values);
      assert parameters + map[] == parameters;
    } else {
      var s := segments[0];
      RenderedMatches(s, values);
      assert s.Parameter? ==> s.name !in parameters;
      var bound := Bound(s, actual[0], parameters);
      BoundThenChosen(segments, values, parameters, bound);
      assert actual[1..] == RenderAll(segments[1..], values);
      RenderMatches(segments[1..], values, bound);
    }
  }

  lemma NothingChosen(values: Parameters)
    ensures Chosen([], values) == map[]
  {
    assert NamesOf([]) == {};
  }

  lemma RenderMatchesAll(segments: seq<Segment>, values: Parameters)
    requires WellFormed(segments) && ValuesFor(segments, values)
    ensures Match(segments, Render(segments, values)) == Some(Chosen(segments, values))
  {
    hide SegmentsOk, MatchAll, Chosen;
    RenderSplits(segments, values);
    var none: Parameters := map[];
    assert none.Keys == {};
    RenderMatches(segments, values, none);
    assert none + Chosen(segments, values) == Chosen(segments, values);
  }

  /**
   Reverse routing: a path written for a compiled pattern from any non-empty values, percent-encoded,
   is matched by it and gives back exactly those values.
   */
  lemma ReverseRouting(path: string, values: Parameters)
    requires path != "" && path[0] == '/' && Compile(path).Ok?
    requires ValuesFor(Compile(path).value.segments, values)
    ensures var segments := Compile(path).value.segments;
            Match(segments, Render(segments, values))
            == Some(map n | n in NamesOf(segments) && n in values :: values[n])
    ensures NamesOf(Compile(path).value.segments) <= values.Keys
  {
    var segments := Compile(path).value.segments;
    CompileInverts(path, segments);
    RenderMatchesAll(segments, values);
  }

  // ----- shapes -----

  lemma ShapeTextsOk(segments: seq<Segment>)
    requires WellFormed(segments)
    ensures Free(ShapeTexts(segments), '/') && ShapeTexts(segments) != [""]
  {
    var parts := ShapeTexts(segments);
    forall p | p in parts ensures '/' !in p && (|segments| == 1 ==> p != "") {
      var i :| 0 <= i < |parts| && parts[i] == p;
      TextsAt(segments, i);
      assert Texts(segments)[i] in Texts(segments);
      if |segments| == 1 && segments[0].Static? { assert Texts(segments) == [segments[0].text]; }
    }
    if |parts| == 1 { assert parts[0] in parts; }
  }

  lemma EqualShapes(a: seq<Segment>, b: seq<Segment>)
    requires WellFormed(a) && WellFormed(b)
    ensures ShapeOf(a) == ShapeOf(b) <==> ShapeTexts(a) == ShapeTexts(b)
  {
    ShapeTextsOk(a);
    ShapeTextsOk(b);
    SplitInvertsJoin(ShapeOf(a), ShapeTexts(a));
    SplitInvertsJoin(ShapeOf(b), ShapeTexts(b));
  }

  lemma {:induction false} SegmentOkAt(segments: seq<Segment>, names: set<string>, i: nat)
    requires SegmentsOk(segments, names) && i < |segments|
    ensures SegmentOk(segments[i], {})
  {
    if i > 0 { SegmentOkAt(segments[1..], NamesWith(names, segments[0]), i - 1); }
  }

  /** The same value for every parameter. */
  function Constant(segments: seq<Segment>, value: string): Parameters {
    map n | n in NamesOf(segments) :: value
  }

  lemma ConstantRenders(segments: seq<Segment>, value: string)
    requires WellFormed(segments) && (value == "x" || value == "y")
    ensures ValuesFor(segments, Constant(segments, value))
    ensures var path := Render(segments, Constant(segments, value));
            && Match(segments, path).Some?
            && |SplitPath(path)| == |segments|
            && forall i :: 0 <= i < |segments| ==>
                 SplitPath(path)[i] == if segments[i].Parameter? then value else segments[i].text
  {
    var values := Constant(segments, value);
    forall i | 0 <= i < |segments| && segments[i].Parameter? ensures segments[i].name in values { }
    RenderSplits(segments, values);
    RenderMatchesAll(segments, values);
    assert value[1..] == "" && Encode("") == "";
    assert IsOctets(value) && Encode(value) == value + "" == value;
  }

  // Where the shapes differ, some path of the first is no path of the second.
  lemma DifferentTextTold(a: seq<Segment>, b: seq<Segment>, i: nat)
    requires WellFormed(a) && WellFormed(b) && |a| == |b|
    requires i < |a| && b[i].Static? && ShapeText(a[i]) != ShapeText(b[i])
    ensures exists path :: Match(a, path).Some? && Match(b, path).None?
  {
    var value := if b[i].text == "x" then "y" else "x";
    ConstantRenders(a, value);
    var path := Render(a, Constant(a, value));
    MatchIff(b, path);
    assert !SegmentMatches(b[i], SplitPath(path)[i]);
    assert Match(a, path).Some? && Match(b, path).None?;
  }

  ghost predicate SamePaths(a: seq<Segment>, b: seq<Segment>) {
    forall path :: Match(a, path).Some? <==> Match(b, path).Some?
  }

  lemma SamePathsSameShape(a: seq<Segment>, b: seq<Segment>)
    requires WellFormed(a) && WellFormed(b) && SamePaths(a, b)
    ensures ShapeTexts(a) == ShapeTexts(b)
  {
    ConstantRenders(a, "x");
    var path := Render(a, Constant(a, "x"));
    assert Match(b, path).Some?;
    MatchIff(b, path);
    forall i | 0 <= i < |a| ensures ShapeText(a[i]) == ShapeText(b[i]) {
      if ShapeText(a[i]) != ShapeText(b[i]) {
        if b[i].Static? { DifferentTextTold(a, b, i); } else { DifferentTextTold(b, a, i); }
      }
    }
  }

  lemma SameShapeSamePaths(a: seq<Segment>, b: seq<Segment>)
    requires WellFormed(a) && WellFormed(b) && ShapeTexts(a) == ShapeTexts(b)
    ensures SamePaths(a, b)
  {
    forall path ensures Match(a, path).Some? <==> Match(b, path).Some? {
      var actual := SplitPath(path);
      MatchIff(a, path);
      MatchIff(b, path);
      if |actual| == |a| {
        forall i | 0 <= i < |a| ensures SegmentMatches(a[i], actual[i]) <==> SegmentMatches(b[i], actual[i]) {
          SegmentOkAt(a, {}, i);
          SegmentOkAt(b, {}, i);
          assert ShapeTexts(a)[i] == ShapeTexts(b)[i];
        }
      }
    }
  }

  /** Two compiled patterns have the same shape exactly when they match the same paths. */
  lemma ShapeIsMeaning(p: string, q: string)
    requires p != "" && p[0] == '/' && q != "" && q[0] == '/' && Compile(p).Ok? && Compile(q).Ok?
    ensures Compile(p).value.shape == Compile(q).value.shape <==>
              forall path ::
                Match(Compile(p).value.segments, path).Some? <==> Match(Compile(q).value.segments, path).Some?
  {
    var a, b := Compile(p).value.segments, Compile(q).value.segments;
    CompileInverts(p, a);
    CompileInverts(q, b);
    EqualShapes(a, b);
    if ShapeTexts(a) == ShapeTexts(b) { SameShapeSamePaths(a, b); }
    if SamePaths(a, b) { SamePathsSameShape(a, b); }
  }
}
