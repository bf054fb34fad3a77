/**
 The textual parts of a request target: percent escapes (section 2.1 of RFC 3986), path segments
 and query parameters. Strings are strings of octets.

 Each part is read by a loop of the router and specified by a recursive function. An inverse is
 written for each of them: encoding for decoding, joining for splitting, and a rendered query for
 the reading of a parameter. The theorems say that reading inverts writing, and which texts are
 accepted at all.
 */
module UriText {
  import opened Common
  import opened Strings

  // ----- percent escapes -----

  predicate IsHexDigit(c: char) { '0' <= c <= '9' || 'a' <= c <= 'f' || 'A' <= c <= 'F' }

  function HexValue(c: char): (v: int)
    requires IsHexDigit(c)
    ensures 0 <= v < 16
  {
    if '0' <= c <= '9' then c as int - '0' as int
    else if 'a' <= c <= 'f' then c as int - 'a' as int + 10
    else c as int - 'A' as int + 10
  }

  predicate IsEscape(s: string) {
    |s| >= 3 && s[0] == '%' && IsHexDigit(s[1]) && IsHexDigit(s[2])
  }

  function EscapedChar(s: string): char
    requires IsEscape(s)
  {
    (16 * HexValue(s[1]) + HexValue(s[2])) as char
  }

  function After(prefix: string, rest: Option<string>): Option<string> {
    match rest case Some(t) => Some(prefix + t) case None => None
  }

  function Decode(value: string, plusAsSpace: bool): Option<string> {
    if value == "" then Some("")
    else if value[0] == '%' then
      if IsEscape(value) then After([EscapedChar(value)], Decode(value[3..], plusAsSpace)) else None
    else After([if plusAsSpace && value[0] == '+' then ' ' else value[0]], Decode(value[1..], plusAsSpace))
  }

  lemma AfterAfter(a: string, b: string, rest: Option<string>)
    ensures After(a, After(b, rest)) == After(a + b, rest)
  {
    match rest { case Some(t) => assert a + (b + t) == a + b + t; case None => }
  }

  /** decode_component. */
  method DecodeComponent(value: string, plusAsSpace: bool) returns (r: Option<string>)
    ensures r == Decode(value, plusAsSpace)
  {
    var result := "";
    var index := 0;
    assert value[0..] == value;
    AfterAfter("", "", Decode(value, plusAsSpace));
    match Decode(value, plusAsSpace) { case Some(t) => assert "" + t == t; case None => }
    while index < |value|
      invariant 0 <= index <= |value|
      invariant Decode(value, plusAsSpace) == After(result, Decode(value[index..], plusAsSpace))
    {
      var character := value[index];
      ghost var rest := value[index..];
      if character == '%' {
        if index + 2 >= |value| || !IsHexDigit(value[index + 1]) || !IsHexDigit(value[index + 2]) { return None; }
        assert IsEscape(rest) && rest[3..] == value[index + 3..];
        var decoded := (16 * HexValue(value[index + 1]) + HexValue(value[index + 2])) as char;
        AfterAfter(result, [decoded], Decode(rest[3..], plusAsSpace));
        result := result + [decoded];
        index := index + 3;
      } else {
        var decoded := if plusAsSpace && character == '+' then ' ' else character;
        assert rest[1..] == value[index + 1..];
        AfterAfter(result, [decoded], Decode(rest[1..], plusAsSpace));
        result := result + [decoded];
        index := index + 1;
      }
    }
    assert value[index..] == "" && result + "" == result;
    return Some(result);
  }

  /** A component is accepted exactly when every '%' begins an escape. */
  lemma {:induction false} DecodeAccepts(value: string, plusAsSpace: bool)
    ensures Decode(value, plusAsSpace).Some? <==>
              forall i :: 0 <= i < |value| && value[i] == '%' ==> IsEscape(value[i..])
  {
    if value != "" {
      assert value[0..] == value;
      var n := if value[0] == '%' then 3 else 1;
      if n <= |value| && (value[0] == '%' ==> IsEscape(value)) {
        DecodeAccepts(value[n..], plusAsSpace);
        forall i | n <= i < |value| ensures value[n..][i - n] == value[i] && value[n..][i - n..] == value[i..] { }
        if forall i :: 0 <= i < |value| && value[i] == '%' ==> IsEscape(value[i..]) {
          forall i | 0 <= i < |value[n..]| && value[n..][i] == '%' ensures IsEscape(value[n..][i..]) {
            assert value[n..][i] == value[i + n] && value[n..][i..] == value[i + n..];
          }
        }
      }
    }
  }

  predicate IsUnreserved(c: char) {
    'a' <= c <= 'z' || 'A' <= c <= 'Z' || '0' <= c <= '9' || c == '-' || c == '.' || c == '_' || c == '~'
  }

  predicate IsOctets(s: string) { forall i :: 0 <= i < |s| ==> s[i] as int < 256 }

  function HexDigit(n: nat): (c: char)
    requires n < 16
    ensures IsHexDigit(c) && HexValue(c) == n && IsUnreserved(c)
  {
    "0123456789ABCDEF"[n]
  }

  function EncodeChar(c: char): string
    requires c as int < 256
  {
    if IsUnreserved(c) then [c] else ['%', HexDigit(c as int / 16), HexDigit(c as int % 16)]
  }

  function Encode(s: string): string
    requires IsOctets(s)
  {
    if s == "" then "" else EncodeChar(s[0]) + Encode(s[1..])
  }

  lemma DecodeFirst(c: char, rest: string, plusAsSpace: bool)
    requires c as int < 256
    ensures Decode(EncodeChar(c) + rest, plusAsSpace) == After([c], Decode(rest, plusAsSpace))
  {
    var s := EncodeChar(c) + rest;
    assert s[|EncodeChar(c)|..] == rest;
    if !IsUnreserved(c) {
      assert s[0] == '%' && s[1] == HexDigit(c as int / 16) && s[2] == HexDigit(c as int % 16);
    }
  }

  /** Decoding inverts encoding, with or without the query form of the space. */
  lemma {:induction false} DecodeEncode(s: string, plusAsSpace: bool)
    requires IsOctets(s)
    ensures Decode(Encode(s), plusAsSpace) == Some(s)
  {
    if s != "" {
      DecodeEncode(s[1..], plusAsSpace);
      DecodeFirst(s[0], Encode(s[1..]), plusAsSpace);
      hide Decode;
      assert [s[0]] + s[1..] == s;
    }
  }

  // ----- every way to write a component -----

  /** One character of a component: itself, or an escape with digits in either case. */
  datatype Unit = Plain(c: char) | Escape(value: nat, highUpper: bool, lowUpper: bool)

  predicate UnitOk(u: Unit) {
    match u case Plain(c) => c != '%' case Escape(value, _, _) => value < 256
  }

  function Digit(n: nat, upper: bool): char
    requires n < 16
  {
    (if upper then "0123456789ABCDEF" else "0123456789abcdef")[n]
  }

  function UnitText(u: Unit): string
    requires UnitOk(u)
  {
    match u
    case Plain(c) => [c]
    case Escape(value, high, low) => ['%', Digit(value / 16, high), Digit(value % 16, low)]
  }

  function UnitChar(u: Unit, plusAsSpace: bool): char
    requires UnitOk(u)
  {
    match u
    case Plain(c) => if plusAsSpace && c == '+' then ' ' else c
    case Escape(value, _, _) => value as char
  }

  predicate UnitsOk(units: seq<Unit>) { forall u <- units :: UnitOk(u) }

  function UnitsText(units: seq<Unit>): string
    requires UnitsOk(units)
  {
    if units == [] then "" else UnitText(units[0]) + UnitsText(units[1..])
  }

  function UnitsChars(units: seq<Unit>, plusAsSpace: bool): string
    requires UnitsOk(units)
  {
    if units == [] then "" else [UnitChar(units[0], plusAsSpace)] + UnitsChars(units[1..], plusAsSpace)
  }

  lemma DigitIs(n: nat, upper: bool)
    requires n < 16
    ensures IsHexDigit(Digit(n, upper)) && HexValue(Digit(n, upper)) == n
  {
  }

  lemma DigitOf(c: char) returns (n: nat, upper: bool)
    requires IsHexDigit(c)
    ensures n < 16 && n == HexValue(c) && Digit(n, upper) == c
  {
    n, upper := HexValue(c), 'A' <= c <= 'F';
  }

  lemma DecodeUnit(u: Unit, rest: string, plusAsSpace: bool)
    requires UnitOk(u)
    ensures Decode(UnitText(u) + rest, plusAsSpace) == After([UnitChar(u, plusAsSpace)], Decode(rest, plusAsSpace))
  {
    var s := UnitText(u) + rest;
    assert s[|UnitText(u)|..] == rest;
    if u.Escape? {
      DigitIs(u.value / 16, u.highUpper);
      DigitIs(u.value % 16, u.lowUpper);
      assert s[0] == '%' && s[1] == UnitText(u)[1] && s[2] == UnitText(u)[2];
      assert 16 * (u.value / 16) + u.value % 16 == u.value;
    }
  }

  /** However its characters are written, a component decodes to them; '+' is a space in a query alone. */
  lemma {:induction false} DecodeWritten(units: seq<Unit>, plusAsSpace: bool)
    requires UnitsOk(units)
    ensures Decode(UnitsText(units), plusAsSpace) == Some(UnitsChars(units, plusAsSpace))
  {
    if units != [] {
      assert forall u <- units[1..] :: u in units;
      DecodeWritten(units[1..], plusAsSpace);
      DecodeUnit(units[0], UnitsText(units[1..]), plusAsSpace);
      hide Decode, UnitText, UnitChar;
    }
  }

  lemma FirstUnit(value: string, plusAsSpace: bool) returns (u: Unit)
    requires value != "" && Decode(value, plusAsSpace).Some?
    ensures UnitOk(u) && UnitText(u) <= value && Decode(value[|UnitText(u)|..], plusAsSpace).Some?
  {
    if value[0] == '%' {
      u := FirstEscape(value);
      assert value[..3] == UnitText(u);
      hide UnitText, EscapedChar;
    } else {
      u := Plain(value[0]);
    }
  }

  lemma FirstEscape(value: string) returns (u: Unit)
    requires IsEscape(value)
    ensures UnitOk(u) && UnitText(u) == ['%', value[1], value[2]]
  {
    var high, highUpper := DigitOf(value[1]);
    var low, lowUpper := DigitOf(value[2]);
    u := Escape(16 * high + low, highUpper, lowUpper);
    assert (16 * high + low) / 16 == high && (16 * high + low) % 16 == low;
  }

  /** And every component that is accepted is written so. */
  lemma {:induction false} DecodedIsWritten(value: string, plusAsSpace: bool) returns (units: seq<Unit>)
    requires Decode(value, plusAsSpace).Some?
    ensures UnitsOk(units) && UnitsText(units) == value
    ensures Decode(value, plusAsSpace) == Some(UnitsChars(units, plusAsSpace))
  {
    hide Decode, UnitText, UnitChar, UnitOk;
    units := [];
    if value != "" {
      var u := FirstUnit(value, plusAsSpace);
      var n := |UnitText(u)|;
      UnitTextIsSome(u);
      var rest := DecodedIsWritten(value[n..], plusAsSpace);
      units := [u] + rest;
      assert units[1..] == rest && value == UnitText(u) + value[n..];
    }
    DecodeWritten(units, plusAsSpace);
  }

  lemma UnitTextIsSome(u: Unit)
    requires UnitOk(u)
    ensures UnitText(u) != ""
  {
  }

  predicate IsSafe(c: char) { c == '%' || IsUnreserved(c) }

  /** An encoded component holds no delimiter of a target. */
  lemma {:induction false} EncodeIsSafe(s: string)
    requires IsOctets(s)
    ensures forall c :: c in Encode(s) ==> IsSafe(c)
    ensures s != "" ==> Encode(s) != ""
  {
    if s != "" { EncodeIsSafe(s[1..]); }
  }

  // ----- cutting and joining -----

  function Cut(s: string, c: char): (parts: seq<string>)
    ensures parts != []
    decreases |s|
  {
    var i := IndexOf(s, c);
    if i == |s| then [s] else [s[..i]] + Cut(s[i + 1..], c)
  }

  /** None of the parts holds the character. */
  predicate Free(parts: seq<string>, c: char) { forall p :: p in parts ==> c !in p }

  lemma {:induction false} JoinCut(s: string, c: char)
    ensures Join(Cut(s, c), c) == s && Free(Cut(s, c), c)
    decreases |s|
  {
    var i := IndexOf(s, c);
    IndexIsFirst(s, c);
    if i == |s| {
      assert s[..i] == s;
    } else {
      JoinCut(s[i + 1..], c);
      assert Cut(s, c)[1..] == Cut(s[i + 1..], c);
      assert s == s[..i] + [c] + s[i + 1..];
    }
  }

  lemma {:induction false} CutJoin(parts: seq<string>, c: char)
    requires parts != [] && Free(parts, c)
    ensures Cut(Join(parts, c), c) == parts
  {
    hide IndexOf;
    var p := parts[0];
    FreeTail(parts, c);
    if |parts| == 1 {
      IndexNone(p, c);
    } else {
      var rest := Join(parts[1..], c);
      CutJoin(parts[1..], c);
      hide Free, Join;
      CutFirst(p, c, rest);
      assert parts == [p] + parts[1..];
    }
  }

  lemma FreeTail(parts: seq<string>, c: char)
    requires parts != [] && Free(parts, c)
    ensures c !in parts[0] && Free(parts[1..], c)
  {
    assert parts[0] in parts && forall q :: q in parts[1..] ==> q in parts;
  }

  lemma CutFirst(p: string, c: char, rest: string)
    requires c !in p
    ensures Cut(p + [c] + rest, c) == [p] + Cut(rest, c)
  {
    hide IndexOf;
    IndexPast(p, c, rest);
    var s := p + [c] + rest;
    assert s[..|p|] == p && s[|p| + 1..] == rest;
  }

  // ----- paths -----

  /** The target without its query. */
  function PathOf(target: string): string { target[..IndexOf(target, '?')] }

  function SplitPath(path: string): seq<string> {
    if path == "" || path == "/" then [] else Cut(path[1..], '/')
  }

  function JoinPath(segments: seq<string>): string {
    if segments == [] then "/" else "/" + Join(segments, '/')
  }

  /** The pieces of s after those already found. */
  function CutOnto(parts: seq<string>, s: string, c: char): seq<string>
    decreases |s|
  {
    var i := IndexOf(s, c);
    if i == |s| then parts + [s] else CutOnto(parts + [s[..i]], s[i + 1..], c)
  }

  lemma {:induction false} CutOntoIs(parts: seq<string>, s: string, c: char)
    ensures CutOnto(parts, s, c) == parts + Cut(s, c)
    decreases |s|
  {
    hide IndexOf;
    var i := IndexOf(s, c);
    if i < |s| {
      CutOntoIs(parts + [s[..i]], s[i + 1..], c);
      assert parts + [s[..i]] + Cut(s[i + 1..], c) == parts + ([s[..i]] + Cut(s[i + 1..], c));
    }
  }

  // One round of the loop over a path, from `start`.
  lemma CutRound(parts: seq<string>, s: string, c: char, start: nat)
    requires start <= |s|
    ensures var separator := start + IndexOf(s[start..], c);
            && separator <= |s|
            && CutOnto(parts, s[start..], c) ==
                 if separator == |s| then parts + [s[start..]]
                 else CutOnto(parts + [s[start..separator]], s[separator + 1..], c)
  {
    hide IndexOf;
    var separator := start + IndexOf(s[start..], c);
    assert s[start..][..separator - start] == s[start..separator];
    if separator < |s| { assert s[start..][separator - start + 1..] == s[separator + 1..]; }
  }

  lemma CutNothing(parts: seq<string>, c: char)
    ensures CutOnto(parts, "", c) == parts + [""]
  {
  }

  /** split_path, with its own treatment of a trailing '/'. */
  method SplitPathSegments(path: string) returns (segments: seq<string>)
    ensures segments == SplitPath(path)
  {
    segments := [];
    if path == "" || path == "/" { return; }
    segments := SplitRelative(path);
    CutOntoIs([], path[1..], '/');
    assert [] + Cut(path[1..], '/') == Cut(path[1..], '/');
  }

  method SplitRelative(path: string) returns (segments: seq<string>)
    requires path != ""
    ensures segments == CutOnto([], path[1..], '/')
  {
    segments := [];
    var start := 1;
    hide IndexOf, CutOnto;
    while start <= |path|
      invariant 1 <= start <= |path|
      invariant CutOnto([], path[1..], '/') == CutOnto(segments, path[start..], '/')
      decreases |path| - start
    {
      CutRound(segments, path, '/', start);
      var separator := start + IndexOf(path[start..], '/');
      if separator == |path| {
        segments := segments + [path[start..]];
        return;
      }
      segments := segments + [path[start..separator]];
      start := separator + 1;
      if start == |path| {
        assert path[start..] == "";
        CutNothing(segments, '/');
        segments := segments + [""];
        return;
      }
    }
  }

  /**
   Splitting an absolute path and joining segments are mutually inverse, with "/" as the empty
   list; the one list no path splits into is the single empty segment.
   */
  lemma SplitInvertsJoin(path: string, segments: seq<string>)
    requires path != "" && path[0] == '/'
    ensures SplitPath(path) == segments <==> segments != [""] && Free(segments, '/') && JoinPath(segments) == path
  {
    var rest := path[1..];
    assert path == "/" + rest && Cut("", '/') == [""];
    if path != "/" {
      JoinCut(rest, '/');
      assert Cut(rest, '/') == [""] ==> rest == "";
    }
    if segments != [""] && Free(segments, '/') && JoinPath(segments) == path && segments != [] {
      CutJoin(segments, '/');
      assert path[1..] == Join(segments, '/');
    }
  }

  // ----- query parameters -----

  function KeyOf(pair: string): string { pair[..IndexOf(pair, '=')] }

  function RawValueOf(pair: string): string {
    var equals := IndexOf(pair, '=');
    if equals == |pair| then "" else pair[equals + 1..]
  }

  function FindPair(pairs: seq<string>, name: string): Option<string> {
    if pairs == [] then None
    else if Decode(KeyOf(pairs[0]), true) == Some(name) then Decode(RawValueOf(pairs[0]), true)
    else FindPair(pairs[1..], name)
  }

  function QueryParameter(target: string, name: string): Option<string> {
    var query := IndexOf(target, '?');
    if query + 1 >= |target| then None else FindPair(Cut(target[query + 1..], '&'), name)
  }

  /** What one round of the loop over the query does with the text from its start. */
  function FindFrom(s: string, name: string): Option<string>
    decreases |s|
  {
    var i := IndexOf(s, '&');
    if Decode(KeyOf(s[..i]), true) == Some(name) then Decode(RawValueOf(s[..i]), true)
    else if i == |s| then None
    else FindFrom(s[i + 1..], name)
  }

  lemma {:induction false} FindFromCut(s: string, name: string)
    ensures FindFrom(s, name) == FindPair(Cut(s, '&'), name)
    decreases |s|
  {
    hide Decode, KeyOf, RawValueOf, IndexOf;
    var i := IndexOf(s, '&');
    if i == |s| {
      assert s[..i] == s && Cut(s, '&') == [s] && [s][1..] == [];
      assert FindPair([], name) == None;
    } else {
      FindFromCut(s[i + 1..], name);
      assert Cut(s, '&')[1..] == Cut(s[i + 1..], '&');
    }
  }

  // One round of the loop over the query, from `start`.
  lemma FindRound(query: string, name: string, start: nat)
    requires start <= |query|
    ensures var separator := start + IndexOf(query[start..], '&');
            && separator <= |query|
            && FindFrom(query[start..], name) ==
                 if Decode(KeyOf(query[start..separator]), true) == Some(name)
                 then Decode(RawValueOf(query[start..separator]), true)
                 else if separator == |query| then None
                 else FindFrom(query[separator + 1..], name)
  {
    hide Decode, KeyOf, RawValueOf, IndexOf;
    var separator := start + IndexOf(query[start..], '&');
    assert query[start..][..separator - start] == query[start..separator];
    if separator < |query| { assert query[start..][separator - start + 1..] == query[separator + 1..]; }
  }

  method FindInQuery(query: string, name: string) returns (r: Option<string>)
    ensures r == FindFrom(query, name)
  {
    hide Decode, KeyOf, RawValueOf, IndexOf, FindFrom;
    var start := 0;
    assert query[0..] == query;
    while start <= |query|
      invariant 0 <= start <= |query|
      invariant FindFrom(query, name) == FindFrom(query[start..], name)
      decreases |query| - start
    {
      FindRound(query, name, start);
      var separator := start + IndexOf(query[start..], '&');
      var pair := query[start..separator];
      var key := DecodeComponent(KeyOf(pair), true);
      if key == Some(name) {
        r := DecodeComponent(RawValueOf(pair), true);
        return;
      }
      if separator == |query| { return None; }
      start := separator + 1;
    }
    return None;
  }

  /** query_parameter. */
  method ReadQueryParameter(target: string, name: string) returns (r: Option<string>)
    ensures r == QueryParameter(target, name)
  {
    hide FindPair, Cut, IndexOf;
    var position := IndexOf(target, '?');
    if position == |target| || position + 1 >= |target| { return None; }
    FindFromCut(target[position + 1..], name);
    r := FindInQuery(target[position + 1..], name);
  }

  datatype Pair = Pair(key: string, value: string)

  predicate ArePairs(pairs: seq<Pair>) {
    forall i :: 0 <= i < |pairs| ==> IsOctets(pairs[i].key) && IsOctets(pairs[i].value)
  }

  function EncodePair(p: Pair): string
    requires IsOctets(p.key) && IsOctets(p.value)
  {
    Encode(p.key) + "=" + Encode(p.value)
  }

  function EncodePairs(pairs: seq<Pair>): (r: seq<string>)
    requires ArePairs(pairs)
    ensures |r| == |pairs|
  {
    if pairs == [] then [] else [EncodePair(pairs[0])] + EncodePairs(pairs[1..])
  }

  function FirstNamed(pairs: seq<Pair>, name: string): Option<string> {
    if pairs == [] then None
    else if pairs[0].key == name then Some(pairs[0].value)
    else FirstNamed(pairs[1..], name)
  }

  lemma PairReadsBack(p: Pair)
    requires IsOctets(p.key) && IsOctets(p.value)
    ensures KeyOf(EncodePair(p)) == Encode(p.key) && RawValueOf(EncodePair(p)) == Encode(p.value)
    ensures '&' !in EncodePair(p)
  {
    EncodeIsSafe(p.key);
    EncodeIsSafe(p.value);
    assert !IsSafe('=') && !IsSafe('&');
    var s := EncodePair(p);
    assert s == Encode(p.key) + ['='] + Encode(p.value);
    IndexPast(Encode(p.key), '=', Encode(p.value));
    assert s[..|Encode(p.key)|] == Encode(p.key) && s[|Encode(p.key)| + 1..] == Encode(p.value);
  }

  lemma {:induction false} PairsReadBack(pairs: seq<Pair>, name: string)
    requires ArePairs(pairs)
    ensures Free(EncodePairs(pairs), '&') && FindPair(EncodePairs(pairs), name) == FirstNamed(pairs, name)
  {
    if pairs != [] {
      PairReadsBack(pairs[0]);
      DecodeEncode(pairs[0].key, true);
      DecodeEncode(pairs[0].value, true);
      PairsReadBack(pairs[1..], name);
      assert EncodePairs(pairs)[1..] == EncodePairs(pairs[1..]);
    }
  }

  /** An encoded query answers each name with the value of its first pair of that name. */
  lemma QueryRoundTrip(path: string, pairs: seq<Pair>, name: string)
    requires '?' !in path && pairs != [] && ArePairs(pairs)
    ensures QueryParameter(path + "?" + Join(EncodePairs(pairs), '&'), name) == FirstNamed(pairs, name)
  {
    var query := Join(EncodePairs(pairs), '&');
    var target := path + ['?'] + query;
    IndexPast(path, '?', query);
    assert target[|path| + 1..] == query;
    PairsReadBack(pairs, name);
    CutJoin(EncodePairs(pairs), '&');
    PairReadsBack(pairs[0]);
    assert |query| >= |EncodePairs(pairs)[0]| >= 1;
  }

  // ----- targets in general -----

  /** The path of a target is what stands before the first question mark. */
  lemma PathIs(path: string, query: string)
    requires '?' !in path
    ensures PathOf(path) == path && PathOf(path + "?" + query) == path
  {
    IndexNone(path, '?');
    IndexPast(path, '?', query);
    assert path + "?" + query == path + ['?'] + query;
  }

  /** The key of a pair is what stands before its first equals sign, the value what follows, if anything. */
  lemma PairIs(key: string, value: string)
    requires '=' !in key
    ensures KeyOf(key) == key && RawValueOf(key) == ""
    ensures KeyOf(key + "=" + value) == key && RawValueOf(key + "=" + value) == value
  {
    IndexNone(key, '=');
    IndexPast(key, '=', value);
    var pair := key + "=" + value;
    assert pair == key + ['='] + value && pair[|key| + 1..] == value && pair[..|key|] == key;
  }

  lemma {:induction false} FirstPairFound(pairs: seq<string>, name: string, i: nat)
    requires i <= |pairs| && forall j :: 0 <= j < i ==> Decode(KeyOf(pairs[j]), true) != Some(name)
    requires i < |pairs| ==> Decode(KeyOf(pairs[i]), true) == Some(name)
    ensures FindPair(pairs, name) == if i < |pairs| then Decode(RawValueOf(pairs[i]), true) else None
  {
    hide Decode, KeyOf, RawValueOf;
    if i > 0 { FirstPairFound(pairs[1..], name, i - 1); }
  }

  /**
   Whatever a query holds, a name is answered by the first pair whose key decodes to it: with its
   decoded value, or not at all if that value is malformed. Pairs with a malformed key are skipped.
   Without such a pair, a query, or anything in it, there is no answer.
   */
  lemma QueryAnswers(path: string, pairs: seq<string>, name: string, i: nat)
    requires '?' !in path && pairs != [] && pairs != [""] && Free(pairs, '&') && i <= |pairs|
    requires forall j :: 0 <= j < i ==> Decode(KeyOf(pairs[j]), true) != Some(name)
    requires i < |pairs| ==> Decode(KeyOf(pairs[i]), true) == Some(name)
    ensures QueryParameter(path + "?" + Join(pairs, '&'), name) ==
              if i < |pairs| then Decode(RawValueOf(pairs[i]), true) else None
    ensures QueryParameter(path, name) == None && QueryParameter(path + "?", name) == None
  {
    var query := Join(pairs, '&');
    IndexNone(path, '?');
    IndexPast(path, '?', "");
    IndexPast(path, '?', query);
    assert path + "?" == path + ['?'] + "" && path + "?" + query == path + ['?'] + query;
    assert (path + ['?'] + query)[|path| + 1..] == query;
    CutJoin(pairs, '&');
    assert Cut("", '&') == [""];
    FirstPairFound(pairs, name, i);
  }
}
