/**
 The Forwarded and X-Forwarded-For parsers over the pieces the quote-aware splitter gives them.
 Reading an address from its text is a parameter, `parse`; it fails for text that is no address and
 for unspecified and multicast addresses.
 */
module ForwardedHeader {
  import opened Common
  import opened Addresses
  import opened Strings
  import opened QuotedLists

  const MAXIMUM_HOPS := 64

  // ----- address tokens -----

  function LowerChar(c: char): char { if 'A' <= c <= 'Z' then c - 'A' + 'a' else c }

  function Lower(s: string): string { seq(|s|, i requires 0 <= i < |s| => LowerChar(s[i])) }

  predicate IsControl(c: char) { c < ' ' || c as int == 0x7f }

  predicate IsDigits(s: string) { forall i :: 0 <= i < |s| ==> '0' <= s[i] <= '9' }

  /** The address inside a node: brackets and a decimal port are taken off. */
  function AddressText(node: string): Parsed<string>
    requires node != ""
  {
    if node[0] == '[' then
      var closing := IndexOf(node, ']');
      if closing == |node| then Err(MissingBracket)
      else if closing + 1 < |node| && node[closing + 1] != ':' then Err(InvalidSuffix)
      else if closing + 1 < |node| && (closing + 2 == |node| || !IsDigits(node[closing + 2..])) then Err(InvalidPort)
      else Ok(node[1..closing])
    else
      var colon := IndexOf(node, ':');
      var single := colon < |node| && IndexOf(node[colon + 1..], ':') == |node| - colon - 1;
      if single && '.' in node then
        if colon + 1 == |node| || !IsDigits(node[colon + 1..]) then Err(InvalidPort) else Ok(node[..colon])
      else Ok(node)
  }

  /** parse_ip_token. */
  function ParseToken(raw: string, parse: string -> Option<Address>): Parsed<Address> {
    match Unquoted(Trim(raw))
    case Err(e) => Err(e)
    case Ok(node) => ParseNode(node, parse)
  }

  function ParseNode(node: string, parse: string -> Option<Address>): Parsed<Address> {
    if node == "" || exists i :: 0 <= i < |node| && IsControl(node[i]) then Err(InvalidAddress)
    else if Lower(node) == "unknown" || LowerChar(node[0]) == '_' then Err(Obfuscated)
    else
      match AddressText(node)
      case Err(e) => Err(e)
      case Ok(text) => (match parse(text) case Some(a) => Ok(a) case None => Err(InvalidAddress))
  }

  /** Brackets, with or without a port, come off an IPv6 text. */
  lemma BracketsComeOff(text: string, port: string)
    requires ']' !in text && port != "" && IsDigits(port)
    ensures AddressText("[" + text + "]") == Ok(text) && AddressText("[" + text + "]:" + port) == Ok(text)
  {
    var bare, node := "[" + text + "]", "[" + text + "]:" + port;
    IndexPast("[" + text, ']', "");
    assert bare == "[" + text + [']'] + "" && bare[1..|text| + 1] == text;
    IndexPast("[" + text, ']', ":" + port);
    assert node == "[" + text + [']'] + (":" + port);
    assert node[|text| + 2] == ':' && node[|text| + 3..] == port && node[1..|text| + 1] == text;
  }

  /** A port comes off a dotted address. */
  lemma PortComesOff(text: string, port: string)
    requires '.' in text && ':' !in text && text[0] != '[' && port != "" && IsDigits(port)
    ensures AddressText(text) == Ok(text) && AddressText(text + ":" + port) == Ok(text)
  {
    var node := text + ":" + port;
    IndexNone(text, ':');
    IndexPast(text, ':', port);
    IndexNone(port, ':');
    assert node == text + [':'] + port && node[|text| + 1..] == port && node[..|text|] == text && node[0] == text[0];
    assert '.' in node;
  }

  predicate IsPort(port: string) { port != "" && forall c <- port :: '0' <= c <= '9' }

  /** Exactly one colon in it. */
  ghost predicate OneColon(node: string) {
    exists i :: 0 <= i < |node| && node[i] == ':' && forall j :: 0 <= j < |node| && node[j] == ':' ==> j == i
  }

  /**
   How a node names the text of an address: in brackets, with or without a port; or bare, where
   only a text with a dot and a single colon is taken to have a port.
   */
  ghost predicate Names(node: string, text: string)
    requires node != ""
  {
    if node[0] == '[' then
      && ']' !in text
      && (node == "[" + text + "]" || exists port :: IsPort(port) && node == "[" + text + "]:" + port)
    else if OneColon(node) && '.' in node then
      ':' !in text && exists port :: IsPort(port) && node == text + ":" + port
    else text == node
  }

  lemma PortIff(port: string)
    ensures IsPort(port) <==> port != "" && IsDigits(port)
  {
    if IsPort(port) { assert forall i :: 0 <= i < |port| ==> port[i] in port; }
  }

  lemma ColonIn(s: string)
    ensures IndexOf(s, ':') == |s| <==> ':' !in s
  {
    IndexIsFirst(s, ':');
    if ':' !in s { IndexNone(s, ':'); }
    hide IndexOf;
    assert s[..|s|] == s;
  }

  lemma OneColonAt(node: string, i: nat, rest: string)
    requires i < |node| && node[i] == ':' && rest == node[i + 1..] && ':' !in node[..i]
    ensures OneColon(node) <==> ':' !in rest
  {
    assert forall j :: 0 <= j < i ==> node[j] == node[..i][j];
    assert forall j :: 0 <= j < |rest| ==> rest[j] == node[i + 1 + j];
    if !OneColon(node) {
      var j :| 0 <= j < |node| && node[j] == ':' && j != i;
      assert j > i && rest[j - i - 1] == node[j];
    }
  }

  lemma NoColonAtAll(node: string)
    requires ':' !in node
    ensures !OneColon(node)
  {
  }

  lemma OneColonIff(node: string)
    ensures var colon := IndexOf(node, ':');
            OneColon(node) <==> colon < |node| && IndexOf(node[colon + 1..], ':') == |node| - colon - 1
  {
    ColonIn(node);
    IndexIsFirst(node, ':');
    hide IndexOf, OneColon;
    if IndexOf(node, ':') == |node| {
      NoColonAtAll(node);
    } else {
      var rest := node[IndexOf(node, ':') + 1..];
      ColonIn(rest);
      OneColonAt(node, IndexOf(node, ':'), rest);
    }
  }

  lemma BracketedIff(node: string, text: string)
    requires node != "" && node[0] == '['
    ensures AddressText(node) == Ok(text) <==> Names(node, text)
  {
    var closing := IndexOf(node, ']');
    IndexIsFirst(node, ']');
    if Names(node, text) {
      if port :| IsPort(port) && node == "[" + text + "]:" + port {
        PortIff(port);
        BracketsComeOff(text, port);
      } else {
        BracketsComeOff(text, "0");
      }
    }
    if AddressText(node) == Ok(text) {
      assert text == node[1..closing] && node[..closing] == "[" + text;
      if closing + 1 < |node| {
        var port := node[closing + 2..];
        PortIff(port);
        assert node == "[" + text + "]:" + port;
      } else {
        assert node == "[" + text + "]";
      }
    }
  }

  lemma BareIff(node: string, text: string)
    requires node != "" && node[0] != '['
    ensures AddressText(node) == Ok(text) <==> Names(node, text)
  {
    OneColonIff(node);
    var colon := IndexOf(node, ':');
    IndexIsFirst(node, ':');
    if OneColon(node) && '.' in node {
      var a, b := node[..colon], node[colon + 1..];
      assert node == a + ":" + b;
      PortIff(b);
      if port :| IsPort(port) && ':' !in text && node == text + ":" + port {
        IndexPast(text, ':', port);
        assert text + ":" + port == text + [':'] + port;
        assert text == a && port == b;
      }
    }
  }

  /** The text is taken out of a node exactly if the node names it so; every other node is refused. */
  lemma AddressTextIff(node: string, text: string)
    requires node != ""
    ensures AddressText(node) == Ok(text) <==> Names(node, text)
  {
    if node[0] == '[' { BracketedIff(node, text); } else { BareIff(node, text); }
  }

  /**
   A node gives an address exactly if it has no control character, is not "unknown" and does not
   begin with an underscore, and names the text of that address.
   */
  lemma NodeIff(node: string, parse: string -> Option<Address>, a: Address)
    ensures ParseNode(node, parse) == Ok(a) <==>
              && node != "" && (forall c <- node :: 32 <= c as int && c as int != 127)
              && Lower(node) != "unknown" && node[0] != '_'
              && exists text :: Names(node, text) && parse(text) == Some(a)
  {
    if node != "" {
      assert IsControl(' ') == false;
      if i :| 0 <= i < |node| && IsControl(node[i]) { assert node[i] in node; }
      forall text ensures AddressText(node) == Ok(text) <==> Names(node, text) { AddressTextIff(node, text); }
      assert LowerChar(node[0]) == '_' <==> node[0] == '_';
      assert Lower(node)[0] == LowerChar(node[0]);
    }
    hide AddressText, Names;
  }

  // ----- the Forwarded header -----

  datatype Values = Values(addresses: seq<Address>, scheme: Option<string>)

  const NO_VALUES := Values([], None)

  predicate WellFormedParameter(p: string) {
    var separator := IndexOf(p, '=');
    0 < separator && separator + 1 < |p|
  }

  function NameOf(p: string): string
    requires WellFormedParameter(p)
  {
    Lower(Trim(p[..IndexOf(p, '=')]))
  }

  function ValueOf(p: string): string
    requires WellFormedParameter(p)
  {
    Trim(p[IndexOf(p, '=') + 1..])
  }

  /** The loop body for one parameter; the flag says whether the element had its `for` already. */
  function Parameter(v: Values, found: bool, p: string, parse: string -> Option<Address>): Parsed<(Values, bool)> {
    if p == "" then Err(EmptyParameter)
    else if !WellFormedParameter(p) then Err(InvalidParameter)
    else if NameOf(p) == "for" then
      if found then Err(DuplicateFor)
      else
        match ParseToken(ValueOf(p), parse)
        case Err(e) => Err(e)
        case Ok(a) => Ok((v.(addresses := v.addresses + [a]), true))
    else if NameOf(p) == "proto" && v.scheme.None? then
      match Unquoted(ValueOf(p))
      case Err(e) => Err(e)
      case Ok(t) =>
        if Lower(t) == "http" || Lower(t) == "https" then Ok((v.(scheme := Some(Lower(t))), found))
        else Err(InvalidProto)
    else Ok((v, found))
  }

  function Parameters(v: Values, found: bool, ps: seq<string>, parse: string -> Option<Address>): Parsed<(Values, bool)>
    decreases |ps|
  {
    if ps == [] then Ok((v, found))
    else
      match Parameter(v, found, ps[0], parse)
      case Err(e) => Err(e)
      case Ok((w, f)) => Parameters(w, f, ps[1..], parse)
  }

  function Element(v: Values, element: string, parse: string -> Option<Address>): Parsed<Values> {
    if element == "" then Err(EmptyElement)
    else
      match Split(element, ';')
      case Err(e) => Err(e)
      case Ok(ps) =>
        match Parameters(v, false, ps, parse)
        case Err(e) => Err(e)
        case Ok((w, found)) =>
          if !found then Err(MissingFor) else if |w.addresses| > MAXIMUM_HOPS then Err(TooManyHops) else Ok(w)
  }

  function Elements(v: Values, es: seq<string>, parse: string -> Option<Address>): Parsed<Values>
    decreases |es|
  {
    if es == [] then Ok(v)
    else
      match Element(v, es[0], parse)
      case Err(e) => Err(e)
      case Ok(w) => Elements(w, es[1..], parse)
  }

  function ForwardedValues(value: string, parse: string -> Option<Address>): Parsed<Values> {
    match Split(value, ',')
    case Err(e) => Err(e)
    case Ok(es) => Elements(NO_VALUES, es, parse)
  }

  /** parse_forwarded_header. */
  method ParseForwarded(value: string, parse: string -> Option<Address>) returns (r: Parsed<Values>)
    ensures r == ForwardedValues(value, parse)
  {
    var elements := SplitTopLevel(value, ',');
    if elements.Err? { return Err(elements.error); }
    var result := NO_VALUES;
    var es := elements.value;
    for i := 0 to |es|
      invariant ForwardedValues(value, parse) == Elements(result, es[i..], parse)
    {
      var element := es[i];
      assert es[i..][0] == element && es[i..][1..] == es[i + 1..];
      if element == "" { return Err(EmptyElement); }
      var parameters := SplitTopLevel(element, ';');
      if parameters.Err? { return Err(parameters.error); }
      var ps := parameters.value;
      var found := false;
      ghost var before := result;
      for j := 0 to |ps|
        invariant Parameters(before, false, ps, parse) == Parameters(result, found, ps[j..], parse)
      {
        assert ps[j..][0] == ps[j] && ps[j..][1..] == ps[j + 1..];
        var step := Parameter(result, found, ps[j], parse);
        if step.Err? { return Err(step.error); }
        result, found := step.value.0, step.value.1;
      }
      if !found { return Err(MissingFor); }
      if |result.addresses| > MAXIMUM_HOPS { return Err(TooManyHops); }
    }
    return Ok(result);
  }

  /** The values of an element's `for` parameters. */
  function ForValues(ps: seq<string>): seq<string> {
    if ps == [] then []
    else if NamesFor(ps[0]) then [ValueOf(ps[0])] + ForValues(ps[1..])
    else ForValues(ps[1..])
  }

  predicate NamesFor(p: string) { WellFormedParameter(p) && NameOf(p) == "for" }

  lemma ParameterTakesFor(v: Values, found: bool, p: string, parse: string -> Option<Address>)
    requires Parameter(v, found, p, parse).Ok?
    ensures var (w, f) := Parameter(v, found, p, parse).value;
            if NamesFor(p)
            then !found && f && ParseToken(ValueOf(p), parse).Ok?
                 && w.addresses == v.addresses + [ParseToken(ValueOf(p), parse).value]
            else f == found && w.addresses == v.addresses
  {
    hide ParseToken, Unquoted, NameOf, ValueOf, IndexOf, Lower;
  }

  lemma {:induction false} ParametersTakeOneFor(v: Values, found: bool, ps: seq<string>,
                                                parse: string -> Option<Address>)
    requires Parameters(v, found, ps, parse).Ok?
    ensures var (w, f) := Parameters(v, found, ps, parse).value;
            && f == (found || ForValues(ps) != [])
            && |ForValues(ps)| + (if found then 1 else 0) <= 1
            && (ForValues(ps) == [] ==> w.addresses == v.addresses)
            && (ForValues(ps) != [] ==>
                  ParseToken(ForValues(ps)[0], parse).Ok?
                  && w.addresses == v.addresses + [ParseToken(ForValues(ps)[0], parse).value])
    decreases |ps|
  {
    hide ParseToken, Parameter, NameOf, ValueOf, WellFormedParameter;
    if ps != [] {
      var (w, f) := Parameter(v, found, ps[0], parse).value;
      ParameterTakesFor(v, found, ps[0], parse);
      ParametersTakeOneFor(w, f, ps[1..], parse);
    }
  }

  /** What an accepted element contributes: the address of its one `for` parameter. */
  ghost predicate Contributes(element: string, a: Address, parse: string -> Option<Address>) {
    && Split(element, ';').Ok?
    && var fors := ForValues(Split(element, ';').value);
       |fors| == 1 && ParseToken(fors[0], parse) == Ok(a)
  }

  lemma ElementContributes(v: Values, element: string, parse: string -> Option<Address>)
    requires Element(v, element, parse).Ok?
    ensures var w := Element(v, element, parse).value;
            |w.addresses| <= MAXIMUM_HOPS
            && exists a :: w.addresses == v.addresses + [a] && Contributes(element, a, parse)
  {
    hide ParseToken, Parameters, Split, ForValues;
    var ps := Split(element, ';').value;
    ParametersTakeOneFor(v, false, ps, parse);
    var a := ParseToken(ForValues(ps)[0], parse).value;
    assert Contributes(element, a, parse);
  }

  lemma {:induction false} ElementsAppend(v: Values, es: seq<string>, parse: string -> Option<Address>)
    requires Elements(v, es, parse).Ok?
    ensures var w := Elements(v, es, parse).value;
            && |w.addresses| == |v.addresses| + |es|
            && w.addresses[..|v.addresses|] == v.addresses
            && (es != [] ==> |w.addresses| <= MAXIMUM_HOPS)
    decreases |es|
  {
    hide Element, Contributes;
    if es != [] {
      var w := Element(v, es[0], parse).value;
      ElementContributes(v, es[0], parse);
      ElementsAppend(w, es[1..], parse);
      var n := |v.addresses|;
      var all := Elements(w, es[1..], parse).value.addresses;
      assert all[..n] == all[..n + 1][..n];
    }
  }

  lemma {:induction false} ElementsContribute(v: Values, es: seq<string>, parse: string -> Option<Address>, i: nat)
    requires Elements(v, es, parse).Ok? && i < |es|
    ensures var w := Elements(v, es, parse).value;
            |w.addresses| == |v.addresses| + |es| && Contributes(es[i], w.addresses[|v.addresses| + i], parse)
    decreases |es|
  {
    hide Element, Contributes;
    ElementsAppend(v, es, parse);
    var w := Element(v, es[0], parse).value;
    ElementContributes(v, es[0], parse);
    var n := |v.addresses|;
    if i == 0 {
      ElementsAppend(w, es[1..], parse);
      var all := Elements(w, es[1..], parse).value.addresses;
      assert all[n] == all[..n + 1][n] == w.addresses[n];
    } else {
      ElementsContribute(w, es[1..], parse, i - 1);
    }
  }

  /**
   An accepted Forwarded header gives exactly one address per element, in order, the one its only
   `for` parameter names, and never more than 64.
   */
  lemma OneAddressPerElement(value: string, parse: string -> Option<Address>)
    requires ForwardedValues(value, parse).Ok?
    ensures Split(value, ',').Ok?
    ensures var (es, w) := (Split(value, ',').value, ForwardedValues(value, parse).value);
            && 1 <= |w.addresses| == |es| <= 64
            && forall i :: 0 <= i < |es| ==> Contributes(es[i], w.addresses[i], parse)
  {
    var es := Split(value, ',').value;
    PiecesNonEmpty(PLAIN, "", value, ',');
    TrimAllIs(Pieces(value, ','));
    hide Elements, Contributes, Split, Pieces, TrimAll, PiecesFrom;
    ElementsAppend(NO_VALUES, es, parse);
    forall i | 0 <= i < |es|
      ensures Contributes(es[i], ForwardedValues(value, parse).value.addresses[i], parse)
    {
      ElementsContribute(NO_VALUES, es, parse, i);
    }
  }

  // ----- the scheme, and elements put in front -----

  /** What the first `proto` of some parameters names. */
  function SchemeOfParameters(ps: seq<string>): Option<string> {
    if ps == [] then None
    else if WellFormedParameter(ps[0]) && NameOf(ps[0]) == "proto" then
      match Unquoted(ValueOf(ps[0])) case Ok(t) => Some(Lower(t)) case Err(_) => None
    else SchemeOfParameters(ps[1..])
  }

  function SchemeOfElements(es: seq<string>): Option<string> {
    if es == [] then None
    else
      var first := match Split(es[0], ';') case Ok(ps) => SchemeOfParameters(ps) case Err(_) => None;
      if first.Some? then first else SchemeOfElements(es[1..])
  }

  /** The scheme a Forwarded text asks for: the first `proto` of its elements. */
  function SchemeOf(value: string): Option<string> {
    match Split(value, ',') case Ok(es) => SchemeOfElements(es) case Err(_) => None
  }

  lemma ParameterScheme(v: Values, found: bool, p: string, parse: string -> Option<Address>)
    requires Parameter(v, found, p, parse).Ok?
    ensures Parameter(v, found, p, parse).value.0.scheme ==
              if v.scheme.Some? then v.scheme
              else if WellFormedParameter(p) && NameOf(p) == "proto" then Some(Lower(Unquoted(ValueOf(p)).value))
              else None
    ensures v.scheme.None? && WellFormedParameter(p) && NameOf(p) == "proto" ==> Unquoted(ValueOf(p)).Ok?
  {
    hide ParseToken, Unquoted, NameOf, ValueOf, IndexOf, Lower;
  }

  lemma {:induction false} ParametersScheme(v: Values, found: bool, ps: seq<string>, parse: string -> Option<Address>)
    requires Parameters(v, found, ps, parse).Ok?
    ensures Parameters(v, found, ps, parse).value.0.scheme ==
              if v.scheme.Some? then v.scheme else SchemeOfParameters(ps)
    decreases |ps|
  {
    hide Parameter, NameOf, ValueOf, WellFormedParameter, Unquoted;
    if ps != [] {
      var (w, f) := Parameter(v, found, ps[0], parse).value;
      ParameterScheme(v, found, ps[0], parse);
      ParametersScheme(w, f, ps[1..], parse);
    }
  }

  lemma {:induction false} ElementsScheme(v: Values, es: seq<string>, parse: string -> Option<Address>)
    requires Elements(v, es, parse).Ok?
    ensures Elements(v, es, parse).value.scheme == if v.scheme.Some? then v.scheme else SchemeOfElements(es)
    decreases |es|
  {
    hide Parameters, Split, SchemeOfParameters;
    if es != [] {
      ParametersScheme(v, false, Split(es[0], ';').value, parse);
      ElementsScheme(Element(v, es[0], parse).value, es[1..], parse);
    }
  }

  lemma {:induction false} ElementsConcat(v: Values, a: seq<string>, b: seq<string>, parse: string -> Option<Address>)
    ensures Elements(v, a + b, parse) ==
              match Elements(v, a, parse) case Ok(u) => Elements(u, b, parse) case Err(e) => Err(e)
    decreases |a|
  {
    hide Element;
    if a == [] {
      assert a + b == b;
    } else {
      assert (a + b)[0] == a[0] && (a + b)[1..] == a[1..] + b;
      if Element(v, a[0], parse).Ok? { ElementsConcat(Element(v, a[0], parse).value, a[1..], b, parse); }
    }
  }

  lemma AddedAt(u: Values, es: seq<string>, parse: string -> Option<Address>, i: nat)
    requires Elements(u, es, parse).Ok? && Elements(NO_VALUES, es, parse).Ok? && i < |es|
    ensures var (w, v) := (Elements(u, es, parse).value, Elements(NO_VALUES, es, parse).value);
            && |w.addresses| == |u.addresses| + |es| && |v.addresses| == |es|
            && w.addresses[|u.addresses| + i] == v.addresses[i]
  {
    hide Elements, Contributes;
    ElementsContribute(u, es, parse, i);
    ElementsContribute(NO_VALUES, es, parse, i);
    var w, v := Elements(u, es, parse).value.addresses, Elements(NO_VALUES, es, parse).value.addresses;
    ContributesOnce(es[i], w[|u.addresses| + i], v[i], parse);
  }

  /** What elements add does not depend on those before them, but for a scheme already named. */
  lemma ElementsRebase(u: Values, es: seq<string>, parse: string -> Option<Address>)
    requires Elements(u, es, parse).Ok? && Elements(NO_VALUES, es, parse).Ok?
    ensures var (w, v) := (Elements(u, es, parse).value, Elements(NO_VALUES, es, parse).value);
            && w.addresses == u.addresses + v.addresses
            && w.scheme == if u.scheme.Some? then u.scheme else v.scheme
  {
    hide Elements, SchemeOfElements;
    ElementsScheme(u, es, parse);
    ElementsScheme(NO_VALUES, es, parse);
    ElementsAppend(u, es, parse);
    ElementsAppend(NO_VALUES, es, parse);
    var w, v := Elements(u, es, parse).value.addresses, Elements(NO_VALUES, es, parse).value.addresses;
    forall i | 0 <= i < |v| ensures w[|u.addresses| + i] == v[i] { AddedAt(u, es, parse, i); }
  }

  lemma ContributesOnce(element: string, a: Address, b: Address, parse: string -> Option<Address>)
    requires Contributes(element, a, parse) && Contributes(element, b, parse)
    ensures a == b
  {
    hide Split, ForValues, ParseToken;
  }

  /**
   Whatever text stands in front of an element a proxy appends, if both are accepted the appended
   addresses come last, and the scheme is that of the text in front if it names one. The text must
   leave no quoted value open, which it cannot unless the appended part has a backslash in it.
   */
  lemma AppendedElements(front: string, back: string, parse: string -> Option<Address>)
    requires ForwardedValues(front + [','] + back, parse).Ok? && ForwardedValues(back, parse).Ok?
    requires Balanced(front) || '\\' !in back
    ensures ForwardedValues(front, parse).Ok? && Balanced(front)
    ensures var (u, v, w) := (ForwardedValues(front, parse).value, ForwardedValues(back, parse).value,
                              ForwardedValues(front + [','] + back, parse).value);
            && w.addresses == u.addresses + v.addresses
            && w.scheme == (if u.scheme.Some? then u.scheme else v.scheme)
            && u.scheme == SchemeOf(front) && v.scheme == SchemeOf(back)
  {
    if !Balanced(front) { PlainTailMeansBalancedFront(front, back, ','); }
    SplitFront(front, back, ',');
    var a, b := Split(front, ',').value, Split(back, ',').value;
    hide Elements, Split;
    ElementsConcat(NO_VALUES, a, b, parse);
    ElementsScheme(NO_VALUES, a, parse);
    ElementsScheme(NO_VALUES, b, parse);
    ElementsRebase(Elements(NO_VALUES, a, parse).value, b, parse);
  }

  // ----- X-Forwarded-For -----

  function Tokens(addresses: seq<Address>, parts: seq<string>, parse: string -> Option<Address>): Parsed<seq<Address>>
    decreases |parts|
  {
    if parts == [] then Ok(addresses)
    else if parts[0] == "" then Err(EmptyElement)
    else
      match ParseToken(parts[0], parse)
      case Err(e) => Err(e)
      case Ok(a) =>
        if |addresses| + 1 > MAXIMUM_HOPS then Err(TooManyHops) else Tokens(addresses + [a], parts[1..], parse)
  }

  function ForwardedForValues(value: string, parse: string -> Option<Address>): Parsed<seq<Address>> {
    match Split(value, ',')
    case Err(e) => Err(e)
    case Ok(parts) => Tokens([], parts, parse)
  }

  /** parse_x_forwarded_for. */
  method ParseForwardedFor(value: string, parse: string -> Option<Address>) returns (r: Parsed<seq<Address>>)
    ensures r == ForwardedForValues(value, parse)
  {
    var split := SplitTopLevel(value, ',');
    if split.Err? { return Err(split.error); }
    var parts := split.value;
    var addresses: seq<Address> := [];
    for i := 0 to |parts|
      invariant ForwardedForValues(value, parse) == Tokens(addresses, parts[i..], parse)
    {
      assert parts[i..][0] == parts[i] && parts[i..][1..] == parts[i + 1..];
      if parts[i] == "" { return Err(EmptyElement); }
      var token := ParseToken(parts[i], parse);
      if token.Err? { return Err(token.error); }
      addresses := addresses + [token.value];
      if |addresses| > MAXIMUM_HOPS { return Err(TooManyHops); }
    }
    return Ok(addresses);
  }

  /** Every part is an address token, and these are the addresses. */
  ghost predicate Reads(parts: seq<string>, w: seq<Address>, parse: string -> Option<Address>) {
    && |w| == |parts|
    && forall i :: 0 <= i < |parts| ==> parts[i] != "" && ParseToken(parts[i], parse) == Ok(w[i])
  }

  lemma {:induction false} TokensKeepPrefix(addresses: seq<Address>, parts: seq<string>,
                                            parse: string -> Option<Address>)
    requires Tokens(addresses, parts, parse).Ok?
    ensures var w := Tokens(addresses, parts, parse).value; |w| >= |addresses| && w[..|addresses|] == addresses
    decreases |parts|
  {
    hide ParseToken;
    if parts != [] {
      var a := ParseToken(parts[0], parse).value;
      TokensKeepPrefix(addresses + [a], parts[1..], parse);
      assert (addresses + [a])[..|addresses|] == addresses;
      assert Tokens(addresses, parts, parse).value[..|addresses| + 1][..|addresses|] == addresses;
    }
  }

  lemma {:induction false} TokensAre(addresses: seq<Address>, parts: seq<string>, parse: string -> Option<Address>,
                                     w: seq<Address>)
    requires |addresses| <= MAXIMUM_HOPS
    ensures Tokens(addresses, parts, parse) == Ok(addresses + w) <==>
              Reads(parts, w, parse) && |addresses| + |w| <= MAXIMUM_HOPS
    decreases |parts|
  {
    hide ParseToken;
    var r := Tokens(addresses, parts, parse);
    if parts == [] {
      assert |addresses + w| == |addresses| + |w|;
      assert w == [] ==> addresses + w == addresses;
    } else if w == [] {
      assert addresses + w == addresses;
      if r.Ok? { TokensKeepPrefix(addresses + [ParseToken(parts[0], parse).value], parts[1..], parse); }
    } else {
      assert addresses + w == addresses + [w[0]] + w[1..];
      if r.Ok? {
        var a := ParseToken(parts[0], parse).value;
        TokensKeepPrefix(addresses + [a], parts[1..], parse);
        assert r.value[|addresses|] == r.value[..|addresses| + 1][|addresses|] == a;
        assert (addresses + w)[|addresses|] == w[0];
      }
      if |addresses| < MAXIMUM_HOPS { TokensAre(addresses + [w[0]], parts[1..], parse, w[1..]); }
    }
  }

  /** X-Forwarded-For is accepted as a chain exactly when its parts are those addresses, at most 64 of them. */
  lemma ForwardedForIs(value: string, parse: string -> Option<Address>, w: seq<Address>)
    ensures ForwardedForValues(value, parse) == Ok(w) <==>
              Split(value, ',').Ok? && Reads(Split(value, ',').value, w, parse) && |w| <= 64
  {
    hide Tokens, Split, Reads;
    if Split(value, ',').Ok? {
      TokensAre([], Split(value, ',').value, parse, w);
      assert [] + w == w;
    }
  }

  lemma ReadsSuffix(a: seq<string>, b: seq<string>, w: seq<Address>, parse: string -> Option<Address>)
    requires Reads(a + b, w, parse)
    ensures Reads(a, w[..|a|], parse) && Reads(b, w[|a|..], parse)
  {
    hide ParseToken;
    forall i | 0 <= i < |a| ensures a[i] != "" && ParseToken(a[i], parse) == Ok(w[..|a|][i]) {
      assert (a + b)[i] == a[i];
    }
    forall i | 0 <= i < |b| ensures b[i] != "" && ParseToken(b[i], parse) == Ok(w[|a|..][i]) {
      assert (a + b)[|a| + i] == b[i];
    }
  }

  lemma ReadsOnce(parts: seq<string>, v: seq<Address>, w: seq<Address>, parse: string -> Option<Address>)
    requires Reads(parts, v, parse) && Reads(parts, w, parse)
    ensures v == w
  {
    hide ParseToken;
  }

  lemma ReadsSize(parts: seq<string>, w: seq<Address>, parse: string -> Option<Address>)
    requires Reads(parts, w, parse)
    ensures |w| == |parts|
  {
  }

  /** In an accepted X-Forwarded-For, too, the addresses of an appended part come last, whatever stands in front. */
  lemma AppendedAddresses(front: string, back: string, parse: string -> Option<Address>)
    requires ForwardedForValues(front + [','] + back, parse).Ok? && ForwardedForValues(back, parse).Ok?
    requires Balanced(front) || '\\' !in back
    ensures ForwardedForValues(front, parse).Ok? && Balanced(front)
    ensures ForwardedForValues(front + [','] + back, parse).value ==
              ForwardedForValues(front, parse).value + ForwardedForValues(back, parse).value
    ensures ForwardedForValues(back, parse).value != []
  {
    if !Balanced(front) { PlainTailMeansBalancedFront(front, back, ','); }
    SplitFront(front, back, ',');
    PiecesNonEmpty(PLAIN, "", back, ',');
    TrimAllIs(Pieces(back, ','));
    var a, b := Split(front, ',').value, Split(back, ',').value;
    assert b != [] && Split(front, ',').Ok?;
    hide Split, ForwardedForValues, Reads, Balanced;
    var v, w := ForwardedForValues(back, parse).value, ForwardedForValues(front + [','] + back, parse).value;
    ForwardedForIs(front + [','] + back, parse, w);
    ForwardedForIs(back, parse, v);
    ReadsSuffix(a, b, w, parse);
    ReadsOnce(b, v, w[|a|..], parse);
    ReadsSize(a + b, w, parse);
    ForwardedForIs(front, parse, w[..|a|]);
    assert w == w[..|a|] + w[|a|..];
  }

  // ----- writing a header and reading it back -----

  function Rendered(nodes: seq<string>): (r: seq<string>)
    ensures |r| == |nodes|
  {
    seq(|nodes|, i requires 0 <= i < |nodes| => "for=" + Quote(nodes[i]))
  }

  lemma RenderedElement(node: string, d: char)
    requires d == ',' || d == ';'
    ensures var e := "for=" + Quote(node);
            && Clean(e, d) && Trim(e) == e && e != ""
            && WellFormedParameter(e) && NameOf(e) == "for" && ValueOf(e) == Quote(node)
  {
    var e := "for=" + Quote(node);
    QuoteIsClean(node, d);
    ScanConcat(PLAIN, "for=", Quote(node), d);
    assert ScanAll(PLAIN, "for=") == PLAIN && NoCut(PLAIN, "for=", d) by {
      assert "for=" == "f" + "o" + "r" + "=";
      ScanConcat(PLAIN, "f" + "o" + "r", "=", d);
      ScanConcat(PLAIN, "f" + "o", "r", d);
      ScanConcat(PLAIN, "f", "o", d);
    }
    assert e == "for" + ['='] + Quote(node);
    IndexPast("for", '=', Quote(node));
    assert e[..3] == "for" && e[4..] == Quote(node);
    assert Lower("for") == "for";
  }

  lemma RenderedElementReads(v: Values, node: string, a: Address, parse: string -> Option<Address>)
    requires |v.addresses| <= MAXIMUM_HOPS && ParseNode(node, parse) == Ok(a)
    ensures Element(v, "for=" + Quote(node), parse) ==
              if |v.addresses| < MAXIMUM_HOPS then Ok(v.(addresses := v.addresses + [a])) else Err(TooManyHops)
  {
    var e := "for=" + Quote(node);
    RenderedElement(node, ';');
    SplitOfJoin([e], ';');
    UnquoteQuote(node);
    assert Trim(Quote(node)) == Quote(node);
    hide Split, ParseNode, Quote, NameOf, ValueOf, WellFormedParameter, Unquoted, Trim;
    assert Parameter(v, false, e, parse) == Ok((v.(addresses := v.addresses + [a]), true));
    assert [e][1..] == [];
    assert Parameters(v, false, [e], parse) == Ok((v.(addresses := v.addresses + [a]), true));
  }

  lemma {:induction false} RenderedElements(v: Values, nodes: seq<string>, addresses: seq<Address>,
                                            parse: string -> Option<Address>)
    requires |nodes| == |addresses| && |v.addresses| <= MAXIMUM_HOPS
    requires forall i :: 0 <= i < |nodes| ==> ParseNode(nodes[i], parse) == Ok(addresses[i])
    ensures Elements(v, Rendered(nodes), parse) ==
              if |v.addresses| + |nodes| <= MAXIMUM_HOPS then Ok(v.(addresses := v.addresses + addresses))
              else Err(TooManyHops)
    decreases |nodes|
  {
    hide Element, ParseNode;
    if nodes == [] {
      assert v.addresses + addresses == v.addresses;
    } else {
      RenderedElementReads(v, nodes[0], addresses[0], parse);
      var w := v.(addresses := v.addresses + [addresses[0]]);
      assert Rendered(nodes)[1..] == Rendered(nodes[1..]);
      if |w.addresses| <= MAXIMUM_HOPS { RenderedElements(w, nodes[1..], addresses[1..], parse); }
      assert w.addresses + addresses[1..] == v.addresses + addresses;
    }
  }

  /**
   A Forwarded header written with quoted nodes is read back as the addresses of those nodes, or
   refused for length when there are more than 64.
   */
  lemma ForwardedRoundTrip(nodes: seq<string>, addresses: seq<Address>, parse: string -> Option<Address>)
    requires nodes != [] && |nodes| == |addresses|
    requires forall i :: 0 <= i < |nodes| ==> ParseNode(nodes[i], parse) == Ok(addresses[i])
    ensures ForwardedValues(Join(Rendered(nodes), ','), parse) ==
              if |nodes| <= 64 then Ok(Values(addresses, None)) else Err(TooManyHops)
  {
    forall p | p in Rendered(nodes) ensures Clean(p, ',') && Trim(p) == p {
      var i :| 0 <= i < |nodes| && p == "for=" + Quote(nodes[i]);
      RenderedElement(nodes[i], ',');
    }
    SplitOfJoin(Rendered(nodes), ',');
    RenderedElements(NO_VALUES, nodes, addresses, parse);
    assert [] + addresses == addresses;
  }
}
