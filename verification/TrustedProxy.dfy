/**
 Who the client of a request is: the peer itself, or, behind a trusted proxy, the address its
 forwarding headers name.
 */
module TrustedProxy {
  import opened Common
  import opened Addresses
  import opened Strings
  import opened QuotedLists
  import opened ForwardedHeader

  datatype Field = Field(name: string, value: string)

  /** `address` is None when the peer's own text is no address; that text is then kept as it is. */
  datatype Client = Client(address: Option<Address>, secure: bool, forwarded: bool)

  function FieldsNamed(fields: seq<Field>, name: string): seq<string> {
    if fields == [] then []
    else if Lower(fields[0].name) == Lower(name) then [fields[0].value] + FieldsNamed(fields[1..], name)
    else FieldsNamed(fields[1..], name)
  }

  function HeaderValue(fields: seq<Field>, name: string): Parsed<string> {
    var values := FieldsNamed(fields, name);
    if |values| > 1 then Err(DuplicateHeader) else Ok(if values == [] then "" else values[0])
  }

  /** parse_forwarded_proto: only the first of several values counts. */
  function ForwardedProto(value: string): Parsed<Option<string>> {
    if value == "" then Ok(None)
    else
      var parts :- Split(value, ',');
      if parts == [] || parts[0] == "" then Err(EmptyProto)
      else if Lower(parts[0]) != "http" && Lower(parts[0]) != "https" then Err(InvalidProto)
      else Ok(Some(Lower(parts[0])))
  }

  /** Forwarded wins over X-Forwarded-For, which wins over X-Real-IP. */
  function ChainOf(forwarded: string, forwardedFor: string, realIp: string,
                   parse: string -> Option<Address>): Parsed<Values>
  {
    if forwarded != "" then ForwardedValues(forwarded, parse)
    else if forwardedFor != "" then
      var addresses :- ForwardedForValues(forwardedFor, parse);
      Ok(Values(addresses, None))
    else if realIp != "" then
      var a :- ParseToken(realIp, parse);
      Ok(Values([a], None))
    else Ok(NO_VALUES)
  }

  function Resolution(
    networks: seq<Network>, maxBytes: nat, peer: Option<Address>, fields: seq<Field>, directTls: bool,
    parse: string -> Option<Address>): Parsed<Client>
  {
    if peer.None? || !Trusted(networks, peer.value) then Ok(Client(peer, directTls, false))
    else
      var forwarded :- HeaderValue(fields, "Forwarded");
      var forwardedFor :- HeaderValue(fields, "X-Forwarded-For");
      var realIp :- HeaderValue(fields, "X-Real-IP");
      var proto :- HeaderValue(fields, "X-Forwarded-Proto");
      if |forwarded| + |forwardedFor| + |realIp| + |proto| > maxBytes then Err(HeadersTooLarge)
      else
        var values :- ChainOf(forwarded, forwardedFor, realIp, parse);
        var scheme :- if values.scheme.Some? then Ok(values.scheme) else ForwardedProto(proto);
        Ok(Client(
             if values.addresses == [] then peer else Some(ClientOf(networks, values.addresses)),
             if scheme.Some? then scheme.value == "https" else directTls,
             scheme.Some? || values.addresses != []))
  }

  class TrustedProxyResolver {
    const networks: seq<Network>
    const maxBytes: nat

    constructor (networks: seq<Network>, maxBytes: nat)
      requires maxBytes > 0
      ensures this.networks == networks && this.maxBytes == maxBytes
    {
      this.networks, this.maxBytes := networks, maxBytes;
    }

    method ReadHeader(fields: seq<Field>, name: string) returns (r: Parsed<string>)
      ensures r == HeaderValue(fields, name)
    {
      var result := None;
      for i := 0 to |fields|
        invariant FieldsNamed(fields, name)
               == (if result.Some? then [result.value] else []) + FieldsNamed(fields[i..], name)
      {
        assert fields[i..][0] == fields[i] && fields[i..][1..] == fields[i + 1..];
        if Lower(fields[i].name) == Lower(name) {
          if result.Some? { return Err(DuplicateHeader); }
          result := Some(fields[i].value);
        }
      }
      return Ok(if result.Some? then result.value else "");
    }

    method Resolve(peer: Option<Address>, fields: seq<Field>, directTls: bool, parse: string -> Option<Address>)
      returns (r: Parsed<Client>)
      ensures r == Resolution(networks, maxBytes, peer, fields, directTls, parse)
    {
      if peer.None? { return Ok(Client(peer, directTls, false)); }
      var trusted := IsTrusted(networks, peer.value);
      if !trusted { return Ok(Client(peer, directTls, false)); }
      var forwarded :- ReadHeader(fields, "Forwarded");
      var forwardedFor :- ReadHeader(fields, "X-Forwarded-For");
      var realIp :- ReadHeader(fields, "X-Real-IP");
      var proto :- ReadHeader(fields, "X-Forwarded-Proto");
      if |forwarded| + |forwardedFor| + |realIp| + |proto| > maxBytes { return Err(HeadersTooLarge); }
      var chain: seq<Address> := [];
      var scheme := None;
      if forwarded != "" {
        var values :- ParseForwarded(forwarded, parse);
        chain, scheme := values.addresses, values.scheme;
      } else if forwardedFor != "" {
        chain :- ParseForwardedFor(forwardedFor, parse);
      } else if realIp != "" {
        var a :- ParseToken(realIp, parse);
        chain := [a];
      }
      if scheme.None? { scheme :- ForwardedProto(proto); }
      var secure := if scheme.Some? then scheme.value == "https" else directTls;
      if chain == [] { return Ok(Client(peer, secure, scheme.Some?)); }
      var current := WalkChain(networks, peer.value, chain);
      return Ok(Client(Some(current), secure, true));
    }
  }

  /** The same letters, each in either case. */
  predicate SameName(a: string, b: string) {
    && |a| == |b|
    && forall i :: 0 <= i < |a| ==>
         || a[i] == b[i]
         || ('A' <= a[i] <= 'Z' && a[i] as int + 32 == b[i] as int)
         || ('A' <= b[i] <= 'Z' && b[i] as int + 32 == a[i] as int)
  }

  /** Fields are found by name whatever the case of its letters, all of them and in order. */
  lemma FieldsNamedAre(field: Field, rest: seq<Field>, name: string)
    ensures FieldsNamed([field] + rest, name) ==
              (if SameName(field.name, name) then [field.value] else []) + FieldsNamed(rest, name)
    ensures FieldsNamed([], name) == []
  {
    var fields := [field] + rest;
    assert fields[1..] == rest;
    var a, b := field.name, name;
    forall i | 0 <= i < |a| && |a| == |b|
      ensures LowerChar(a[i]) == LowerChar(b[i]) <==>
                a[i] == b[i] || ('A' <= a[i] <= 'Z' && a[i] as int + 32 == b[i] as int)
                || ('A' <= b[i] <= 'Z' && b[i] as int + 32 == a[i] as int)
    {
    }
    if Lower(a) == Lower(b) {
      assert |Lower(a)| == |a| && |Lower(b)| == |b|;
      assert forall i :: 0 <= i < |a| ==> Lower(a)[i] == LowerChar(a[i]) && Lower(b)[i] == LowerChar(b[i]);
    }
    if SameName(a, b) { assert Lower(a) == Lower(b); }
  }

  // ----- the client a Forwarded header names -----

  /** The fields of a request with this Forwarded header, besides others. */
  function WithForwarded(value: string, others: seq<Field>): seq<Field> { [Field("Forwarded", value)] + others }

  lemma ForwardedReads(value: string, others: seq<Field>)
    requires FieldsNamed(others, "Forwarded") == []
    ensures var fields := WithForwarded(value, others);
            && HeaderValue(fields, "Forwarded") == Ok(value)
            && HeaderValue(fields, "X-Forwarded-For") == HeaderValue(others, "X-Forwarded-For")
            && HeaderValue(fields, "X-Real-IP") == HeaderValue(others, "X-Real-IP")
            && HeaderValue(fields, "X-Forwarded-Proto") == HeaderValue(others, "X-Forwarded-Proto")
  {
    assert WithForwarded(value, others)[1..] == others;
    assert |Lower("Forwarded")| == 9 && |Lower("X-Forwarded-For")| == 15;
    assert |Lower("X-Forwarded-Proto")| == 17;
    assert Lower("Forwarded")[0] == 'f' && Lower("X-Real-IP")[0] == 'x';
  }

  /** Whether a request counts as secure, told from its first named scheme or else its connection. */
  function SecureBy(value: string, others: seq<Field>, directTls: bool): bool {
    match SchemeOf(value)
    case Some(scheme) => scheme == "https"
    case None =>
      match HeaderValue(others, "X-Forwarded-Proto")
      case Err(_) => directTls
      case Ok(proto) =>
        match ForwardedProto(proto)
        case Ok(Some(scheme)) => scheme == "https"
        case _ => directTls
  }

  lemma ResolutionOfForwarded(
    networks: seq<Network>, maxBytes: nat, peer: Address, value: string, others: seq<Field>, directTls: bool,
    parse: string -> Option<Address>)
    requires Trusted(networks, peer) && value != "" && FieldsNamed(others, "Forwarded") == []
    requires Resolution(networks, maxBytes, Some(peer), WithForwarded(value, others), directTls, parse).Ok?
    ensures ForwardedValues(value, parse).Ok? && ForwardedValues(value, parse).value.addresses != []
    ensures Resolution(networks, maxBytes, Some(peer), WithForwarded(value, others), directTls, parse)
         == Ok(Client(Some(ClientOf(networks, ForwardedValues(value, parse).value.addresses)),
                      SecureBy(value, others, directTls), true))
  {
    ForwardedReads(value, others);
    OneAddressPerElement(value, parse);
    ElementsScheme(NO_VALUES, Split(value, ',').value, parse);
    hide HeaderValue, ForwardedProto, Elements, Split, Trusted, FieldsNamed, WithForwarded;
  }

  /**
   Behind a trusted peer, an accepted Forwarded header resolves to the address of its rightmost
   element whose address is untrusted, or of its first element if all are trusted.
   */
  lemma ForwardedResolves(
    networks: seq<Network>, maxBytes: nat, peer: Address, value: string, others: seq<Field>, directTls: bool,
    parse: string -> Option<Address>, a: Address, i: nat)
    requires Trusted(networks, peer) && value != "" && FieldsNamed(others, "Forwarded") == []
    requires Resolution(networks, maxBytes, Some(peer), WithForwarded(value, others), directTls, parse).Ok?
    requires Split(value, ',').Ok? && i < |Split(value, ',').value| && Contributes(Split(value, ',').value[i], a, parse)
    requires i == 0 || !Trusted(networks, a)
    requires forall j, b :: i < j < |Split(value, ',').value| && Contributes(Split(value, ',').value[j], b, parse) ==>
               Trusted(networks, b)
    ensures Resolution(networks, maxBytes, Some(peer), WithForwarded(value, others), directTls, parse)
         == Ok(Client(Some(a), SecureBy(value, others, directTls), true))
  {
    ResolutionOfForwarded(networks, maxBytes, peer, value, others, directTls, parse);
    OneAddressPerElement(value, parse);
    hide Resolution, Split, ForwardedValues, Trusted;
    var es, chain := Split(value, ',').value, ForwardedValues(value, parse).value.addresses;
    assert Contributes(es[i], chain[i], parse);
    assert chain[i] == a;
    forall k | i < k < |chain| ensures Trusted(networks, chain[k]) { assert Contributes(es[k], chain[k], parse); }
    ClientIsRightmostUntrusted(networks, chain, i);
  }

  // ----- what a client puts in front -----

  /**
   A client may send any text before the part its trusted proxies append. The resolved address is
   that of the appended part alone as soon as this has an untrusted hop. Whether the request counts
   as secure is not: the first `proto` of the client's text decides, so it stays the same exactly
   when the client names no scheme or one that says the same.
   */
  lemma SpoofedHopsAreIgnored(
    networks: seq<Network>, maxBytes: nat, peer: Address, front: string, back: string, others: seq<Field>,
    directTls: bool, parse: string -> Option<Address>)
    requires Trusted(networks, peer) && back != "" && FieldsNamed(others, "Forwarded") == []
    requires Balanced(front) || '\\' !in back
    requires Resolution(networks, maxBytes, Some(peer), WithForwarded(front + [','] + back, others),
                        directTls, parse).Ok?
    requires Resolution(networks, maxBytes, Some(peer), WithForwarded(back, others), directTls, parse).Ok?
    requires ForwardedValues(back, parse).Ok? ==>
               exists i :: 0 <= i < |ForwardedValues(back, parse).value.addresses|
                 && !Trusted(networks, ForwardedValues(back, parse).value.addresses[i])
    ensures var long := Resolution(networks, maxBytes, Some(peer), WithForwarded(front + [','] + back, others),
                                   directTls, parse).value;
            var short := Resolution(networks, maxBytes, Some(peer), WithForwarded(back, others),
                                    directTls, parse).value;
            && long.address == short.address && long.forwarded == short.forwarded
            && short.secure == SecureBy(back, others, directTls)
            && (long.secure == short.secure <==>
                  SchemeOf(front) == None
                  || (SchemeOf(front) == Some("https")) == SecureBy(back, others, directTls))
  {
    hide Resolution, Trusted, SchemeOf, ForwardedValues, Balanced;
    ResolutionOfForwarded(networks, maxBytes, peer, front + [','] + back, others, directTls, parse);
    ResolutionOfForwarded(networks, maxBytes, peer, back, others, directTls, parse);
    AppendedElements(front, back, parse);
    AppendedScheme(front, back, parse);
    PrependingIsIgnored(networks, ForwardedValues(front, parse).value.addresses,
                        ForwardedValues(back, parse).value.addresses);
  }

  lemma AppendedScheme(front: string, back: string, parse: string -> Option<Address>)
    requires ForwardedValues(front + [','] + back, parse).Ok? && ForwardedValues(back, parse).Ok?
    requires Balanced(front) || '\\' !in back
    ensures SchemeOf(front + [','] + back) == if SchemeOf(front).Some? then SchemeOf(front) else SchemeOf(back)
  {
    AppendedElements(front, back, parse);
    ElementsScheme(NO_VALUES, Split(front + [','] + back, ',').value, parse);
  }

  // ----- X-Forwarded-For -----

  /** The fields of a request with this X-Forwarded-For header, besides others. */
  function WithForwardedFor(value: string, others: seq<Field>): seq<Field> {
    [Field("X-Forwarded-For", value)] + others
  }

  lemma ForwardedForReads(value: string, others: seq<Field>)
    requires FieldsNamed(others, "X-Forwarded-For") == []
    ensures var fields := WithForwardedFor(value, others);
            && HeaderValue(fields, "X-Forwarded-For") == Ok(value)
            && HeaderValue(fields, "Forwarded") == HeaderValue(others, "Forwarded")
            && HeaderValue(fields, "X-Real-IP") == HeaderValue(others, "X-Real-IP")
            && HeaderValue(fields, "X-Forwarded-Proto") == HeaderValue(others, "X-Forwarded-Proto")
  {
    assert WithForwardedFor(value, others)[1..] == others;
    assert |Lower("Forwarded")| == 9 && |Lower("X-Forwarded-For")| == 15;
    assert |Lower("X-Forwarded-Proto")| == 17 && |Lower("X-Real-IP")| == 9;
  }

  lemma ForAddresses(value: string, parse: string -> Option<Address>)
    requires ForwardedForValues(value, parse).Ok?
    ensures ForwardedForValues(value, parse).value != []
  {
    PiecesNonEmpty(PLAIN, "", value, ',');
    TrimAllIs(Pieces(value, ','));
    ForwardedForIs(value, parse, ForwardedForValues(value, parse).value);
  }

  /** Without a Forwarded header, X-Forwarded-For gives the address, and it never names a scheme. */
  lemma ResolutionOfForwardedFor(
    networks: seq<Network>, maxBytes: nat, peer: Address, value: string, others: seq<Field>, directTls: bool,
    parse: string -> Option<Address>)
    requires Trusted(networks, peer) && value != "" && FieldsNamed(others, "X-Forwarded-For") == []
    requires HeaderValue(others, "Forwarded") == Ok("")
    requires Resolution(networks, maxBytes, Some(peer), WithForwardedFor(value, others), directTls, parse).Ok?
    ensures ForwardedForValues(value, parse).Ok? && ForwardedForValues(value, parse).value != []
    ensures Resolution(networks, maxBytes, Some(peer), WithForwardedFor(value, others), directTls, parse)
         == Ok(Client(Some(ClientOf(networks, ForwardedForValues(value, parse).value)),
                      SecureBy("", others, directTls), true))
  {
    ForwardedForReads(value, others);
    if ForwardedForValues(value, parse).Ok? { ForAddresses(value, parse); }
    assert SchemeOf("") == None;
    hide HeaderValue, ForwardedProto, ForwardedForValues, Trusted, FieldsNamed, WithForwardedFor, SchemeOf;
  }

  /**
   With X-Forwarded-For nothing a client puts in front of the part its proxies append changes the
   resolution, the secure flag included, once that part has an untrusted hop and there is no
   Forwarded header.
   */
  lemma SpoofedForHopsAreIgnored(
    networks: seq<Network>, maxBytes: nat, peer: Address, front: string, back: string, others: seq<Field>,
    directTls: bool, parse: string -> Option<Address>)
    requires Trusted(networks, peer) && back != "" && FieldsNamed(others, "X-Forwarded-For") == []
    requires HeaderValue(others, "Forwarded") == Ok("")
    requires Balanced(front) || '\\' !in back
    requires Resolution(networks, maxBytes, Some(peer), WithForwardedFor(front + [','] + back, others),
                        directTls, parse).Ok?
    requires Resolution(networks, maxBytes, Some(peer), WithForwardedFor(back, others), directTls, parse).Ok?
    requires ForwardedForValues(back, parse).Ok? ==>
               exists i :: 0 <= i < |ForwardedForValues(back, parse).value|
                 && !Trusted(networks, ForwardedForValues(back, parse).value[i])
    ensures Resolution(networks, maxBytes, Some(peer), WithForwardedFor(front + [','] + back, others), directTls, parse)
         == Resolution(networks, maxBytes, Some(peer), WithForwardedFor(back, others), directTls, parse)
  {
    hide Resolution, Trusted, ForwardedForValues, Balanced, HeaderValue, SecureBy;
    ResolutionOfForwardedFor(networks, maxBytes, peer, front + [','] + back, others, directTls, parse);
    ResolutionOfForwardedFor(networks, maxBytes, peer, back, others, directTls, parse);
    AppendedAddresses(front, back, parse);
    PrependingIsIgnored(networks, ForwardedForValues(front, parse).value, ForwardedForValues(back, parse).value);
  }

  lemma ForwardedDisplaces(
    networks: seq<Network>, maxBytes: nat, peer: Address, x: string, y: string, others: seq<Field>, directTls: bool,
    parse: string -> Option<Address>)
    requires FieldsNamed(others, "X-Forwarded-For") == [] && HeaderValue(others, "Forwarded") != Ok("")
    requires Resolution(networks, maxBytes, Some(peer), WithForwardedFor(x, others), directTls, parse).Ok?
    requires Resolution(networks, maxBytes, Some(peer), WithForwardedFor(y, others), directTls, parse).Ok?
    ensures Resolution(networks, maxBytes, Some(peer), WithForwardedFor(x, others), directTls, parse)
         == Resolution(networks, maxBytes, Some(peer), WithForwardedFor(y, others), directTls, parse)
  {
    ForwardedForReads(x, others);
    ForwardedForReads(y, others);
    hide HeaderValue, ForwardedProto, ForwardedValues, Trusted, FieldsNamed, WithForwardedFor;
  }

  /**
   What a proxy writes into X-Forwarded-For decides if and only if the request has no Forwarded
   header: two values that name different clients are then told apart, and otherwise never.
   */
  lemma ForwardedForDecidesIff(
    networks: seq<Network>, maxBytes: nat, peer: Address, x: string, y: string, others: seq<Field>, directTls: bool,
    parse: string -> Option<Address>)
    requires Trusted(networks, peer) && x != "" && y != "" && FieldsNamed(others, "X-Forwarded-For") == []
    requires ForwardedForValues(x, parse).Ok? && ForwardedForValues(x, parse).value != []
    requires ForwardedForValues(y, parse).Ok? && ForwardedForValues(y, parse).value != []
    requires ClientOf(networks, ForwardedForValues(x, parse).value)
          != ClientOf(networks, ForwardedForValues(y, parse).value)
    requires Resolution(networks, maxBytes, Some(peer), WithForwardedFor(x, others), directTls, parse).Ok?
    requires Resolution(networks, maxBytes, Some(peer), WithForwardedFor(y, others), directTls, parse).Ok?
    ensures Resolution(networks, maxBytes, Some(peer), WithForwardedFor(x, others), directTls, parse)
         != Resolution(networks, maxBytes, Some(peer), WithForwardedFor(y, others), directTls, parse)
       <==> HeaderValue(others, "Forwarded") == Ok("")
  {
    hide Resolution, Trusted, ForwardedForValues, HeaderValue, SecureBy;
    if HeaderValue(others, "Forwarded") == Ok("") {
      ResolutionOfForwardedFor(networks, maxBytes, peer, x, others, directTls, parse);
      ResolutionOfForwardedFor(networks, maxBytes, peer, y, others, directTls, parse);
    } else {
      ForwardedDisplaces(networks, maxBytes, peer, x, y, others, directTls, parse);
    }
  }

  /** So a client whose proxies write X-Forwarded-For alone chooses its address by a Forwarded field of its own. */
  lemma OwnForwardedChooses(
    networks: seq<Network>, maxBytes: nat, peer: Address, node: string, a: Address, forwardedFor: string,
    directTls: bool, parse: string -> Option<Address>)
    requires Trusted(networks, peer) && ParseNode(node, parse) == Ok(a)
    requires |"for=" + Quote(node)| + |forwardedFor| <= maxBytes
    ensures Resolution(networks, maxBytes, Some(peer),
                       WithForwardedFor(forwardedFor, WithForwarded("for=" + Quote(node), [])), directTls, parse)
         == Ok(Client(Some(a), directTls, true))
  {
    var value := "for=" + Quote(node);
    OneRendered(node, a, parse);
    ForwardedReads(value, []);
    ForwardedForReads(forwardedFor, WithForwarded(value, []));
    assert HeaderValue([], "X-Real-IP") == Ok("") && HeaderValue([], "X-Forwarded-Proto") == Ok("");
    assert ForwardedProto("") == Ok(None) && ClientOf(networks, [a]) == a;
    hide HeaderValue, ForwardedProto, ForwardedValues, Trusted, FieldsNamed, WithForwardedFor, WithForwarded, Quote;
  }

  /** For instance Forwarded: for="6.6.6.6" beside X-Forwarded-For: 1.2.3.4, with and without the first. */
  lemma OwnForwardedChoosesInstance(
    networks: seq<Network>, maxBytes: nat, peer: Address, a: Address, b: Address, parse: string -> Option<Address>)
    requires Trusted(networks, peer) && parse("6.6.6.6") == Some(a) && parse("1.2.3.4") == Some(b)
    requires |"for=" + Quote("6.6.6.6")| + |"1.2.3.4"| <= maxBytes
    ensures Resolution(networks, maxBytes, Some(peer), WithForwardedFor("1.2.3.4", []), false, parse)
         == Ok(Client(Some(b), false, true))
    ensures Resolution(networks, maxBytes, Some(peer),
                       WithForwardedFor("1.2.3.4", WithForwarded("for=" + Quote("6.6.6.6"), [])), false, parse)
         == Ok(Client(Some(a), false, true))
  {
    hide Resolution, ParseNode, Quote, ForwardedForValues;
    DottedNode("6.6.6.6", a, parse);
    DottedNode("1.2.3.4", b, parse);
    OwnForwardedChooses(networks, maxBytes, peer, "6.6.6.6", a, "1.2.3.4", false, parse);
    OneToken(networks, maxBytes, peer, "1.2.3.4", b, parse);
  }

  lemma OneToken(
    networks: seq<Network>, maxBytes: nat, peer: Address, node: string, a: Address, parse: string -> Option<Address>)
    requires Trusted(networks, peer) && ParseNode(node, parse) == Ok(a) && |node| <= maxBytes
    requires node != "" && '"' !in node && ',' !in node && Trim(node) == node
    ensures Resolution(networks, maxBytes, Some(peer), WithForwardedFor(node, []), false, parse)
         == Ok(Client(Some(a), false, true))
  {
    PlainIsClean(node, ',');
    SplitOfJoin([node], ',');
    PlainUnquoted(node) by { assert node[0] in node; }
    assert Split(node, ',') == Ok([node]);
    assert ParseToken(node, parse) == Ok(a);
    ForwardedForIs(node, parse, [a]);
    ForwardedForReads(node, []);
    assert HeaderValue([], "Forwarded") == Ok("") && HeaderValue([], "X-Real-IP") == Ok("");
    assert HeaderValue([], "X-Forwarded-Proto") == Ok("") && ForwardedProto("") == Ok(None);
    assert ClientOf(networks, [a]) == a;
    hide HeaderValue, ForwardedProto, ForwardedForValues, Trusted, FieldsNamed, WithForwardedFor;
  }

  // ----- X-Forwarded-Proto and X-Real-IP -----

  /** The same letters, in either case; the word is in lower case. */
  predicate Spells(s: string, word: string) {
    && |s| == |word|
    && forall i :: 0 <= i < |s| ==> s[i] == word[i] || ('A' <= s[i] <= 'Z' && s[i] as int + 32 == word[i] as int)
  }

  lemma SpellsIff(s: string, word: string)
    requires forall c <- word :: 'a' <= c <= 'z'
    ensures Lower(s) == word <==> Spells(s, word)
  {
    forall i | 0 <= i < |s| && |s| == |word|
      ensures LowerChar(s[i]) == word[i] <==>
                s[i] == word[i] || ('A' <= s[i] <= 'Z' && s[i] as int + 32 == word[i] as int)
    {
      assert word[i] in word;
    }
    if Lower(s) == word { assert forall i :: 0 <= i < |s| ==> Lower(s)[i] == LowerChar(s[i]); }
  }

  /** What a field says before its first comma. */
  function FirstText(value: string): string { Trim(value[..IndexOf(value, ',')]) }

  lemma FirstPart(value: string)
    requires Balanced(value)
    ensures Split(value, ',').Ok? && Split(value, ',').value != []
    ensures var first := Split(value, ',').value[0];
            first == FirstText(value) || ('"' in first && '"' in FirstText(value))
  {
    FirstPiece("", value, ',');
    TrimAllIs(Pieces(value, ','));
    var before, piece := value[..IndexOf(value, ',')], Pieces(value, ',')[0];
    assert "" + before == before;
    if '"' in before {
      TrimKeeps(before, '"');
      TrimKeeps(piece, '"');
    }
  }

  lemma QuoteSpellsNothing(s: string)
    requires '"' in s
    ensures Lower(s) != "http" && Lower(s) != "https"
  {
    var i :| 0 <= i < |s| && s[i] == '"';
    assert |Lower(s)| == |s| && Lower(s)[i] == '"';
    assert '"' in Lower(s) && '"' !in "http" && '"' !in "https";
  }

  /** A value names a scheme exactly if it leaves no quote open and says http or https before its first comma. */
  lemma ProtoIs(value: string)
    requires value != ""
    ensures var first := FirstText(value);
            && (ForwardedProto(value) == Ok(Some("https")) <==> Balanced(value) && Spells(first, "https"))
            && (ForwardedProto(value) == Ok(Some("http")) <==> Balanced(value) && Spells(first, "http"))
            && (ForwardedProto(value).Ok? ==> ForwardedProto(value).value in {Some("http"), Some("https")})
  {
    SpellsIff(FirstText(value), "http");
    SpellsIff(FirstText(value), "https");
    if '"' in FirstText(value) { QuoteSpellsNothing(FirstText(value)); }
    if Balanced(value) {
      FirstPart(value);
      var first := Split(value, ',').value[0];
      if '"' in first { QuoteSpellsNothing(first); }
      assert first == "" ==> Lower(first) == "";
    }
    hide Split, Lower, FirstText, Spells, Balanced;
  }

  /** A request with one more field, of a name it does not have yet. */
  function WithField(name: string, value: string, others: seq<Field>): seq<Field> { [Field(name, value)] + others }

  lemma ProtoReadsFields(value: string, others: seq<Field>)
    requires FieldsNamed(others, "X-Forwarded-Proto") == []
    ensures var fields := WithField("X-Forwarded-Proto", value, others);
            && HeaderValue(fields, "X-Forwarded-Proto") == Ok(value)
            && HeaderValue(others, "X-Forwarded-Proto") == Ok("")
            && HeaderValue(fields, "Forwarded") == HeaderValue(others, "Forwarded")
            && HeaderValue(fields, "X-Forwarded-For") == HeaderValue(others, "X-Forwarded-For")
            && HeaderValue(fields, "X-Real-IP") == HeaderValue(others, "X-Real-IP")
  {
    assert WithField("X-Forwarded-Proto", value, others)[1..] == others;
    assert |Lower("Forwarded")| == 9 && |Lower("X-Forwarded-For")| == 15;
    assert |Lower("X-Forwarded-Proto")| == 17 && |Lower("X-Real-IP")| == 9;
  }

  /**
   Behind a trusted peer and without a Forwarded header, X-Forwarded-Proto decides whether the
   request counts as secure, whatever the connection is: it does exactly if the field says https
   before its first comma, in either case. A field that says neither http nor https is refused.
   */
  lemma ProtoDecidesIff(
    networks: seq<Network>, maxBytes: nat, peer: Address, value: string, others: seq<Field>, directTls: bool,
    parse: string -> Option<Address>)
    requires Trusted(networks, peer) && 0 < |value| <= maxBytes && FieldsNamed(others, "X-Forwarded-Proto") == []
    requires HeaderValue(others, "Forwarded") == Ok("")
    requires Resolution(networks, maxBytes - |value|, Some(peer), others, directTls, parse).Ok?
    ensures var fields := WithField("X-Forwarded-Proto", value, others);
            var with := Resolution(networks, maxBytes, Some(peer), fields, directTls, parse);
            var without := Resolution(networks, maxBytes - |value|, Some(peer), others, directTls, parse);
            && (with.Ok? <==>
                  Balanced(value) && (Spells(FirstText(value), "http") || Spells(FirstText(value), "https")))
            && (with.Ok? ==>
                  with.value == without.value.(secure := Spells(FirstText(value), "https"), forwarded := true))
  {
    ProtoReadsFields(value, others);
    ProtoIs(value);
    NotBoth(FirstText(value));
    assert ForwardedProto("") == Ok(None);
    hide HeaderValue, ForwardedProto, ForwardedValues, ForwardedForValues, ParseToken, Trusted, FieldsNamed, WithField,
      Spells, FirstText, Balanced, ClientOf;
  }

  lemma NotBoth(s: string)
    ensures !(Spells(s, "http") && Spells(s, "https"))
  {
  }

  lemma RealIpReads(value: string, others: seq<Field>)
    requires FieldsNamed(others, "X-Real-IP") == []
    ensures var fields := WithField("X-Real-IP", value, others);
            && HeaderValue(fields, "X-Real-IP") == Ok(value) && HeaderValue(others, "X-Real-IP") == Ok("")
            && HeaderValue(fields, "Forwarded") == HeaderValue(others, "Forwarded")
            && HeaderValue(fields, "X-Forwarded-For") == HeaderValue(others, "X-Forwarded-For")
            && HeaderValue(fields, "X-Forwarded-Proto") == HeaderValue(others, "X-Forwarded-Proto")
  {
    assert WithField("X-Real-IP", value, others)[1..] == others;
    assert |Lower("Forwarded")| == 9 && |Lower("X-Forwarded-For")| == 15;
    assert |Lower("X-Forwarded-Proto")| == 17 && |Lower("X-Real-IP")| == 9;
    assert Lower("Forwarded")[0] == 'f' && Lower("X-Real-IP")[0] == 'x';
  }

  /** X-Real-IP alone gives the address if it is one and is refused otherwise; it does not touch the secure flag. */
  lemma RealIpIff(
    networks: seq<Network>, maxBytes: nat, peer: Address, value: string, others: seq<Field>, directTls: bool,
    parse: string -> Option<Address>)
    requires Trusted(networks, peer) && 0 < |value| <= maxBytes && FieldsNamed(others, "X-Real-IP") == []
    requires HeaderValue(others, "Forwarded") == Ok("") && HeaderValue(others, "X-Forwarded-For") == Ok("")
    requires Resolution(networks, maxBytes - |value|, Some(peer), others, directTls, parse).Ok?
    ensures var fields := WithField("X-Real-IP", value, others);
            var with := Resolution(networks, maxBytes, Some(peer), fields, directTls, parse);
            var without := Resolution(networks, maxBytes - |value|, Some(peer), others, directTls, parse);
            && (with.Ok? <==> ParseToken(value, parse).Ok?)
            && (with.Ok? ==>
                  with.value ==
                    without.value.(address := Some(ParseToken(value, parse).value), forwarded := true))
  {
    RealIpReads(value, others);
    assert forall a :: ClientOf(networks, [a]) == a;
    hide HeaderValue, ForwardedProto, ForwardedValues, ForwardedForValues, ParseToken, Trusted, FieldsNamed, WithField,
      ClientOf;
  }

  lemma WithoutRealIp(value: string, others: seq<Field>, parse: string -> Option<Address>)
    ensures forall forwarded: string, forwardedFor: string :: forwarded != "" || forwardedFor != "" ==>
              ChainOf(forwarded, forwardedFor, value, parse) == ChainOf(forwarded, forwardedFor, "", parse)
  {
  }

  /** Beside either of the other two headers it counts for nothing. */
  lemma RealIpCountsLast(
    networks: seq<Network>, maxBytes: nat, peer: Address, value: string, others: seq<Field>, directTls: bool,
    parse: string -> Option<Address>)
    requires |value| <= maxBytes && FieldsNamed(others, "X-Real-IP") == []
    requires HeaderValue(others, "Forwarded") != Ok("") || HeaderValue(others, "X-Forwarded-For") != Ok("")
    requires Resolution(networks, maxBytes - |value|, Some(peer), others, directTls, parse).Ok?
    ensures Resolution(networks, maxBytes, Some(peer), WithField("X-Real-IP", value, others), directTls, parse)
         == Resolution(networks, maxBytes - |value|, Some(peer), others, directTls, parse)
  {
    hide HeaderValue, ForwardedProto, ForwardedValues, ForwardedForValues, ParseToken, Trusted, FieldsNamed, WithField,
      ClientOf, ChainOf;
    RealIpReads(value, others);
    WithoutRealIp(value, others, parse);
  }

  // ----- headers written out -----

  lemma PlainIsClean(s: string, d: char)
    requires '"' !in s && d !in s
    ensures Clean(s, d)
    decreases |s|
  {
    if s != "" {
      assert s[0] in s && forall c :: c in s[1..] ==> c in s;
      PlainIsClean(s[1..], d);
    }
  }

  /** A parameter whose value holds nothing special. */
  lemma PlainParameter(name: string, value: string)
    requires name != "" && value != "" && '=' !in name && Trim(name) == name && Trim(value) == value
    ensures var p := name + ['='] + value;
            WellFormedParameter(p) && NameOf(p) == Lower(name) && ValueOf(p) == value
  {
    var p := name + ['='] + value;
    IndexPast(name, '=', value);
    assert p[..|name|] == name && p[|name| + 1..] == value;
  }

  /** An element that names an address and a scheme. */
  function WithProto(node: string, scheme: string): string { "for=" + Quote(node) + [';'] + ("proto=" + scheme) }

  lemma ProtoSplits(node: string, scheme: string)
    requires scheme == "http" || scheme == "https"
    ensures var e := WithProto(node, scheme);
            && Clean(e, ',') && Trim(e) == e && e != ""
            && Split(e, ';') == Ok(["for=" + Quote(node), "proto=" + scheme])
  {
    var f, p := "for=" + Quote(node), "proto=" + scheme;
    RenderedElement(node, ';');
    RenderedElement(node, ',');
    PlainIsClean(p, ';');
    PlainIsClean(p, ',');
    PlainIsClean([';'], ',');
    assert f + [';'] + p == WithProto(node, scheme);
    assert Trim(p) == p && Trim(WithProto(node, scheme)) == WithProto(node, scheme);
    hide Quote, Clean, NoCut, Trim, Balanced;
    CleanConcat(f, [';'], ',');
    CleanConcat(f + [';'], p, ',');
    var ps := [f, p];
    assert ps[1..] == [p] && Join([p], ';') == p && Join(ps, ';') == f + [';'] + p;
    SplitOfJoin(ps, ';');
  }

  lemma ForReads(v: Values, node: string, a: Address, parse: string -> Option<Address>)
    requires ParseNode(node, parse) == Ok(a)
    ensures Parameter(v, false, "for=" + Quote(node), parse) == Ok((v.(addresses := v.addresses + [a]), true))
  {
    RenderedElement(node, ';');
    UnquoteQuote(node);
    assert Trim(Quote(node)) == Quote(node);
    hide Quote, ParseNode, NameOf, ValueOf, WellFormedParameter, Unquoted, Trim;
  }

  lemma ProtoReads(v: Values, scheme: string, parse: string -> Option<Address>)
    requires v.scheme == None && (scheme == "http" || scheme == "https")
    ensures Parameter(v, true, "proto=" + scheme, parse) == Ok((v.(scheme := Some(scheme)), true))
  {
    PlainParameter("proto", scheme);
    assert "proto=" + scheme == "proto" + ['='] + scheme && Lower("proto") == "proto" && Lower(scheme) == scheme;
    PlainUnquoted(scheme);
    hide NameOf, ValueOf, WellFormedParameter, Unquoted, Trim, Lower;
  }

  lemma TwoParameters(v: Values, p: string, q: string, w: Values, x: Values, parse: string -> Option<Address>)
    requires Parameter(v, false, p, parse) == Ok((w, true)) && Parameter(w, true, q, parse) == Ok((x, true))
    ensures Parameters(v, false, [p, q], parse) == Ok((x, true))
  {
    hide Parameter;
    assert [p, q][1..] == [q] && [q][1..] == [];
    assert Parameters(w, true, [q], parse) == Ok((x, true));
  }

  lemma PlainUnquoted(s: string)
    requires s != "" && s[0] != '"'
    ensures Unquoted(s) == Ok(s)
  {
  }

  /** An element with an address and a scheme, in front of one with an address only. */
  function SchemeInFront(spoofed: string, scheme: string, node: string): string {
    WithProto(spoofed, scheme) + [','] + ("for=" + Quote(node))
  }

  lemma OneRendered(node: string, a: Address, parse: string -> Option<Address>)
    requires ParseNode(node, parse) == Ok(a)
    ensures ForwardedValues("for=" + Quote(node), parse) == Ok(Values([a], None))
    ensures Split("for=" + Quote(node), ',') == Ok(["for=" + Quote(node)])
  {
    assert Rendered([node]) == ["for=" + Quote(node)];
    ForwardedRoundTrip([node], [a], parse);
    RenderedElement(node, ',');
    SplitOfJoin(["for=" + Quote(node)], ',');
  }

  lemma SchemeInFrontReads(spoofed: string, scheme: string, node: string, a: Address, b: Address,
                           parse: string -> Option<Address>)
    requires ParseNode(spoofed, parse) == Ok(a) && ParseNode(node, parse) == Ok(b)
    requires scheme == "http" || scheme == "https"
    ensures ForwardedValues(SchemeInFront(spoofed, scheme, node), parse) == Ok(Values([a, b], Some(scheme)))
    ensures SchemeInFront(spoofed, scheme, node) != "" && SchemeOf(SchemeInFront(spoofed, scheme, node)) == Some(scheme)
  {
    var e, f := WithProto(spoofed, scheme), "for=" + Quote(node);
    ProtoSplits(spoofed, scheme);
    ForReads(NO_VALUES, spoofed, a, parse);
    ProtoReads(Values([a], None), scheme, parse);
    assert NO_VALUES.(addresses := [] + [a]) == Values([a], None);
    TwoParameters(NO_VALUES, "for=" + Quote(spoofed), "proto=" + scheme, Values([a], None), Values([a], Some(scheme)),
                  parse);
    RenderedElement(node, ',');
    RenderedElementReads(Values([a], Some(scheme)), node, b, parse);
    hide Quote, Clean, NoCut, Trim, Balanced, Parameters, ParseNode;
    var es := [e, f];
    assert es[1..] == [f] && Join([f], ',') == f && Join(es, ',') == e + [','] + f;
    SplitOfJoin(es, ',');
    assert Element(NO_VALUES, e, parse) == Ok(Values([a], Some(scheme)));
    assert [f][1..] == [] && [a] + [b] == [a, b];
    assert Elements(Values([a], Some(scheme)), [f], parse) == Ok(Values([a, b], Some(scheme)));
    hide Element, Split;
    ElementsScheme(NO_VALUES, es, parse);
  }

  lemma ForwardedAlone(
    networks: seq<Network>, maxBytes: nat, peer: Address, value: string, directTls: bool,
    parse: string -> Option<Address>)
    requires Trusted(networks, peer) && value != "" && |value| <= maxBytes && ForwardedValues(value, parse).Ok?
    ensures ForwardedValues(value, parse).value.addresses != []
    ensures Resolution(networks, maxBytes, Some(peer), WithForwarded(value, []), directTls, parse)
         == Ok(Client(Some(ClientOf(networks, ForwardedValues(value, parse).value.addresses)),
                      SecureBy(value, [], directTls), true))
  {
    ForwardedReads(value, []);
    OneAddressPerElement(value, parse);
    ElementsScheme(NO_VALUES, Split(value, ',').value, parse);
    assert HeaderValue([], "X-Forwarded-For") == Ok("") && HeaderValue([], "X-Real-IP") == Ok("");
    assert HeaderValue([], "X-Forwarded-Proto") == Ok("") && ForwardedProto("") == Ok(None);
    hide HeaderValue, ForwardedProto, Elements, Split, Trusted, FieldsNamed, WithForwarded;
  }

  /**
   A client's own element decides the scheme: over a plain connection the request counts as secure
   with it and as insecure without it, and the client's address is the same either way.
   */
  lemma SchemeFlips(
    networks: seq<Network>, maxBytes: nat, peer: Address, spoofed: string, node: string, a: Address, b: Address,
    parse: string -> Option<Address>)
    requires Trusted(networks, peer) && !Trusted(networks, b)
    requires ParseNode(spoofed, parse) == Ok(a) && ParseNode(node, parse) == Ok(b)
    requires |SchemeInFront(spoofed, "https", node)| <= maxBytes
    ensures Resolution(networks, maxBytes, Some(peer), WithForwarded("for=" + Quote(node), []), false, parse)
         == Ok(Client(Some(b), false, true))
    ensures Resolution(networks, maxBytes, Some(peer), WithForwarded(SchemeInFront(spoofed, "https", node), []),
                       false, parse)
         == Ok(Client(Some(b), true, true))
  {
    var long, short := SchemeInFront(spoofed, "https", node), "for=" + Quote(node);
    OneRendered(node, b, parse);
    ElementsScheme(NO_VALUES, [short], parse);
    SchemeInFrontReads(spoofed, "https", node, a, b, parse);
    assert |short| <= |long|;
    assert HeaderValue([], "X-Forwarded-Proto") == Ok("") && ForwardedProto("") == Ok(None);
    hide Resolution, ParseNode, ForwardedValues, Quote, SchemeInFront, Trusted;
    ForwardedAlone(networks, maxBytes, peer, long, false, parse);
    ForwardedAlone(networks, maxBytes, peer, short, false, parse);
  }

  /** For instance for="6.6.6.6";proto=https,for="1.2.3.4" from behind a trusted plain connection. */
  lemma SchemeFlipsInstance(
    networks: seq<Network>, maxBytes: nat, peer: Address, a: Address, b: Address, parse: string -> Option<Address>)
    requires Trusted(networks, peer) && !Trusted(networks, b)
    requires parse("6.6.6.6") == Some(a) && parse("1.2.3.4") == Some(b)
    requires |SchemeInFront("6.6.6.6", "https", "1.2.3.4")| <= maxBytes
    ensures var (long, short) := (SchemeInFront("6.6.6.6", "https", "1.2.3.4"), "for=" + Quote("1.2.3.4"));
            && Resolution(networks, maxBytes, Some(peer), WithForwarded(short, []), false, parse)
               == Ok(Client(Some(b), false, true))
            && Resolution(networks, maxBytes, Some(peer), WithForwarded(long, []), false, parse)
               == Ok(Client(Some(b), true, true))
  {
    hide Resolution, ParseNode, SchemeInFront, Quote;
    DottedNode("6.6.6.6", a, parse);
    DottedNode("1.2.3.4", b, parse);
    SchemeFlips(networks, maxBytes, peer, "6.6.6.6", "1.2.3.4", a, b, parse);
  }

  lemma DottedNode(node: string, a: Address, parse: string -> Option<Address>)
    requires parse(node) == Some(a) && node != "" && forall c :: c in node ==> '0' <= c <= '9' || c == '.'
    ensures ParseNode(node, parse) == Ok(a)
  {
    forall i | 0 <= i < |node| ensures !IsControl(node[i]) { assert node[i] in node; }
    assert node[0] in node && Lower(node)[0] == node[0];
    assert "unknown"[0] == 'u' && ':' !in node;
    IndexNone(node, ':');
  }

  lemma {:induction false} PlainEscape(s: string)
    requires '"' !in s && '\\' !in s
    ensures Escape(s) == s
  {
    if s != "" {
      assert s[0] in s && forall c :: c in s[1..] ==> c in s;
      PlainEscape(s[1..]);
    }
  }

  // A quoted value left open in front of an appended part that has a backslash.

  predicate PlainNode(node: string) { '"' !in node && '\\' !in node && ',' !in node && ';' !in node }

  /** An appended element with an escaped quote: for="node";y="\"". */
  function WithEscape(node: string): string { "for=" + Quote(node) + [';'] + (['y'] + ['='] + Quote(['"'])) }

  /** A client's text that leaves a quoted value open: for="node";x=" */
  function OpenQuote(node: string): string { "for=" + Quote(node) + [';'] + (['x'] + ['='] + ['"']) }

  /**
   The condition on the client's text cannot be dropped: one that leaves a quoted value open can
   take in an appended part with a backslash, and the address is then its own.
   */
  lemma OpenQuoteTakesOver(
    networks: seq<Network>, maxBytes: nat, peer: Address, spoofed: string, node: string, a: Address, b: Address,
    parse: string -> Option<Address>)
    requires Trusted(networks, peer) && !Trusted(networks, b) && PlainNode(node)
    requires ParseNode(spoofed, parse) == Ok(a) && ParseNode(node, parse) == Ok(b)
    requires |OpenQuote(spoofed) + [','] + WithEscape(node)| <= maxBytes
    ensures !Balanced(OpenQuote(spoofed))
    ensures Resolution(networks, maxBytes, Some(peer), WithForwarded(WithEscape(node), []), false, parse)
         == Ok(Client(Some(b), false, true))
    ensures Resolution(networks, maxBytes, Some(peer), WithForwarded(OpenQuote(spoofed) + [','] + WithEscape(node), []),
                       false, parse)
         == Ok(Client(Some(a), false, true))
  {
    EscapeReads(node, b, parse);
    TakenOverReads(spoofed, node, a, parse);
    FrontIsOpen(spoofed);
    assert HeaderValue([], "X-Forwarded-Proto") == Ok("") && ForwardedProto("") == Ok(None);
    hide Resolution, ForwardedValues, SchemeOf, Trusted, WithEscape, OpenQuote, ParseNode, Balanced;
    ForwardedAlone(networks, maxBytes, peer, WithEscape(node), false, parse);
    ForwardedAlone(networks, maxBytes, peer, OpenQuote(spoofed) + [','] + WithEscape(node), false, parse);
  }

  lemma OtherReads(v: Values, name: char, value: string, parse: string -> Option<Address>)
    requires (name == 'x' || name == 'y') && value != "" && Trim(value) == value
    ensures Parameter(v, true, [name] + ['='] + value, parse) == Ok((v, true))
  {
    PlainParameter([name], value);
    assert Lower([name]) == [name] && [name] != "for" && [name] != "proto";
    hide NameOf, ValueOf, WellFormedParameter, Unquoted, Trim, Lower;
  }

  lemma OtherSplits(node: string, name: char, value: string)
    requires (name == 'x' || name == 'y') && value != "" && Trim(value) == value
    requires Clean([name] + ['='] + value, ';') && Clean([name] + ['='] + value, ',')
    ensures var (f, p) := ("for=" + Quote(node), [name] + ['='] + value);
            Split(f + [';'] + p, ';') == Ok([f, p]) && Split(f + [';'] + p, ',') == Ok([f + [';'] + p])
  {
    var f, p := "for=" + Quote(node), [name] + ['='] + value;
    var e := f + [';'] + p;
    RenderedElement(node, ';');
    RenderedElement(node, ',');
    PlainIsClean([';'], ',');
    TrimEnds(p, value);
    TrimEnds(e, value);
    hide Quote, Clean, NoCut, Trim, Balanced;
    CleanConcat(f, [';'], ',');
    CleanConcat(f + [';'], p, ',');
    var ps := [f, p];
    assert ps[1..] == [p] && Join([p], ';') == p && Join(ps, ';') == e && Join([e], ',') == e;
    SplitOfJoin(ps, ';');
    SplitOfJoin([e], ',');
  }

  /** A header of one element with two parameters. */
  lemma OneElement(e: string, p: string, q: string, v: Values, parse: string -> Option<Address>)
    requires e != "" && Split(e, ',') == Ok([e]) && Split(e, ';') == Ok([p, q])
    requires Parameters(NO_VALUES, false, [p, q], parse) == Ok((v, true)) && |v.addresses| <= MAXIMUM_HOPS
    ensures ForwardedValues(e, parse) == Ok(v) && SchemeOf(e) == v.scheme
  {
    hide Split, Parameters;
    assert [e][1..] == [];
    assert Elements(v, [], parse) == Ok(v);
    assert Elements(NO_VALUES, [e], parse) == Ok(v);
    ElementsScheme(NO_VALUES, [e], parse);
  }

  /** An element of a `for` and another parameter of one letter that means nothing. */
  lemma ForAndOther(node: string, name: char, value: string, a: Address, parse: string -> Option<Address>)
    requires ParseNode(node, parse) == Ok(a) && (name == 'x' || name == 'y') && value != "" && Trim(value) == value
    requires Clean([name] + ['='] + value, ';') && Clean([name] + ['='] + value, ',')
    ensures var e := "for=" + Quote(node) + [';'] + ([name] + ['='] + value);
            ForwardedValues(e, parse) == Ok(Values([a], None)) && SchemeOf(e) == None && e != ""
  {
    hide Quote, ParseNode, Clean, Trim, Split, Parameter, Parameters, ForwardedValues, SchemeOf;
    var f, p := "for=" + Quote(node), [name] + ['='] + value;
    OtherSplits(node, name, value);
    ForReads(NO_VALUES, node, a, parse);
    OtherReads(Values([a], None), name, value, parse);
    assert NO_VALUES.(addresses := [] + [a]) == Values([a], None);
    TwoParameters(NO_VALUES, f, p, Values([a], None), Values([a], None), parse);
    OneElement(f + [';'] + p, f, p, Values([a], None), parse);
  }

  lemma TrimEnds(s: string, tail: string)
    requires |s| > |tail| > 0 && s[|s| - |tail|..] == tail && Trim(tail) == tail && !IsSpace(s[0])
    ensures Trim(s) == s
  {
    assert s[|s| - 1] == tail[|tail| - 1];
    TrimmedEnd(tail);
  }

  lemma TrimmedEnd(s: string)
    requires s != "" && Trim(s) == s
    ensures !IsSpace(s[|s| - 1])
  {
    RightShorter(s);
    RightShorter(TrimLeft(s));
    LeftShorter(s);
  }

  lemma {:induction false} RightShorter(s: string)
    ensures |TrimRight(s)| <= |s| && (s != "" && IsSpace(s[|s| - 1]) ==> |TrimRight(s)| < |s|)
  {
    if s != "" && IsSpace(s[|s| - 1]) { RightShorter(s[..|s| - 1]); }
  }

  lemma {:induction false} LeftShorter(s: string)
    ensures |TrimLeft(s)| <= |s| && (|TrimLeft(s)| == |s| ==> TrimLeft(s) == s)
  {
    if s != "" && IsSpace(s[0]) { LeftShorter(s[1..]); }
  }

  lemma EscapeReads(node: string, b: Address, parse: string -> Option<Address>)
    requires ParseNode(node, parse) == Ok(b)
    ensures ForwardedValues(WithEscape(node), parse) == Ok(Values([b], None))
    ensures SchemeOf(WithEscape(node)) == None && WithEscape(node) != ""
  {
    var value := Quote(['"']);
    PlainIsClean(['y'] + ['='], ';');
    PlainIsClean(['y'] + ['='], ',');
    QuoteIsClean(['"'], ';');
    QuoteIsClean(['"'], ',');
    assert Trim(value) == value && value != "";
    hide Clean, Quote, ParseNode, Trim;
    CleanConcat(['y'] + ['='], value, ';');
    CleanConcat(['y'] + ['='], value, ',');
    ForAndOther(node, 'y', value, b, parse);
  }

  /** What the open quote makes of the rest: quoted and plain stretches in turn. */
  function Swallowed(node: string): string {
    Quote([','] + "for=") + (node + (Quote([';'] + (['y'] + ['='])) + (['\\'] + Quote(""))))
  }

  lemma SwallowedIsClean(node: string, d: char)
    requires PlainNode(node) && (d == ',' || d == ';')
    ensures Clean(['x'] + ['='] + Swallowed(node), d)
  {
    var tail := ['\\'] + Quote("");
    PlainIsClean(['x'] + ['='], d);
    PlainIsClean(node, d);
    PlainIsClean(['\\'], d);
    var y, f := [';'] + (['y'] + ['=']), [','] + "for=";
    QuoteIsClean(f, d);
    QuoteIsClean(y, d);
    QuoteIsClean("", d);
    hide Clean, Quote;
    CleanConcat(['\\'], Quote(""), d);
    CleanConcat(Quote(y), tail, d);
    CleanConcat(node, Quote(y) + tail, d);
    CleanConcat(Quote(f), node + (Quote(y) + tail), d);
    CleanConcat(['x'] + ['='], Swallowed(node), d);
  }

  lemma PlainQuote(s: string)
    requires '"' !in s && '\\' !in s
    ensures Quote(s) == ['"'] + s + ['"']
  {
    PlainEscape(s);
  }

  lemma SwallowedText(node: string)
    requires PlainNode(node)
    ensures Swallowed(node) == ['"'] + ([','] + WithEscape(node))
  {
    var y, f := [';'] + (['y'] + ['=']), [','] + "for=";
    PlainQuote(node);
    PlainQuote("");
    PlainQuote(y);
    PlainQuote(f);
    hide Quote;
    assert Quote("") == ['"'] + ['"'];
  }

  lemma SwallowedTrims(node: string)
    ensures Trim(Swallowed(node)) == Swallowed(node) && Swallowed(node) != ""
  {
    var s := Swallowed(node);
    assert s[0] == '"' && s[|s| - 1] == '"';
  }

  lemma OpenText(spoofed: string, node: string)
    requires PlainNode(node)
    ensures OpenQuote(spoofed) + [','] + WithEscape(node)
         == "for=" + Quote(spoofed) + [';'] + (['x'] + ['='] + Swallowed(node))
  {
    SwallowedText(node);
    hide Quote, Swallowed, WithEscape;
  }

  lemma TakenOverReads(spoofed: string, node: string, a: Address, parse: string -> Option<Address>)
    requires ParseNode(spoofed, parse) == Ok(a) && PlainNode(node)
    ensures var value := OpenQuote(spoofed) + [','] + WithEscape(node);
            ForwardedValues(value, parse) == Ok(Values([a], None)) && SchemeOf(value) == None && value != ""
  {
    hide Clean, Quote, ParseNode, ForwardedValues, SchemeOf, Swallowed, Trim, WithEscape, OpenQuote;
    SwallowedTrims(node);
    SwallowedIsClean(node, ',');
    SwallowedIsClean(node, ';');
    ForAndOther(spoofed, 'x', Swallowed(node), a, parse);
    OpenText(spoofed, node);
  }

  lemma FrontIsOpen(node: string)
    ensures !Balanced(OpenQuote(node))
  {
    var f, x := "for=" + Quote(node) + [';'], ['x'] + ['='];
    RenderedElement(node, ',');
    PlainIsClean([';'], ',');
    PlainIsClean(x, ',');
    CleanConcat("for=" + Quote(node), [';'], ',');
    CleanConcat(f, x, ',');
    assert OpenQuote(node) == f + x + ['"'];
    hide Quote, OpenQuote;
    ScanConcat(PLAIN, f + x, ['"'], ',');
  }

  // ----- rendered headers -----

  /** The fields of a request whose only forwarding header lists these nodes. */
  function ForwardedBy(nodes: seq<string>): seq<Field>
    requires nodes != []
  {
    WithForwarded(Join(Rendered(nodes), ','), [])
  }

  /**
   A header written from nodes, within the limits, is accepted and resolves to the rightmost
   untrusted of their addresses, or to the leftmost if all are trusted.
   */
  lemma RenderedResolves(
    networks: seq<Network>, maxBytes: nat, peer: Address, nodes: seq<string>, addresses: seq<Address>,
    directTls: bool, parse: string -> Option<Address>)
    requires Trusted(networks, peer) && 0 < |nodes| == |addresses| <= MAXIMUM_HOPS
    requires forall i :: 0 <= i < |nodes| ==> ParseNode(nodes[i], parse) == Ok(addresses[i])
    requires |Join(Rendered(nodes), ',')| <= maxBytes
    ensures Resolution(networks, maxBytes, Some(peer), ForwardedBy(nodes), directTls, parse)
         == Ok(Client(Some(ClientOf(networks, addresses)), directTls, true))
  {
    var value := Join(Rendered(nodes), ',');
    assert Rendered(nodes)[0][0] == 'f';
    ForwardedRoundTrip(nodes, addresses, parse);
    ElementsScheme(NO_VALUES, Split(value, ',').value, parse);
    assert HeaderValue([], "X-Forwarded-Proto") == Ok("") && ForwardedProto("") == Ok(None);
    hide Resolution, ParseNode, ForwardedValues;
    ForwardedAlone(networks, maxBytes, peer, value, directTls, parse);
  }

  predicate ForwardsNothing(fields: seq<Field>) {
    && FieldsNamed(fields, "Forwarded") == [] && FieldsNamed(fields, "X-Forwarded-For") == []
    && FieldsNamed(fields, "X-Real-IP") == [] && FieldsNamed(fields, "X-Forwarded-Proto") == []
  }

  /** A peer that is not trusted, or that forwards nothing, is the client itself, over its own connection. */
  lemma PeerIsClient(
    networks: seq<Network>, maxBytes: nat, peer: Option<Address>, fields: seq<Field>, directTls: bool,
    parse: string -> Option<Address>)
    requires peer.None? || !Trusted(networks, peer.value) || ForwardsNothing(fields)
    ensures Resolution(networks, maxBytes, peer, fields, directTls, parse) == Ok(Client(peer, directTls, false))
  {
    assert ForwardedProto("") == Ok(None);
    hide Trusted, HeaderValue, FieldsNamed, ForwardedProto, ForwardedValues, ForwardedForValues;
  }

  /** Whether forwarding headers are looked at at all depends on the peer, and on nothing else. */
  lemma HeadersMatterIffTrusted(
    networks: seq<Network>, maxBytes: nat, peer: Option<Address>, directTls: bool, parse: string -> Option<Address>)
    ensures (forall fields, others ::
               Resolution(networks, maxBytes, peer, fields, directTls, parse)
               == Resolution(networks, maxBytes, peer, others, directTls, parse)) <==>
              peer.None? || !Trusted(networks, peer.value)
  {
    hide Trusted;
    if peer.Some? && Trusted(networks, peer.value) {
      var twice := [Field("Forwarded", ""), Field("Forwarded", "")];
      assert twice[1..] == [Field("Forwarded", "")] && [Field("Forwarded", "")][1..] == [];
      assert HeaderValue(twice, "Forwarded") == Err(DuplicateHeader);
      assert Resolution(networks, maxBytes, peer, twice, directTls, parse).Err?;
      assert Resolution(networks, maxBytes, peer, [], directTls, parse).Ok?;
    }
  }
}
