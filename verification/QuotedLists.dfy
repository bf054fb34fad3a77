/**
 The lexical part of the forwarding headers, for the syntax of section 4 of RFC 7239: a quote-aware
 splitter and an unquoter, with the joining and quoting they invert.

 The splitter runs over a text once, keeping track of quotes and escapes; a text is balanced when
 it leaves no quote open. The theorems give its pieces for every balanced text, what text in front
 of another does to them, and what comes out of quoted strings.
 */
module QuotedLists {
  import opened Common
  import opened Strings

  type Parsed<+T> = Result<T, HeaderError>

  datatype HeaderError =
    | UnterminatedQuote | InvalidQuoted | InvalidEscape | UnescapedQuote | IncompleteEscape
    | EmptyElement | EmptyParameter | InvalidParameter | DuplicateFor | MissingFor | InvalidProto
    | InvalidAddress | Obfuscated | MissingBracket | InvalidSuffix | InvalidPort | TooManyHops
    | DuplicateHeader | HeadersTooLarge | EmptyProto

  // ----- trimming -----

  predicate IsSpace(c: char) { c == ' ' || c == '\t' || c == '\r' || c == '\n' }

  function TrimLeft(s: string): string {
    if s != "" && IsSpace(s[0]) then TrimLeft(s[1..]) else s
  }

  function TrimRight(s: string): string {
    if s != "" && IsSpace(s[|s| - 1]) then TrimRight(s[..|s| - 1]) else s
  }

  function Trim(s: string): string { TrimRight(TrimLeft(s)) }

  function TrimAll(parts: seq<string>): seq<string> {
    if parts == [] then [] else [Trim(parts[0])] + TrimAll(parts[1..])
  }

  // ----- the scanner -----

  datatype Scan = Scan(quoted: bool, escaped: bool)

  const PLAIN := Scan(false, false)
  const QUOTED := Scan(true, false)

  function Next(st: Scan, c: char): Scan {
    if st.escaped then st.(escaped := false)
    else if st.quoted && c == '\\' then st.(escaped := true)
    else if c == '"' then st.(quoted := !st.quoted)
    else st
  }

  function ScanAll(st: Scan, s: string): Scan
    decreases |s|
  {
    if s == "" then st else ScanAll(Next(st, s[0]), s[1..])
  }

  /** No quoted value is left open. */
  predicate Balanced(s: string) { ScanAll(PLAIN, s) == PLAIN }

  predicate Cuts(st: Scan, c: char, d: char) { st == PLAIN && c != '"' && c == d }

  /** The untrimmed pieces of `piece + s`, of which `piece` has been scanned. */
  function PiecesFrom(st: Scan, piece: string, s: string, d: char): seq<string>
    decreases |s|
  {
    if s == "" then [piece]
    else if Cuts(st, s[0], d) then [piece] + PiecesFrom(st, "", s[1..], d)
    else PiecesFrom(Next(st, s[0]), piece + [s[0]], s[1..], d)
  }

  function Pieces(s: string, d: char): seq<string> { PiecesFrom(PLAIN, "", s, d) }

  function Split(s: string, d: char): Parsed<seq<string>> {
    if Balanced(s) then Ok(TrimAll(Pieces(s, d))) else Err(UnterminatedQuote)
  }

  /** split_top_level. */
  method SplitTopLevel(value: string, delimiter: char) returns (r: Parsed<seq<string>>)
    ensures r == Split(value, delimiter)
  {
    var parts: seq<string> := [];
    var start := 0;
    var quoted, escaped := false, false;
    assert value[0..] == value && value[0..0] == "";
    for index := 0 to |value|
      invariant start <= index && (escaped ==> quoted)
      invariant ScanAll(PLAIN, value) == ScanAll(Scan(quoted, escaped), value[index..])
      invariant TrimAll(Pieces(value, delimiter))
             == parts + TrimAll(PiecesFrom(Scan(quoted, escaped), value[start..index], value[index..], delimiter))
    {
      var character := value[index];
      assert value[index..][1..] == value[index + 1..];
      assert value[start..index] + [character] == value[start..index + 1];
      if escaped {
        escaped := false;
        continue;
      }
      if quoted && character == '\\' {
        escaped := true;
        continue;
      }
      if character == '"' {
        quoted := !quoted;
        continue;
      }
      if !quoted && character == delimiter {
        ghost var rest := PiecesFrom(PLAIN, "", value[index + 1..], delimiter);
        assert ([value[start..index]] + rest)[1..] == rest;
        parts := parts + [Trim(value[start..index])];
        start := index + 1;
        assert value[start..index + 1] == "";
      }
    }
    assert value[|value|..] == "" && value[start..|value|] == value[start..];
    if quoted || escaped { return Err(UnterminatedQuote); }
    parts := parts + [Trim(value[start..])];
    assert TrimAll([value[start..]]) == [Trim(value[start..])];
    return Ok(parts);
  }

  // ----- splitting and joining are inverse -----

  /** Scanning s from st meets no top-level delimiter. */
  predicate NoCut(st: Scan, s: string, d: char)
    decreases |s|
  {
    s == "" || (!Cuts(st, s[0], d) && NoCut(Next(st, s[0]), s[1..], d))
  }

  /** What a piece of a balanced string is: balanced itself, with no delimiter outside quotes. */
  predicate Clean(s: string, d: char) { Balanced(s) && NoCut(PLAIN, s, d) }

  lemma {:induction false} ScanConcat(st: Scan, a: string, b: string, d: char)
    ensures ScanAll(st, a + b) == ScanAll(ScanAll(st, a), b)
    ensures NoCut(st, a + b, d) <==> NoCut(st, a, d) && NoCut(ScanAll(st, a), b, d)
    decreases |a|
  {
    if a == "" {
      assert a + b == b;
    } else {
      assert (a + b)[0] == a[0] && (a + b)[1..] == a[1..] + b;
      ScanConcat(Next(st, a[0]), a[1..], b, d);
    }
  }

  lemma ScanOne(st: Scan, c: char, d: char)
    ensures ScanAll(st, [c]) == Next(st, c) && (NoCut(st, [c], d) <==> !Cuts(st, c, d))
  {
    assert [c][1..] == "";
    assert ScanAll(Next(st, c), "") == Next(st, c);
  }

  lemma {:induction false} PiecesNonEmpty(st: Scan, piece: string, s: string, d: char)
    ensures PiecesFrom(st, piece, s, d) != []
    decreases |s|
  {
    if s != "" && !Cuts(st, s[0], d) { PiecesNonEmpty(Next(st, s[0]), piece + [s[0]], s[1..], d); }
  }

  lemma {:induction false} JoinPiecesFrom(st: Scan, piece: string, s: string, d: char)
    ensures PiecesFrom(st, piece, s, d) != [] && Join(PiecesFrom(st, piece, s, d), d) == piece + s
    decreases |s|
  {
    PiecesNonEmpty(st, piece, s, d);
    if s != "" {
      if Cuts(st, s[0], d) {
        var rest := PiecesFrom(st, "", s[1..], d);
        JoinPiecesFrom(st, "", s[1..], d);
        assert ([piece] + rest)[1..] == rest;
        assert s == [d] + s[1..];
      } else {
        JoinPiecesFrom(Next(st, s[0]), piece + [s[0]], s[1..], d);
        assert piece + [s[0]] + s[1..] == piece + s;
      }
    }
  }

  lemma {:induction false} PiecesAreClean(st: Scan, piece: string, s: string, d: char)
    requires NoCut(PLAIN, piece, d) && ScanAll(PLAIN, piece) == st && ScanAll(st, s) == PLAIN
    ensures forall p :: p in PiecesFrom(st, piece, s, d) ==> Clean(p, d)
    decreases |s|
  {
    if s != "" {
      if Cuts(st, s[0], d) {
        PiecesAreClean(PLAIN, "", s[1..], d);
      } else {
        ScanConcat(PLAIN, piece, [s[0]], d);
        PiecesAreClean(Next(st, s[0]), piece + [s[0]], s[1..], d);
      }
    }
  }

  /** The scanner walks through a piece without cutting. */
  lemma {:induction false} PiecesThrough(st: Scan, piece: string, p: string, rest: string, d: char)
    requires NoCut(st, p, d)
    ensures PiecesFrom(st, piece, p + rest, d) == PiecesFrom(ScanAll(st, p), piece + p, rest, d)
    decreases |p|
  {
    if p == "" {
      assert p + rest == rest && piece + p == piece;
    } else {
      assert (p + rest)[0] == p[0] && (p + rest)[1..] == p[1..] + rest;
      PiecesThrough(Next(st, p[0]), piece + [p[0]], p[1..], rest, d);
      assert piece + [p[0]] + p[1..] == piece + p;
    }
  }

  lemma {:induction false} PiecesOfJoin(parts: seq<string>, d: char)
    requires parts != [] && d != '"' && forall p :: p in parts ==> Clean(p, d)
    ensures Pieces(Join(parts, d), d) == parts && Balanced(Join(parts, d))
  {
    var p := parts[0];
    assert p in parts && forall q :: q in parts[1..] ==> q in parts;
    if |parts| == 1 {
      PiecesThrough(PLAIN, "", p, "", d);
      assert p + "" == p && "" + p == p && parts == [p];
    } else {
      var rest := Join(parts[1..], d);
      PiecesOfJoin(parts[1..], d);
      assert Join(parts, d) == p + ([d] + rest);
      PiecesThrough(PLAIN, "", p, [d] + rest, d);
      assert "" + p == p && ([d] + rest)[1..] == rest && parts == [p] + parts[1..];
      ScanConcat(PLAIN, p, [d] + rest, d);
      ScanConcat(PLAIN, [d], rest, d);
      ScanOne(PLAIN, d, d);
    }
  }

  /**
   Splitting and joining are inverse: a balanced string is exactly the join of its pieces, its
   pieces are balanced and free of top-level delimiters, and no other list of such pieces joins to
   it.
   */
  lemma SplitInvertsJoin(s: string, parts: seq<string>, d: char)
    requires d != '"' && Balanced(s)
    ensures Pieces(s, d) == parts <==>
              parts != [] && (forall p :: p in parts ==> Clean(p, d)) && Join(parts, d) == s
  {
    JoinPiecesFrom(PLAIN, "", s, d);
    assert "" + s == s;
    PiecesAreClean(PLAIN, "", s, d);
    if parts != [] && (forall p :: p in parts ==> Clean(p, d)) && Join(parts, d) == s {
      PiecesOfJoin(parts, d);
    }
  }

  // ----- text put in front -----

  lemma {:induction false} PiecesOfFront(st: Scan, piece: string, front: string, back: string, d: char)
    requires ScanAll(st, front) == PLAIN && d != '"'
    ensures PiecesFrom(st, piece, front + [d] + back, d) == PiecesFrom(st, piece, front, d) + Pieces(back, d)
    decreases |front|
  {
    var s := front + [d] + back;
    if front == "" {
      assert s == [d] + back && s[1..] == back;
    } else {
      assert s[0] == front[0] && s[1..] == front[1..] + [d] + back;
      if Cuts(st, front[0], d) {
        PiecesOfFront(PLAIN, "", front[1..], back, d);
        var left, right := PiecesFrom(PLAIN, "", front[1..], d), Pieces(back, d);
        assert [piece] + (left + right) == [piece] + left + right;
      } else {
        PiecesOfFront(Next(st, front[0]), piece + [front[0]], front[1..], back, d);
      }
    }
  }

  /**
   In an accepted text with a balanced tail, the tail's pieces are the last ones and the text in
   front of it gives the others, exactly when that text leaves no quoted value open.
   */
  lemma FrontSplitsOffIff(front: string, back: string, d: char)
    requires d != '"' && Balanced(back) && Balanced(front + [d] + back)
    ensures Pieces(front + [d] + back, d) == Pieces(front, d) + Pieces(back, d) <==> Balanced(front)
  {
    var s := front + [d] + back;
    if Balanced(front) {
      PiecesOfFront(PLAIN, "", front, back, d);
    } else if Pieces(s, d) == Pieces(front, d) + Pieces(back, d) {
      PiecesAreClean(PLAIN, "", s, d);
      forall p | p in Pieces(front, d) ensures Clean(p, d) { assert p in Pieces(s, d); }
      JoinPiecesFrom(PLAIN, "", front, d);
      assert "" + front == front;
      PiecesOfJoin(Pieces(front, d), d);
    }
  }

  lemma {:induction false} PieceGrows(st: Scan, piece: string, s: string, d: char)
    ensures PiecesFrom(st, piece, s, d) != [] && piece <= PiecesFrom(st, piece, s, d)[0]
    decreases |s|
  {
    if s != "" && !Cuts(st, s[0], d) { PieceGrows(Next(st, s[0]), piece + [s[0]], s[1..], d); }
  }

  /** The first piece is the text before the first delimiter, unless that text has a quote in it. */
  lemma {:induction false} FirstPiece(piece: string, s: string, d: char)
    requires d != '"'
    ensures PiecesFrom(PLAIN, piece, s, d) != []
    ensures var before := s[..IndexOf(s, d)];
            if '"' in before then '"' in PiecesFrom(PLAIN, piece, s, d)[0]
            else PiecesFrom(PLAIN, piece, s, d)[0] == piece + before
    decreases |s|
  {
    PieceGrows(PLAIN, piece, s, d);
    if s != "" && s[0] != d {
      var c, rest := s[0], s[1..];
      assert s[..IndexOf(s, d)] == [c] + rest[..IndexOf(rest, d)];
      if c == '"' {
        PieceGrows(Next(PLAIN, c), piece + [c], rest, d);
        assert (piece + [c])[|piece|] == '"';
      } else {
        FirstPiece(piece + [c], rest, d);
        assert piece + [c] + rest[..IndexOf(rest, d)] == piece + ([c] + rest[..IndexOf(rest, d)]);
      }
    }
  }

  lemma {:induction false} TrimKeeps(s: string, c: char)
    requires c in s && !IsSpace(c)
    ensures c in Trim(s)
  {
    LeftTrimKeeps(s, c);
    RightTrimKeeps(TrimLeft(s), c);
  }

  lemma {:induction false} LeftTrimKeeps(s: string, c: char)
    requires c in s && !IsSpace(c)
    ensures c in TrimLeft(s)
  {
    if IsSpace(s[0]) { LeftTrimKeeps(s[1..], c); }
  }

  lemma {:induction false} RightTrimKeeps(s: string, c: char)
    requires c in s && !IsSpace(c)
    ensures c in TrimRight(s)
  {
    if IsSpace(s[|s| - 1]) {
      assert s == s[..|s| - 1] + [s[|s| - 1]];
      RightTrimKeeps(s[..|s| - 1], c);
    }
  }

  function Flipped(st: Scan): Scan { st.(quoted := !st.quoted) }

  // Without backslashes a text does to quoted text what it does to plain text.
  lemma {:induction false} FlipScan(st: Scan, s: string)
    requires '\\' !in s && !st.escaped
    ensures ScanAll(Flipped(st), s) == Flipped(ScanAll(st, s)) && !ScanAll(st, s).escaped
    decreases |s|
  {
    if s != "" {
      assert s[0] in s && forall c :: c in s[1..] ==> c in s;
      FlipScan(Next(st, s[0]), s[1..]);
    }
  }

  /** A balanced tail without backslashes cannot close a quoted value left open before it. */
  lemma PlainTailMeansBalancedFront(front: string, back: string, d: char)
    requires d != '"' && d != '\\' && '\\' !in back && Balanced(back) && Balanced(front + [d] + back)
    ensures Balanced(front)
  {
    ScanConcat(PLAIN, front + [d], back, d);
    ScanConcat(PLAIN, front, [d], d);
    EscapedInQuotes(PLAIN, front);
    FlipScan(PLAIN, back);
  }

  lemma {:induction false} TrimAllConcat(a: seq<string>, b: seq<string>)
    ensures TrimAll(a + b) == TrimAll(a) + TrimAll(b)
  {
    if a == [] {
      assert a + b == b;
    } else {
      assert (a + b)[0] == a[0] && (a + b)[1..] == a[1..] + b;
      TrimAllConcat(a[1..], b);
    }
  }

  lemma SplitFront(front: string, back: string, d: char)
    requires d != '"' && Balanced(front) && Balanced(back)
    ensures Split(front + [d] + back, d) == Ok(Split(front, d).value + Split(back, d).value)
  {
    PiecesOfFront(PLAIN, "", front, back, d);
    TrimAllConcat(Pieces(front, d), Pieces(back, d));
    ScanConcat(PLAIN, front + [d], back, d);
    ScanConcat(PLAIN, front, [d], d);
  }

  lemma CleanConcat(a: string, b: string, d: char)
    requires Clean(a, d) && Clean(b, d)
    ensures Clean(a + b, d)
  {
    ScanConcat(PLAIN, a, b, d);
  }

  // ----- trimming keeps a piece balanced -----

  lemma {:induction false} LeftTrimBalanced(s: string)
    requires Balanced(s)
    ensures Balanced(TrimLeft(s))
  {
    if s != "" && IsSpace(s[0]) { LeftTrimBalanced(s[1..]); }
  }

  // A backslash is only ever pending inside quotes.
  lemma {:induction false} EscapedInQuotes(st: Scan, s: string)
    requires st.escaped ==> st.quoted
    ensures ScanAll(st, s).escaped ==> ScanAll(st, s).quoted
    decreases |s|
  {
    if s != "" { EscapedInQuotes(Next(st, s[0]), s[1..]); }
  }

  lemma {:induction false} RightTrimBalanced(s: string)
    requires Balanced(s)
    ensures Balanced(TrimRight(s))
  {
    if s != "" && IsSpace(s[|s| - 1]) {
      var front, c := s[..|s| - 1], s[|s| - 1];
      assert s == front + [c];
      ScanConcat(PLAIN, front, [c], c);
      EscapedInQuotes(PLAIN, front);
      RightTrimBalanced(front);
    }
  }

  lemma {:induction false} TrimAllIs(parts: seq<string>)
    ensures |TrimAll(parts)| == |parts| && forall i :: 0 <= i < |parts| ==> TrimAll(parts)[i] == Trim(parts[i])
  {
    if parts != [] { TrimAllIs(parts[1..]); }
  }

  /**
   Whatever a header value splits into on one delimiter can be split again on another: the inner
   split never meets an unterminated quoted value.
   */
  lemma InnerSplitNeverFails(value: string, outer: char, inner: char, i: nat)
    requires outer != '"' && Split(value, outer).Ok? && i < |Split(value, outer).value|
    ensures Split(Split(value, outer).value[i], inner).Ok?
  {
    var parts := Pieces(value, outer);
    TrimAllIs(parts);
    SplitInvertsJoin(value, parts, outer);
    assert parts[i] in parts;
    LeftTrimBalanced(parts[i]);
    RightTrimBalanced(TrimLeft(parts[i]));
  }

  // ----- quoting -----

  function Escape(s: string): string {
    if s == "" then ""
    else (if s[0] == '\\' || s[0] == '"' then ['\\', s[0]] else [s[0]]) + Escape(s[1..])
  }

  /** The quoted-string of RFC 7239 section 4 with this content. */
  function Quote(s: string): string { "\"" + Escape(s) + "\"" }

  function Prefixed(c: char, r: Parsed<string>): Parsed<string> {
    match r case Ok(t) => Ok([c] + t) case Err(e) => Err(e)
  }

  function Unescape(s: string): Parsed<string> {
    if s == "" then Ok("")
    else if s[0] == '\\' then
      if |s| == 1 then Err(IncompleteEscape)
      else if s[1] != '\\' && s[1] != '"' then Err(InvalidEscape)
      else Prefixed(s[1], Unescape(s[2..]))
    else if s[0] == '"' then Err(UnescapedQuote)
    else Prefixed(s[0], Unescape(s[1..]))
  }

  predicate IsQuoted(v: string) { v != "" && v[0] == '"' }

  function Unquoted(v: string): Parsed<string> {
    if !IsQuoted(v) then Ok(v)
    else if |v| < 2 || v[|v| - 1] != '"' then Err(InvalidQuoted)
    else Unescape(v[1..|v| - 1])
  }

  function Prepended(s: string, r: Parsed<string>): Parsed<string> {
    match r case Ok(t) => Ok(s + t) case Err(e) => Err(e)
  }

  lemma PrependedPrefixed(s: string, c: char, r: Parsed<string>)
    ensures Prepended(s, Prefixed(c, r)) == Prepended(s + [c], r)
  {
    match r { case Ok(t) => assert s + ([c] + t) == s + [c] + t; case Err(_) => }
  }

  /** unquote: the escape flag carried round the loop reads the same as looking one character ahead. */
  method Unquote(value: string) returns (r: Parsed<string>)
    ensures r == Unquoted(value)
  {
    if value == "" || value[0] != '"' { return Ok(value); }
    if |value| < 2 || value[|value| - 1] != '"' { return Err(InvalidQuoted); }
    var result := "";
    var escaped := false;
    ghost var content := value[1..|value| - 1];
    var index := 1;
    match Unescape(content) { case Ok(t) => assert "" + t == t; case Err(_) => }
    assert content[0..] == content && Prepended("", Unescape(content)) == Unescape(content);
    while index + 1 < |value|
      invariant 1 <= index <= |value| - 1 && (escaped ==> index > 1 && content[index - 2] == '\\')
      invariant Unescape(content) == Prepended(result, Unescape(content[if escaped then index - 2 else index - 1..]))
    {
      var character := value[index];
      ghost var from := if escaped then index - 2 else index - 1;
      assert character == content[index - 1];
      assert content[from..][1..] == content[from + 1..];
      PrependedPrefixed(result, character, Unescape(content[index..]));
      if escaped {
        assert content[from..][2..] == content[index..] && content[from..][1] == character;
        if character != '\\' && character != '"' { return Err(InvalidEscape); }
        result := result + [character];
        escaped := false;
      } else if character == '\\' {
        escaped := true;
      } else if character == '"' {
        return Err(UnescapedQuote);
      } else {
        result := result + [character];
      }
      index := index + 1;
    }
    if escaped {
      assert |content[index - 2..]| == 1;
      return Err(IncompleteEscape);
    }
    assert content[index - 1..] == "" && result + "" == result;
    return Ok(result);
  }

  lemma {:induction false} UnescapeEscape(s: string)
    ensures Unescape(Escape(s)) == Ok(s)
  {
    if s != "" {
      UnescapeEscape(s[1..]);
      var head := if s[0] == '\\' || s[0] == '"' then ['\\', s[0]] else [s[0]];
      assert (head + Escape(s[1..]))[|head|..] == Escape(s[1..]);
      assert [s[0]] + s[1..] == s;
    }
  }

  lemma {:induction false} EscapeUnescape(v: string)
    requires Unescape(v).Ok?
    ensures Escape(Unescape(v).value) == v
    decreases |v|
  {
    if v != "" {
      var n := if v[0] == '\\' then 2 else 1;
      EscapeUnescape(v[n..]);
      var s := Unescape(v).value;
      assert s[1..] == Unescape(v[n..]).value;
      assert v == v[..n] + v[n..];
    }
  }

  lemma UnquoteQuote(s: string)
    ensures Unquoted(Quote(s)) == Ok(s)
  {
    assert Quote(s)[1..|Quote(s)| - 1] == Escape(s);
    UnescapeEscape(s);
  }

  /** Quoting is a bijection onto the quoted values that are accepted. */
  lemma QuoteBijection(v: string, s: string)
    requires IsQuoted(v)
    ensures Unquoted(v) == Ok(s) <==> v == Quote(s)
  {
    hide Escape, Unescape;
    UnquoteQuote(s);
    if Unquoted(v) == Ok(s) {
      EscapeUnescape(v[1..|v| - 1]);
      assert v == [v[0]] + v[1..|v| - 1] + [v[|v| - 1]];
    }
  }

  lemma {:induction false} EscapeStaysQuoted(s: string, d: char)
    ensures ScanAll(QUOTED, Escape(s)) == QUOTED && NoCut(QUOTED, Escape(s), d)
  {
    if s != "" {
      var c := s[0];
      EscapeStaysQuoted(s[1..], d);
      if c == '\\' || c == '"' {
        var inside := Scan(true, true);
        ScanConcat(QUOTED, ['\\', c], Escape(s[1..]), d);
        assert ['\\', c] == ['\\'] + [c];
        ScanConcat(QUOTED, ['\\'], [c], d);
      } else {
        ScanConcat(QUOTED, [c], Escape(s[1..]), d);
      }
    }
  }

  lemma QuoteIsClean(s: string, d: char)
    ensures Clean(Quote(s), d)
  {
    EscapeStaysQuoted(s, d);
    ScanConcat(PLAIN, "\"" + Escape(s), "\"", d);
    ScanConcat(PLAIN, "\"", Escape(s), d);
  }

  function QuoteAll(ss: seq<string>): (r: seq<string>)
    ensures |r| == |ss|
  {
    seq(|ss|, i requires 0 <= i < |ss| => Quote(ss[i]))
  }

  // Parts that neither begin nor end in white space are left alone by the trimming.
  lemma {:induction false} TrimAllSame(parts: seq<string>)
    requires forall p :: p in parts ==> Trim(p) == p
    ensures TrimAll(parts) == parts
  {
    TrimAllIs(parts);
  }

  lemma SplitOfJoin(parts: seq<string>, d: char)
    requires parts != [] && d != '"' && forall p :: p in parts ==> Clean(p, d) && Trim(p) == p
    ensures Split(Join(parts, d), d) == Ok(parts)
  {
    PiecesOfJoin(parts, d);
    TrimAllSame(parts);
  }

  /** Joining any non-empty list of quoted strings and splitting gives the list back. */
  lemma QuotedListRoundTrip(ss: seq<string>, d: char)
    requires ss != [] && d != '"'
    ensures Split(Join(QuoteAll(ss), d), d) == Ok(QuoteAll(ss))
    ensures forall i :: 0 <= i < |ss| ==> Unquoted(QuoteAll(ss)[i]) == Ok(ss[i])
  {
    forall i | 0 <= i < |ss|
      ensures Clean(QuoteAll(ss)[i], d) && Trim(QuoteAll(ss)[i]) == QuoteAll(ss)[i]
      ensures Unquoted(QuoteAll(ss)[i]) == Ok(ss[i])
    {
      QuoteIsClean(ss[i], d);
      UnquoteQuote(ss[i]);
    }
    SplitOfJoin(QuoteAll(ss), d);
  }
}
