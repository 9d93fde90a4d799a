/**
 * How the HTTP server reads a request: the request line's method and path,
 * the header block (`ParseHeaders`), the query string of the search
 * endpoints with its percent-decoding, and the validation of `q`, `limit`
 * and `offset`.
 */
module HttpParse {
  import opened Wrappers
  import opened Strings
  import HeaderMap

  // ---- the request line ----

  /** The number of leading non-whitespace characters. */
  function WordLength(s: string): (n: nat)
    ensures n <= |s|
    ensures forall i :: 0 <= i < n ==> !IsSpace(s[i])
    ensures n < |s| ==> IsSpace(s[n])
  {
    if |s| > 0 && !IsSpace(s[0]) then 1 + WordLength(s[1..]) else 0
  }

  /**
   * One `>> std::string` extraction: skips whitespace, takes the word that
   * follows, and leaves the rest of the stream. When only whitespace is
   * left the word is empty (the extraction fails and the target keeps its
   * empty value).
   */
  function NextWord(s: string): (r: (string, string))
    ensures forall i :: 0 <= i < |r.0| ==> !IsSpace(r.0[i])
    ensures |r.0| + |r.1| <= |s|
    ensures s[|s| - |r.0| - |r.1|..] == r.0 + r.1
    ensures forall i :: 0 <= i < |s| - |r.0| - |r.1| ==> IsSpace(s[i])
    ensures |r.1| > 0 ==> IsSpace(r.1[0])
    ensures r.0 == "" <==> forall i :: 0 <= i < |s| ==> IsSpace(s[i])
  {
    var t := SkipSpace(s);
    var n := WordLength(t);
    var r := if n == 0 then ("", t) else (t[..n], t[n..]);
    NextWordFacts(s, t, n, r);
    r
  }

  /** The contract of `NextWord`, for the skipped text `t` and its word length `n`. */
  lemma NextWordFacts(s: string, t: string, n: nat, r: (string, string))
    requires |t| <= |s| && t == s[|s| - |t|..]
    requires (|t| > 0 ==> !IsSpace(t[0])) && forall i :: 0 <= i < |s| - |t| ==> IsSpace(s[i])
    requires n <= |t| && (n < |t| ==> IsSpace(t[n])) && forall i :: 0 <= i < n ==> !IsSpace(t[i])
    requires r == if n == 0 then ("", t) else (t[..n], t[n..])
    ensures forall i :: 0 <= i < |r.0| ==> !IsSpace(r.0[i])
    ensures |r.0| + |r.1| <= |s|
    ensures s[|s| - |r.0| - |r.1|..] == r.0 + r.1
    ensures forall i :: 0 <= i < |s| - |r.0| - |r.1| ==> IsSpace(s[i])
    ensures |r.1| > 0 ==> IsSpace(r.1[0])
    ensures r.0 == "" <==> forall i :: 0 <= i < |s| ==> IsSpace(s[i])
  {
    if n == 0 {
      if |t| > 0 {
        assert false;
      }
    } else {
      SliceSplit(t, n);
      assert s[|s| - |t|] == t[0];
    }
  }

  /** `iss >> method >> path`: the first two words of the request. */
  function RequestLine(request: string): (r: (string, string))
    ensures forall i :: 0 <= i < |r.0| ==> !IsSpace(r.0[i])
    ensures forall i :: 0 <= i < |r.1| ==> !IsSpace(r.1[i])
    ensures r.0 == "" ==> r.1 == ""
  {
    var first := NextWord(request);
    if first.0 == "" then ("", "") else (first.0, NextWord(first.1).0)
  }

  /** The leading word of `w + rest` is `w`, when `rest` is empty or starts with whitespace. */
  lemma {:induction false} WordLengthOf(w: string, rest: string)
    requires forall i :: 0 <= i < |w| ==> !IsSpace(w[i])
    requires |rest| > 0 ==> IsSpace(rest[0])
    ensures WordLength(w + rest) == |w|
  {
    if |w| > 0 {
      assert (w + rest)[1..] == w[1..] + rest;
      WordLengthOf(w[1..], rest);
    } else {
      assert w + rest == rest;
    }
  }

  /** Reading a word preceded by `blanks` and followed by whitespace or nothing. */
  lemma NextWordOf(blanks: string, w: string, rest: string)
    requires forall i :: 0 <= i < |blanks| ==> IsSpace(blanks[i])
    requires |w| > 0 && forall i :: 0 <= i < |w| ==> !IsSpace(w[i])
    requires |rest| > 0 ==> IsSpace(rest[0])
    ensures NextWord(blanks + w + rest) == (w, rest)
  {
    assert blanks + w + rest == blanks + (w + rest);
    SkipSpaceOver(blanks, w + rest);
    WordLengthOf(w, rest);
    assert (w + rest)[..|w|] == w && (w + rest)[|w|..] == rest;
  }

  /**
   * A request line `method path ...` as a client writes it reads back as
   * its method and its path, whatever follows the path.
   */
  lemma RequestLineReadsWords(verb: string, path: string, rest: string)
    requires |verb| > 0 && forall i :: 0 <= i < |verb| ==> !IsSpace(verb[i])
    requires |path| > 0 && forall i :: 0 <= i < |path| ==> !IsSpace(path[i])
    requires |rest| > 0 ==> IsSpace(rest[0])
    ensures RequestLine(verb + " " + path + rest) == (verb, path)
  {
    var after := " " + path + rest;
    assert verb + " " + path + rest == "" + verb + after;
    NextWordOf("", verb, after);
    assert after == " " + path + rest;
    NextWordOf(" ", path, rest);
  }

  // ---- the header block ----

  function StripCR(line: string): (r: string)
    ensures |line| > 0 && line[|line| - 1] == '\r' ==> line == r + "\r"
    ensures !(|line| > 0 && line[|line| - 1] == '\r') ==> r == line
  {
    if |line| > 0 && line[|line| - 1] == '\r' then line[..|line| - 1] else line
  }

  predicate IsBlank(c: char) {
    c == ' ' || c == '\t'
  }

  /** The number of leading spaces and tabs. */
  function BlankRun(s: string): (n: nat)
    ensures n <= |s|
    ensures forall i :: 0 <= i < n ==> IsBlank(s[i])
    ensures n < |s| ==> !IsBlank(s[n])
  {
    if |s| > 0 && IsBlank(s[0]) then 1 + BlankRun(s[1..]) else 0
  }

  /**
   * A header value after `find_first_not_of(" \t")`: leading blanks are cut,
   * except that a value made only of blanks is kept as it is.
   */
  function TrimValue(v: string): (r: string)
    ensures |r| <= |v| && r == v[|v| - |r|..]
    ensures forall i :: 0 <= i < |v| - |r| ==> IsBlank(v[i])
    ensures (exists i :: 0 <= i < |v| && !IsBlank(v[i])) ==> |r| > 0 && !IsBlank(r[0])
    ensures (forall i :: 0 <= i < |v| ==> IsBlank(v[i])) ==> r == v
  {
    var n := BlankRun(v);
    if n == |v| then v else v[n..]
  }

  /**
   * One header line: the trailing `\r` is dropped, a line with no `:` is
   * skipped, the key is everything before the first `:` (untrimmed) and
   * the value everything after it, with leading blanks trimmed.
   */
  function ParseHeaderLine(line: string): (r: Option<(string, string)>)
    ensures r.None? <==> ':' !in StripCR(line)
    ensures r.Some? ==>
      var l := StripCR(line);
      ':' !in r.value.0 && |r.value.0| < |l| && l[..|r.value.0|] == r.value.0 && l[|r.value.0|] == ':'
      && r.value.1 == TrimValue(l[|r.value.0| + 1..])
  {
    var l := StripCR(line);
    match IndexOf(l, ':')
    case None => None
    case Some(c) => Some((l[..c], TrimValue(l[c + 1..])))
  }

  /** A line that ends the header block: empty, or a lone `\r`. */
  predicate EndsBlock(line: string) {
    line == "" || line == "\r"
  }

  /** The header lines: the lines up to (not including) the first that ends the block. */
  function HeaderLines(lines: seq<string>): (r: seq<string>)
    ensures |r| <= |lines| && r == lines[..|r|]
    ensures forall i :: 0 <= i < |r| ==> !EndsBlock(r[i])
    ensures |r| < |lines| ==> EndsBlock(lines[|r|])
  {
    if |lines| == 0 || EndsBlock(lines[0]) then [] else [lines[0]] + HeaderLines(lines[1..])
  }

  function ApplyLine(m: HeaderMap.Map, line: string): (r: HeaderMap.Map)
    ensures HeaderMap.Ordered(m) ==> HeaderMap.Ordered(r)
  {
    match ParseHeaderLine(line)
    case None => m
    case Some(kv) => HeaderMap.Insert(m, kv.0, kv.1)
  }

  /** The map after storing each line in turn. */
  function FoldHeaders(m: HeaderMap.Map, lines: seq<string>): (r: HeaderMap.Map)
    ensures HeaderMap.Ordered(m) ==> HeaderMap.Ordered(r)
    decreases |lines|
  {
    if |lines| == 0 then m else FoldHeaders(ApplyLine(m, lines[0]), lines[1..])
  }

  /** What `ParseHeaders` returns: every header line after the request line, stored in order. */
  function HeadersOf(request: string): HeaderMap.Map {
    var lines := Split(request, '\n');
    if |lines| == 0 then [] else FoldHeaders([], HeaderLines(lines[1..]))
  }

  /** The body of `ParseHeaders`' loop for one header line. */
  method StoreHeaderLine(headers: HeaderMap.Map, line: string) returns (r: HeaderMap.Map)
    ensures r == ApplyLine(headers, line)
  {
    var l := DropCR(line);
    r := headers;
    match IndexOf(l, ':') {
      case Some(colon) =>
        var key := l[..colon];
        var value := SkipBlanks(l[colon + 1..]);
        ApplyLineAt(headers, line, l, colon);
        r := HeaderMap.Insert(headers, key, value);
      case None =>
        ApplyLineWithoutColon(headers, line, l);
    }
  }

  /** A line whose first `:` is at `colon` stores the text before it under the trimmed text after it. */
  lemma ApplyLineAt(m: HeaderMap.Map, line: string, l: string, colon: nat)
    requires l == StripCR(line) && IndexOf(l, ':') == Some(colon)
    ensures colon < |l|
    ensures ApplyLine(m, line) == HeaderMap.Insert(m, l[..colon], TrimValue(l[colon + 1..]))
  {
    assert ParseHeaderLine(line) == Some((l[..colon], TrimValue(l[colon + 1..])));
  }

  /** A line without `:` leaves the map as it is. */
  lemma ApplyLineWithoutColon(m: HeaderMap.Map, line: string, l: string)
    requires l == StripCR(line) && IndexOf(l, ':') == None
    ensures ApplyLine(m, line) == m
  {
  }

  /** The line without its trailing `\r`, if it has one. */
  method DropCR(line: string) returns (l: string)
    ensures l == StripCR(line)
  {
    l := line;
    if |l| > 0 && l[|l| - 1] == '\r' {
      l := l[..|l| - 1];
    }
  }

  /** The value from its first character that is not a blank, or all of it when it is only blanks. */
  method SkipBlanks(value: string) returns (v: string)
    ensures v == TrimValue(value)
  {
    v := value;
    var start := BlankRun(value);
    if start < |value| {
      v := value[start..];
    }
  }

  lemma HeaderLinesStep(lines: seq<string>, i: nat)
    requires i < |lines| && !EndsBlock(lines[i])
    ensures HeaderLines(lines[i..]) == [lines[i]] + HeaderLines(lines[i + 1..])
  {
    assert lines[i..][1..] == lines[i + 1..];
  }

  /**
   * `ParseHeaders`: reads the request line by line, skips the first, and
   * stores each header line until the end of the block.
   */
  method ParseHeaders(request: string) returns (headers: HeaderMap.Map)
    ensures headers == HeadersOf(request)
  {
    var lines := Split(request, '\n');
    headers := [];
    if |lines| == 0 {
      return;
    }
    var i := 1;
    while i < |lines|
      invariant 1 <= i <= |lines|
      invariant FoldHeaders(headers, HeaderLines(lines[i..])) == HeadersOf(request)
    {
      var line := lines[i];
      if line == "" || line == "\r" {
        assert HeaderLines(lines[i..]) == [];
        return;
      }
      HeaderLinesStep(lines, i);
      headers := StoreHeaderLine(headers, line);
      i := i + 1;
    }
    assert lines[i..] == [];
  }

  /** The headers come out in `std::map` order, each key once. */
  lemma HeadersOrdered(request: string)
    ensures HeaderMap.Ordered(HeadersOf(request))
    ensures var h := HeadersOf(request);
            forall i, j :: 0 <= i < j < |h| ==> h[i].0 != h[j].0
  {
    assert HeaderMap.Ordered([]);
    HeaderMap.OrderedUniqueKeys(HeadersOf(request));
  }

  /**
   * The value the last line for `key` gives, if any line does: an
   * independent account of which header line wins.
   */
  function LastFor(lines: seq<string>, key: string): Option<string> {
    if |lines| == 0 then None
    else
      var later := LastFor(lines[1..], key);
      if later.Some? then later
      else match ParseHeaderLine(lines[0])
        case Some(kv) => if kv.0 == key then Some(kv.1) else None
        case None => None
  }

  /** A repeated header keeps the value of its last line; one no line gives keeps its old value. */
  lemma {:induction false} FoldHeadersLookup(m: HeaderMap.Map, lines: seq<string>, key: string)
    ensures HeaderMap.Lookup(FoldHeaders(m, lines), key)
            == if LastFor(lines, key).Some? then LastFor(lines, key) else HeaderMap.Lookup(m, key)
    decreases |lines|
  {
    if |lines| > 0 {
      FoldHeadersLookup(ApplyLine(m, lines[0]), lines[1..], key);
    }
  }

  /**
   * The header a request carries under `key` is the value of the last header
   * line for that key before the end of the block; with no such line it is
   * absent.
   */
  lemma HeaderIsLastLine(request: string, key: string)
    ensures var lines := Split(request, '\n');
            HeaderMap.Lookup(HeadersOf(request), key)
            == if |lines| == 0 then None else LastFor(HeaderLines(lines[1..]), key)
  {
    var lines := Split(request, '\n');
    if |lines| > 0 {
      FoldHeadersLookup([], HeaderLines(lines[1..]), key);
    }
  }

  // ---- percent-decoding ----

  /** `static_cast<char>` of an `int`: its low byte. */
  function ByteChar(v: int): (c: char)
    ensures c as int < 256
  {
    (v % 256) as char
  }

  /**
   * The `decode` lambda from position `i`: `%` with two characters after it
   * becomes the byte `strtol` reads from those two (0 when they are not
   * hexadecimal), `+` becomes a space, anything else is copied.
   */
  function DecodeFrom(s: string, i: nat): (r: string)
    requires i <= |s|
    ensures |r| <= |s| - i
    decreases |s| - i
  {
    if i == |s| then ""
    else if s[i] == '%' && i + 2 < |s| then [ByteChar(StrtolHex([s[i + 1], s[i + 2]]))] + DecodeFrom(s, i + 3)
    else if s[i] == '+' then " " + DecodeFrom(s, i + 1)
    else [s[i]] + DecodeFrom(s, i + 1)
  }

  /** The decoded text; never longer than the input. */
  function PercentDecoded(s: string): (r: string)
    ensures |r| <= |s|
  {
    DecodeFrom(s, 0)
  }

  /** The `decode` lambda. */
  method Decode(input: string) returns (out: string)
    ensures out == PercentDecoded(input)
  {
    out := "";
    var i := 0;
    while i < |input|
      invariant 0 <= i <= |input|
      invariant out + DecodeFrom(input, i) == PercentDecoded(input)
      decreases |input| - i
    {
      var piece, next := DecodeAt(input, i);
      AppendAssoc(out, piece, DecodeFrom(input, next));
      out, i := out + piece, next;
    }
  }

  /**
   * One pass of the `decode` loop at index `i`: the text it appends (the
   * byte an escape names, a space for `+`, or the character itself) and
   * the index it moves on to.
   */
  method DecodeAt(input: string, i: nat) returns (piece: string, next: nat)
    requires i < |input|
    ensures next == if input[i] == '%' && i + 2 < |input| then i + 3 else i + 1
    ensures next <= |input| && |piece| == 1
    ensures DecodeFrom(input, i) == piece + DecodeFrom(input, next)
  {
    if input[i] == '%' && i + 2 < |input| {
      var hex := [input[i + 1], input[i + 2]];
      var v := StrtolHex(hex);
      piece, next := [ByteChar(v)], i + 3;
    } else if input[i] == '+' {
      piece, next := " ", i + 1;
    } else {
      piece, next := [input[i]], i + 1;
    }
  }

  /** What `decode` writes for a character that does not start an escape. */
  function PlainChar(c: char): char {
    if c == '+' then ' ' else c
  }

  /** Text without `%` decodes character for character: `+` to a space, everything else kept. */
  lemma {:induction false} DecodeWithoutPercent(s: string, i: nat)
    requires i <= |s| && forall j :: i <= j < |s| ==> s[j] != '%'
    ensures |DecodeFrom(s, i)| == |s| - i
    ensures forall k :: 0 <= k < |s| - i ==> DecodeFrom(s, i)[k] == PlainChar(s[i + k])
    decreases |s| - i
  {
    if i < |s| {
      DecodeWithoutPercent(s, i + 1);
      DecodePlainStep(s, i);
      PlainCons(s, i, DecodeFrom(s, i), DecodeFrom(s, i + 1));
    }
  }

  lemma DecodePlainStep(s: string, i: nat)
    requires i < |s| && s[i] != '%'
    ensures DecodeFrom(s, i) == [PlainChar(s[i])] + DecodeFrom(s, i + 1)
  {
  }

  /** The induction step of `DecodeWithoutPercent`, over plain strings. */
  lemma PlainCons(s: string, i: nat, r: string, t: string)
    requires i < |s| && r == [PlainChar(s[i])] + t && |t| == |s| - i - 1
    requires forall k :: 0 <= k < |s| - (i + 1) ==> t[k] == PlainChar(s[i + 1 + k])
    ensures |r| == |s| - i
    ensures forall k :: 0 <= k < |s| - i ==> r[k] == PlainChar(s[i + k])
  {
    forall k | 0 <= k < |s| - i
      ensures r[k] == PlainChar(s[i + k])
    {
      if k > 0 {
        assert r[k] == t[k - 1];
        assert i + 1 + (k - 1) == i + k;
      }
    }
  }

  /**
   * A `%` with fewer than two characters after it is copied, not read as an
   * escape; the character after it, if any, is decoded on its own.
   */
  lemma DecodeShortEscape(s: string, i: nat)
    requires i < |s| && s[i] == '%' && i + 2 >= |s|
    ensures DecodeFrom(s, i) == ['%'] + (if i + 1 < |s| then [PlainChar(s[i + 1])] else "")
  {
    if i + 1 < |s| {
      assert DecodeFrom(s, i + 2) == "";
      assert DecodeFrom(s, i + 1) == [PlainChar(s[i + 1])] + DecodeFrom(s, i + 2);
    }
  }

  predicate IsBytes(s: string) {
    forall i :: 0 <= i < |s| ==> s[i] as int < 256
  }

  /** Characters a query value may carry as they are (the unreserved set of section 2.3 of RFC 3986). */
  predicate IsUnreserved(c: char) {
    IsDigit(c) || 'a' <= c <= 'z' || 'A' <= c <= 'Z' || c == '-' || c == '_' || c == '.' || c == '~'
  }

  /** A client's encoding of a byte: unreserved bytes as they are, every other as `%XX`. */
  function EncodeByte(c: char): string
    requires c as int < 256
  {
    if IsUnreserved(c) then [c] else ['%', HexUpper(c as int / 16), HexUpper(c as int % 16)]
  }

  function PercentEncode(s: string): string
    requires IsBytes(s)
  {
    if |s| == 0 then "" else EncodeByte(s[0]) + PercentEncode(s[1..])
  }

  /** Decoding from `k` is decoding the text from `k` on. */
  lemma {:induction false} DecodeShift(t: string, k: nat)
    requires k <= |t|
    ensures DecodeFrom(t, k) == DecodeFrom(t[k..], 0)
    decreases |t| - k
  {
    if k < |t| {
      var u := t[k..];
      var step := if t[k] == '%' && k + 2 < |t| then 3 else 1;
      assert u[step..] == t[k + step..];
      DecodeShift(t, k + step);
      DecodeShift(u, step);
    }
  }

  /** An escape `%XX` decodes to the byte it names. */
  lemma DecodeEscape(t: string, c: char)
    requires c as int < 256 && |t| >= 3 && t[0] == '%'
    requires t[1] == HexUpper(c as int / 16) && t[2] == HexUpper(c as int % 16)
    ensures DecodeFrom(t, 0) == [c] + DecodeFrom(t[3..], 0)
  {
    EscapeNamesByte(t[1], t[2], c);
    DecodeShift(t, 3);
  }

  /** The two upper-case hexadecimal digits of a byte read back by `strtol` give the byte. */
  lemma EscapeNamesByte(a: char, b: char, c: char)
    requires c as int < 256 && a == HexUpper(c as int / 16) && b == HexUpper(c as int % 16)
    ensures ByteChar(StrtolHex([a, b])) == c
  {
    StrtolHexPair(a, b);
    ByteCharOfDigits(StrtolHex([a, b]), c, HexDigitValue(a), HexDigitValue(b));
  }

  lemma ByteCharOfDigits(n: int, c: char, hi: nat, lo: nat)
    requires c as int < 256 && hi == c as int / 16 && lo == c as int % 16 && n == 16 * hi + lo
    ensures ByteChar(n) == c
  {
    assert n == c as int;
  }

  /** A byte that is neither `%` nor `+` decodes to itself. */
  lemma DecodePlain(t: string)
    requires |t| > 0 && t[0] != '%' && t[0] != '+'
    ensures DecodeFrom(t, 0) == [t[0]] + DecodeFrom(t[1..], 0)
  {
    DecodeShift(t, 1);
  }

  lemma DecodeEncodedByte(c: char, rest: string)
    requires c as int < 256
    ensures DecodeFrom(EncodeByte(c) + rest, 0) == [c] + DecodeFrom(rest, 0)
  {
    var t := EncodeByte(c) + rest;
    if IsUnreserved(c) {
      assert t[0] == c && t[1..] == rest;
      DecodePlain(t);
    } else {
      assert t[3..] == rest;
      DecodeEscape(t, c);
    }
  }

  /** Decoding undoes a client's percent-encoding of any byte string. */
  lemma {:induction false} DecodeEncode(s: string)
    requires IsBytes(s)
    ensures PercentDecoded(PercentEncode(s)) == s
  {
    if |s| > 0 {
      DecodeEncode(s[1..]);
      DecodeEncodedByte(s[0], PercentEncode(s[1..]));
      assert [s[0]] + s[1..] == s;
    }
  }

  // ---- the query string ----

  /** The text after the first `?` of the path, or empty when it has none. */
  function QueryString(path: string): (qs: string)
    ensures '?' in path ==> |qs| < |path| && qs == path[|path| - |qs|..] && path[|path| - |qs| - 1] == '?'
    ensures '?' in path ==> '?' !in path[..|path| - |qs| - 1]
    ensures '?' !in path ==> qs == ""
  {
    match IndexOf(path, '?')
    case None => ""
    case Some(i) => path[i + 1..]
  }

  /** The raw (still encoded) values of `q`, `limit` and `offset`; empty when absent. */
  datatype QueryFields = QueryFields(q: string, limit: string, offset: string)

  /**
   * One `key=value` pair: a pair without `=` is skipped; the key is taken
   * as written (not decoded), the value is decoded; keys other than the
   * three are ignored.
   */
  function ApplyPair(f: QueryFields, kv: string): QueryFields {
    match IndexOf(kv, '=')
    case None => f
    case Some(eq) =>
      var k := kv[..eq];
      var v := PercentDecoded(kv[eq + 1..]);
      if k == "q" then f.(q := v)
      else if k == "limit" then f.(limit := v)
      else if k == "offset" then f.(offset := v)
      else f
  }

  function FoldQuery(f: QueryFields, pairs: seq<string>): QueryFields
    decreases |pairs|
  {
    if |pairs| == 0 then f else FoldQuery(ApplyPair(f, pairs[0]), pairs[1..])
  }

  /** The fields read from a query string split at `&`. */
  function FieldsOf(qs: string): QueryFields {
    FoldQuery(QueryFields("", "", ""), Split(qs, '&'))
  }

  /** The loop over `std::getline(qss, kv, '&')`. */
  method ParseQuery(qs: string) returns (fields: QueryFields)
    ensures fields == FieldsOf(qs)
  {
    var pairs := Split(qs, '&');
    fields := QueryFields("", "", "");
    var i := 0;
    while i < |pairs|
      invariant 0 <= i <= |pairs|
      invariant FoldQuery(fields, pairs[i..]) == FieldsOf(qs)
    {
      assert pairs[i..][1..] == pairs[i + 1..];
      var kv := pairs[i];
      match IndexOf(kv, '=') {
        case Some(eq) =>
          var k := kv[..eq];
          var v := Decode(kv[eq + 1..]);
          if k == "q" {
            fields := fields.(q := v);
          } else if k == "limit" {
            fields := fields.(limit := v);
          } else if k == "offset" {
            fields := fields.(offset := v);
          }
        case None =>
      }
      i := i + 1;
    }
    assert pairs[i..] == [];
  }

  /** The field of `f` a key names. */
  function Field(f: QueryFields, key: string): string
    requires key == "q" || key == "limit" || key == "offset"
  {
    if key == "q" then f.q else if key == "limit" then f.limit else f.offset
  }

  /** The decoded value of the last pair whose raw key is `key`: an independent account of which pair wins. */
  function LastPair(pairs: seq<string>, key: string): Option<string> {
    if |pairs| == 0 then None
    else
      var later := LastPair(pairs[1..], key);
      if later.Some? then later
      else match IndexOf(pairs[0], '=')
        case Some(eq) => if pairs[0][..eq] == key then Some(PercentDecoded(pairs[0][eq + 1..])) else None
        case None => None
  }

  /** A repeated parameter takes the value of its last occurrence. */
  lemma {:induction false} FoldQueryLast(f: QueryFields, pairs: seq<string>, key: string)
    requires key == "q" || key == "limit" || key == "offset"
    ensures Field(FoldQuery(f, pairs), key) == LastPair(pairs, key).GetOr(Field(f, key))
    decreases |pairs|
  {
    if |pairs| > 0 {
      FoldQueryLast(ApplyPair(f, pairs[0]), pairs[1..], key);
    }
  }

  /** Each of `q`, `limit`, `offset` is the decoded value of its last pair in the query string, or empty. */
  lemma FieldIsLastPair(qs: string, key: string)
    requires key == "q" || key == "limit" || key == "offset"
    ensures Field(FieldsOf(qs), key) == LastPair(Split(qs, '&'), key).GetOr("")
  {
    FoldQueryLast(QueryFields("", "", ""), Split(qs, '&'), key);
  }

  // ---- validating the search parameters ----

  datatype SearchArgs = MissingQ | BadNumber | Run(q: string, limit: int, offset: int)

  /**
   * The checks before a search runs: an empty `q` is rejected; an empty
   * `limit` or `offset` takes its default (10 and 0); a non-empty one must
   * be read by `std::stoi`, which ignores text after the digits.
   */
  function ArgsOf(f: QueryFields): (a: SearchArgs)
    ensures a == MissingQ <==> f.q == ""
    ensures a.Run? ==> a.q == f.q && IntMin <= a.limit <= IntMax && IntMin <= a.offset <= IntMax
    ensures a.Run? && f.limit == "" ==> a.limit == 10
    ensures a.Run? && f.offset == "" ==> a.offset == 0
    ensures a.Run? && f.limit != "" ==> Stoi(f.limit) == Some(a.limit)
    ensures a.Run? && f.offset != "" ==> Stoi(f.offset) == Some(a.offset)
    ensures a == BadNumber <==> f.q != "" && ((f.limit != "" && Stoi(f.limit).None?) || (f.offset != "" && Stoi(f.offset).None?))
  {
    if f.q == "" then MissingQ
    else
      var limit := if f.limit == "" then Some(10) else Stoi(f.limit);
      var offset := if f.offset == "" then Some(0) else Stoi(f.offset);
      if limit.None? || offset.None? then BadNumber else Run(f.q, limit.value, offset.value)
  }

  /** Any `int` a client writes as `limit` and `offset` reaches the search as it is. */
  lemma ArgsReadBack(q: string, limit: int, offset: int)
    requires q != "" && IntMin <= limit <= IntMax && IntMin <= offset <= IntMax
    ensures ArgsOf(QueryFields(q, IntToString(limit), IntToString(offset))) == Run(q, limit, offset)
  {
    StoiIntToString(limit);
    StoiIntToString(offset);
  }

  /** A `limit` or `offset` with no digit in it is rejected. */
  lemma ArgsRejectNonNumbers(f: QueryFields)
    requires f.q != ""
    requires f.limit != "" && forall i :: 0 <= i < |f.limit| ==> !IsDigit(f.limit[i])
    ensures ArgsOf(f) == BadNumber
  {
  }
}
