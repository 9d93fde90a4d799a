/**
 * The storage layer's own logic: JSON escaping of titles and image URLs,
 * the limit/offset clamp, the LIKE pattern, the assembly of the items
 * array, the fallbacks when a statement cannot be prepared, and the
 * connection-string check of `Database::Create`. SQLite itself is an
 * abstract row source: for a LIKE pattern, the rows that match it, in the
 * order SQLite returns them.
 */
module Sqlite {
  import opened Wrappers
  import opened Strings

  // ---- escape_json ----

  const Backspace: char := '\U{8}'
  const FormFeed: char := '\U{C}'

  /** How `escape_json` writes one byte (section 7 of RFC 8259). */
  function EscapeChar(c: char): (r: string)
    ensures |r| >= 1
    ensures forall i :: 0 <= i < |r| ==> r[i] as int >= 0x20
    ensures c as int >= 0x20 && c != '"' && c != '\\' ==> r == [c]
    ensures c == '"' ==> r == "\\\""
    ensures c == '\\' ==> r == "\\\\"
    ensures c == Backspace ==> r == "\\b"
    ensures c == FormFeed ==> r == "\\f"
    ensures c == '\n' ==> r == "\\n"
    ensures c == '\r' ==> r == "\\r"
    ensures c == '\t' ==> r == "\\t"
    ensures c as int < 0x20 && c !in {Backspace, FormFeed, '\n', '\r', '\t'} ==>
              r == "\\u00" + [HexLower(c as int / 16), HexLower(c as int % 16)]
  {
    if c == '"' then "\\\""
    else if c == '\\' then "\\\\"
    else if c == Backspace then "\\b"
    else if c == FormFeed then "\\f"
    else if c == '\n' then "\\n"
    else if c == '\r' then "\\r"
    else if c == '\t' then "\\t"
    else if c as int < 0x20 then "\\u00" + [HexLower(c as int / 16), HexLower(c as int % 16)]
    else [c]
  }

  /**
   * The text `escape_json(s)` returns: each byte escaped in turn. It holds
   * no raw control byte and is never shorter than the input.
   */
  function Escaped(s: string): (r: string)
    ensures |r| >= |s|
    ensures forall i :: 0 <= i < |r| ==> r[i] as int >= 0x20
  {
    if |s| == 0 then "" else EscapeChar(s[0]) + Escaped(s[1..])
  }

  lemma EscapedStep(s: string, i: nat)
    requires i < |s|
    ensures Escaped(s[i..]) == EscapeChar(s[i]) + Escaped(s[i + 1..])
  {
    assert s[i..][1..] == s[i + 1..];
  }

  /** The `escape_json` lambda: builds its output byte by byte. */
  method EscapeJson(s: string) returns (out: string)
    ensures out == Escaped(s)
  {
    out := "";
    var i := 0;
    while i < |s|
      invariant 0 <= i <= |s|
      invariant out + Escaped(s[i..]) == Escaped(s)
    {
      var piece := EscapeChar(s[i]);
      EscapedStep(s, i);
      AppendAssoc(out, piece, Escaped(s[i + 1..]));
      out := out + piece;
      i := i + 1;
    }
    assert s[|s|..] == "";
  }

  /** The character an RFC 8259 two-character escape `\e` stands for. */
  function SimpleUnescape(e: char): Option<char> {
    if e == '"' then Some('"')
    else if e == '\\' then Some('\\')
    else if e == '/' then Some('/')
    else if e == 'b' then Some(Backspace)
    else if e == 'f' then Some(FormFeed)
    else if e == 'n' then Some('\n')
    else if e == 'r' then Some('\r')
    else if e == 't' then Some('\t')
    else None
  }

  function Prepend(c: char, r: Option<string>): Option<string> {
    match r
    case None => None
    case Some(x) => Some([c] + x)
  }

  /**
   * The body of a JSON string read back (section 7 of RFC 8259): `None`
   * when it holds a raw `"`, a raw control character or a malformed escape.
   * A `\u` escape in the surrogate range is refused rather than paired.
   */
  function Unescaped(t: string): Option<string>
    decreases |t|
  {
    if |t| == 0 then Some("")
    else if t[0] == '\\' then
      if |t| < 2 then None
      else if SimpleUnescape(t[1]).Some? then Prepend(SimpleUnescape(t[1]).value, Unescaped(t[2..]))
      else if t[1] == 'u' && |t| >= 6 && IsHexDigit(t[2]) && IsHexDigit(t[3]) && IsHexDigit(t[4]) && IsHexDigit(t[5]) then
        var v := 4096 * HexDigitValue(t[2]) + 256 * HexDigitValue(t[3]) + 16 * HexDigitValue(t[4]) + HexDigitValue(t[5]);
        if 0xD800 <= v <= 0xDFFF then None else Prepend(v as char, Unescaped(t[6..]))
      else None
    else if t[0] == '"' || t[0] as int < 0x20 then None
    else Prepend(t[0], Unescaped(t[1..]))
  }

  lemma UnescapeOneChar(c: char, rest: string, r: string)
    requires Unescaped(rest) == Some(r)
    ensures Unescaped(EscapeChar(c) + rest) == Some([c] + r)
  {
    if c == '"' || c == '\\' || c == Backspace || c == FormFeed || c == '\n' || c == '\r' || c == '\t' {
      UnescapeShort(c, rest, r);
    } else if c as int < 0x20 {
      UnescapeControl(c, rest, r);
    } else {
      var t := EscapeChar(c) + rest;
      assert t[1..] == rest;
    }
  }

  /** A two-character escape reads back as its character. */
  lemma UnescapeShort(c: char, rest: string, r: string)
    requires c == '"' || c == '\\' || c == Backspace || c == FormFeed || c == '\n' || c == '\r' || c == '\t'
    requires Unescaped(rest) == Some(r)
    ensures Unescaped(EscapeChar(c) + rest) == Some([c] + r)
  {
    var t := EscapeChar(c) + rest;
    assert t[2..] == rest;
  }

  /** A `\u00XX` escape reads back as its control character. */
  lemma UnescapeControl(c: char, rest: string, r: string)
    requires c as int < 0x20 && c != Backspace && c != FormFeed && c != '\n' && c != '\r' && c != '\t'
    requires Unescaped(rest) == Some(r)
    ensures Unescaped(EscapeChar(c) + rest) == Some([c] + r)
  {
    var h1, h2 := HexLower(c as int / 16), HexLower(c as int % 16);
    var t := EscapeChar(c) + rest;
    assert EscapeChar(c) == "\\u00" + [h1, h2];
    assert t[0] == '\\' && t[1] == 'u' && t[2] == '0' && t[3] == '0' && t[4] == h1 && t[5] == h2;
    assert t[6..] == rest;
    assert 4096 * HexDigitValue(t[2]) + 256 * HexDigitValue(t[3]) + 16 * HexDigitValue(t[4]) + HexDigitValue(t[5]) == c as int;
  }

  /** Reading the escaped text as a JSON string gives back exactly the input. */
  lemma {:induction false} UnescapeEscaped(s: string)
    ensures Unescaped(Escaped(s)) == Some(s)
  {
    if |s| > 0 {
      UnescapeEscaped(s[1..]);
      UnescapeOneChar(s[0], Escaped(s[1..]), s[1..]);
      assert [s[0]] + s[1..] == s;
    }
  }

  // ---- the clamp and the LIKE pattern ----

  /** `Search`'s limit: non-positive becomes 10, above 100 becomes 100. */
  function ClampLimit(limit: int): (r: int)
    ensures 1 <= r <= 100
    ensures 1 <= limit <= 100 ==> r == limit
    ensures limit <= 0 ==> r == 10
    ensures limit > 100 ==> r == 100
  {
    if limit <= 0 then 10 else if limit > 100 then 100 else limit
  }

  /** `Search`'s offset: negative becomes 0. */
  function ClampOffset(offset: int): (r: int)
    ensures r >= 0
    ensures offset >= 0 ==> r == offset
    ensures offset < 0 ==> r == 0
  {
    if offset < 0 then 0 else offset
  }

  /** Clamping twice is clamping once. */
  lemma ClampIdempotent(limit: int, offset: int)
    ensures ClampLimit(ClampLimit(limit)) == ClampLimit(limit)
    ensures ClampOffset(ClampOffset(offset)) == ClampOffset(offset)
  {
  }

  /**
   * The pattern both `Search` and `Count` bind: the query between two `%`
   * wildcards, with any `%` or `_` inside the query left unescaped.
   */
  function LikePattern(query: string): (p: string)
    ensures |p| == |query| + 2 && p[0] == '%' && p[|p| - 1] == '%'
    ensures p[1..|p| - 1] == query
  {
    "%" + query + "%"
  }

  /**
   * The pattern SQLite receives: `sqlite3_bind_text` is given the C string
   * of the pattern with length -1, so it reads up to the first NUL. A query
   * that holds a NUL (a decoded `%00`) loses everything from that NUL on,
   * the closing `%` included.
   */
  function BoundPattern(query: string): (p: string)
    ensures '\0' !in query ==> p == LikePattern(query)
    ensures '\0' in query ==> p == "%" + CString(query) && |p| <= |query|
  {
    var like := LikePattern(query);
    if '\0' in query then
      assert '\0' !in like[..1] && like[1..|like| - 1] == query;
      CStringAfter("%", query, "%");
      CString(like)
    else
      assert '\0' !in like;
      CString(like)
  }

  // ---- rows and the items array ----

  /**
   * One result row: `title` and `image_url` are `None` for SQL NULL;
   * `priceText` stands for `std::to_string` of the price column.
   */
  datatype Row = Row(title: Option<string>, priceText: string, imageUrl: Option<string>)

  /** One element of the items array. */
  function RenderRow(row: Row): string {
    "{\"title\":\"" + Escaped(row.title.GetOr("")) + "\", \"price\":" + row.priceText
    + ", \"image_url\":\"" + Escaped(row.imageUrl.GetOr("")) + "\"}"
  }

  function RenderAll(rows: seq<Row>): (r: seq<string>)
    ensures |r| == |rows|
    ensures forall i :: 0 <= i < |rows| ==> r[i] == RenderRow(rows[i])
  {
    seq(|rows|, i requires 0 <= i < |rows| => RenderRow(rows[i]))
  }

  /** The items array: `[`, the rendered rows separated by commas, `]`. */
  function ItemsArray(rendered: seq<string>): string {
    "[" + Join(rendered, ",") + "]"
  }

  lemma {:induction false} JoinBounds(pieces: seq<string>, sep: string)
    requires |pieces| > 0 && forall i :: 0 <= i < |pieces| ==> |pieces[i]| > 0
    ensures |Join(pieces, sep)| > 0
    ensures Join(pieces, sep)[0] == pieces[0][0]
    ensures Join(pieces, sep)[|Join(pieces, sep)| - 1] == pieces[|pieces| - 1][|pieces[|pieces| - 1]| - 1]
  {
    if |pieces| > 1 {
      JoinBounds(pieces[1..], sep);
    }
  }

  /**
   * No row gives `[]`; otherwise the array opens on the first row's `{` and
   * closes on the last row's `}`, with no comma before the first or after
   * the last.
   */
  lemma ItemsArrayShape(rows: seq<Row>)
    ensures var a := ItemsArray(RenderAll(rows));
            |a| >= 2 && a[0] == '[' && a[|a| - 1] == ']'
            && (|rows| == 0 <==> a == "[]")
            && (|rows| > 0 ==> a[1] == '{' && a[|a| - 2] == '}')
  {
    var r := RenderAll(rows);
    Bracketed(Join(r, ","), ItemsArray(r));
    if |rows| > 0 {
      JoinBounds(r, ",");
    }
  }

  /** The brackets around a joined array, over plain strings. */
  lemma Bracketed(j: string, a: string)
    requires a == "[" + j + "]"
    ensures |a| == |j| + 2 && a[0] == '[' && a[|a| - 1] == ']' && (j == "" <==> a == "[]")
    ensures |j| > 0 ==> a[1] == j[0] && a[|a| - 2] == j[|j| - 1]
  {
    if j != "" {
      assert a[1..|a| - 1] == j;
    }
  }

  /** `LIMIT limit OFFSET offset` applied to the matching rows. */
  function Page(rows: seq<Row>, limit: nat, offset: nat): (page: seq<Row>)
    ensures |page| <= limit
    ensures offset + limit <= |rows| ==> |page| == limit
    ensures offset < |rows| ==> |page| > 0 || limit == 0
    ensures |page| == if offset >= |rows| then 0 else if offset + limit <= |rows| then limit else |rows| - offset
    ensures forall i :: 0 <= i < |page| ==> offset + i < |rows| && page[i] == rows[offset + i]
  {
    var from := if offset < |rows| then offset else |rows|;
    var to := if offset + limit < |rows| then offset + limit else |rows|;
    rows[from..to]
  }

  /** Writes one row's object, escaping its text columns (NULL as empty). */
  method WriteRow(row: Row) returns (item: string)
    ensures item == RenderRow(row)
  {
    var title := EscapeJson(row.title.GetOr(""));
    var img := EscapeJson(row.imageUrl.GetOr(""));
    item := "{\"title\":\"" + title + "\", \"price\":" + row.priceText
            + ", \"image_url\":\"" + img + "\"}";
  }

  lemma RenderAllSnoc(rows: seq<Row>, i: nat)
    requires i < |rows|
    ensures RenderAll(rows[..i + 1]) == RenderAll(rows[..i]) + [RenderRow(rows[i])]
  {
  }

  /** The object `Search` answers with around an items array. */
  function SearchReply(items: string, latencyText: string): string {
    "{\"items\": " + items + ", \"latency_ms\": " + latencyText + "}"
  }

  /** The reply of `Search` when its statement cannot be prepared. */
  const EmptySearchReply: string := "{\"items\": [], \"latency_ms\": 0}"

  /**
   * The SQLite-backed store. `prepares` says whether `sqlite3_prepare_v2`
   * succeeds on this handle; `matching(pattern)` is what the store holds:
   * every row whose title is LIKE `pattern`, in the order SQLite yields them.
   */
  class SqliteDatabase {
    const prepares: bool
    const matching: string -> seq<Row>

    constructor (prepares: bool, matching: string -> seq<Row>)
      ensures this.prepares == prepares && this.matching == matching
    {
      this.prepares := prepares;
      this.matching := matching;
    }

    /**
     * `Search(query, limit, offset)`: clamps the page, binds the LIKE
     * pattern, and renders the page as `{"items": [...], "latency_ms": t}`,
     * where `latencyText` stands for the clock reading it formats. A failed
     * prepare answers with an empty items array.
     */
    method Search(query: string, limit: int, offset: int, latencyText: string) returns (json: string)
      ensures !prepares ==> json == EmptySearchReply
      ensures prepares ==>
        json == SearchReply(ItemsArray(RenderAll(Page(matching(BoundPattern(query)), ClampLimit(limit), ClampOffset(offset)))),
                            latencyText)
    {
      var lim := limit;
      if lim <= 0 {
        lim := 10;
      }
      if lim > 100 {
        lim := 100;
      }
      var off := offset;
      if off < 0 {
        off := 0;
      }
      if !prepares {
        return EmptySearchReply;
      }
      var likeQuery := "%" + query + "%";
      var rows := Page(matching(CString(likeQuery)), lim, off);
      var jsonItems := WriteItems(rows);
      json := "{\"items\": " + jsonItems + ", \"latency_ms\": " + latencyText + "}";
    }

    /** The step loop of `Search`: each row rendered, a comma before all but the first, inside brackets. */
    method WriteItems(rows: seq<Row>) returns (jsonItems: string)
      ensures jsonItems == ItemsArray(RenderAll(rows))
    {
      jsonItems := "[";
      var first := true;
      var i := 0;
      while i < |rows|
        invariant 0 <= i <= |rows|
        invariant first <==> i == 0
        invariant jsonItems == "[" + Join(RenderAll(rows[..i]), ",")
      {
        if !first {
          jsonItems := jsonItems + ",";
        }
        first := false;
        var item := WriteRow(rows[i]);
        RenderAllSnoc(rows, i);
        PrefixJoinSnoc("[", RenderAll(rows[..i]), ",", item);
        jsonItems := jsonItems + item;
        i := i + 1;
      }
      assert rows[..|rows|] == rows;
      jsonItems := jsonItems + "]";
    }

    /**
     * `Count(query)`: the number of rows whose title is LIKE the same
     * pattern `Search` binds, unpaginated; 0 when the statement cannot be
     * prepared.
     */
    method Count(query: string) returns (total: int)
      ensures total == if prepares then |matching(BoundPattern(query))| else 0
    {
      if !prepares {
        return 0;
      }
      var like := "%" + query + "%";
      total := |matching(CString(like))|;
    }
  }

  /**
   * What the searcher gets from one store for `(q, limit, offset)`: the page
   * holds at most the clamped limit of rows, exactly that many when enough
   * rows match, and every row after the offset when fewer do. (`Count`, by
   * its contract, covers every matching row.) With two matches and
   * `limit = 1` the page holds exactly one.
   */
  lemma PageAndCount(rows: seq<Row>, limit: int, offset: int)
    ensures |Page(rows, ClampLimit(limit), ClampOffset(offset))| <= ClampLimit(limit)
    ensures ClampOffset(offset) + ClampLimit(limit) <= |rows| ==>
              |Page(rows, ClampLimit(limit), ClampOffset(offset))| == ClampLimit(limit)
    ensures ClampOffset(offset) < |rows| < ClampOffset(offset) + ClampLimit(limit) ==>
              |Page(rows, ClampLimit(limit), ClampOffset(offset))| == |rows| - ClampOffset(offset)
    ensures |rows| == 2 && limit == 1 && offset == 0 ==> |Page(rows, ClampLimit(limit), ClampOffset(offset))| == 1
  {
  }

  // ---- Database::Create ----

  /**
   * `Database::Create(connectionString)`: the file name a database is opened
   * on, or `None` (the code returns null). Only strings starting with `sqlite:`
   * are accepted, and the file name is everything after those 7
   * characters; `opens` stands for whether `sqlite3_open` succeeds on it.
   */
  function Create(connectionString: string, opens: string -> bool): (file: Option<string>)
    ensures file.Some? ==> connectionString == "sqlite:" + file.value && opens(file.value)
    ensures !StartsWith(connectionString, "sqlite:") ==> file == None
    ensures StartsWith(connectionString, "sqlite:") && opens(connectionString[7..]) ==> file.Some?
  {
    if !StartsWith(connectionString, "sqlite:") then None
    else
      var filename := connectionString[7..];
      if opens(filename) then Some(filename) else None
  }
}
