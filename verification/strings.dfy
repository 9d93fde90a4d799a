/** Small failure-compatible wrapper used throughout the model. */
module Wrappers {
  datatype Option<+T> = None | Some(value: T) {
    function GetOr(default: T): T {
      match this
      case Some(v) => v
      case None => default
    }
  }
}

/**
 * The C++ standard-library text operations the server relies on, stated over
 * `string` (a `seq<char>` whose characters stand for the bytes 0..255):
 * `std::string::find`, `std::getline` with a delimiter, stream insertion of
 * integers (`operator<<` on `long`/`int`), `std::stoi` and `std::strtol`.
 */
module Strings {
  import opened Wrappers

  /** `s.find(p) == 0` (equivalently `s.rfind(p, 0) == 0`): `s` starts with `p`. */
  predicate StartsWith(s: string, p: string) {
    |p| <= |s| && s[..|p|] == p
  }

  /** `s.find(sub) != std::string::npos`. */
  predicate Contains(s: string, sub: string)
    decreases |s|
  {
    StartsWith(s, sub) || (|s| > 0 && Contains(s[1..], sub))
  }

  lemma {:induction false} ContainsAt(s: string, sub: string, i: nat)
    requires i + |sub| <= |s| && s[i..i + |sub|] == sub
    ensures Contains(s, sub)
    decreases i
  {
    if i > 0 {
      assert s[1..][i - 1..i - 1 + |sub|] == sub;
      ContainsAt(s[1..], sub, i - 1);
    }
  }

  /** Text that contains `a + b` contains `a`. */
  lemma {:induction false} ContainsPrefixOf(s: string, a: string, b: string)
    requires Contains(s, a + b)
    ensures Contains(s, a)
    decreases |s|
  {
    if StartsWith(s, a + b) {
      assert s[..|a|] == (a + b)[..|a|];
    } else {
      ContainsPrefixOf(s[1..], a, b);
    }
  }

  /** Text that contains `sub` still contains it with more text after it. */
  lemma {:induction false} ContainsAppend(s: string, t: string, sub: string)
    requires Contains(s, sub)
    ensures Contains(s + t, sub)
    decreases |s|
  {
    if StartsWith(s, sub) {
      assert (s + t)[..|sub|] == s[..|sub|];
    } else {
      ContainsAppend(s[1..], t, sub);
      assert (s + t)[1..] == s[1..] + t;
    }
  }

  /** Text that contains `sub` still contains it with more text before it. */
  lemma {:induction false} ContainsPrepend(t: string, s: string, sub: string)
    requires Contains(s, sub)
    ensures Contains(t + s, sub)
    decreases |t|
  {
    if |t| > 0 {
      assert (t + s)[1..] == t[1..] + s;
      ContainsPrepend(t[1..], s, sub);
    } else {
      assert t + s == s;
    }
  }

  /** Text contains every piece it is made of. */
  lemma ContainsMiddle(a: string, x: string, b: string)
    ensures Contains(a + x + b, x)
  {
    assert (x + b)[..|x|] == x;
    assert Contains(x + b, x);
    ContainsPrepend(a, x + b, x);
    assert a + x + b == a + (x + b);
  }

  lemma ContainsSuffix(a: string, x: string)
    ensures Contains(a + x, x)
  {
    ContainsMiddle(a, x, "");
    assert a + x + "" == a + x;
  }

  /** Text that contains a non-empty `sub` contains its first character. */
  lemma {:induction false} ContainsFirstChar(s: string, sub: string)
    requires |sub| > 0 && Contains(s, sub)
    ensures sub[0] in s
    decreases |s|
  {
    if StartsWith(s, sub) {
      assert s[0] == sub[0];
    } else {
      ContainsFirstChar(s[1..], sub);
      assert s[1..] <= s[1..] && sub[0] in s[1..];
    }
  }

  /** `s.find(c)`: the first index of `c`, or `None` for `npos`. */
  function IndexOf(s: string, c: char): (r: Option<nat>)
    ensures r.None? <==> c !in s
    ensures r.Some? ==> r.value < |s| && s[r.value] == c && c !in s[..r.value]
  {
    if |s| == 0 then None
    else if s[0] == c then Some(0)
    else match IndexOf(s[1..], c)
      case None => None
      case Some(i) =>
        assert s[..i + 1] == [s[0]] + s[1..][..i];
        Some(i + 1)
  }

  /** The index of the first `delim` at or after `from`, or `|s|` when there is none. */
  function NextDelim(s: string, delim: char, from: nat): (e: nat)
    requires from <= |s|
    ensures from <= e <= |s|
    ensures e < |s| ==> s[e] == delim
    ensures forall j :: from <= j < e ==> s[j] != delim
    decreases |s| - from
  {
    if from == |s| || s[from] == delim then from else NextDelim(s, delim, from + 1)
  }

  /**
   * The pieces that a loop `while (std::getline(in, piece, delim))` reads
   * from `s[from..]`: text up to each delimiter (the delimiter is consumed
   * and not stored); a final piece without a delimiter is read too, but an
   * empty remainder after the last delimiter is not.
   */
  function SplitFrom(s: string, delim: char, from: nat): seq<string>
    requires from <= |s|
    decreases |s| - from
  {
    if from == |s| then []
    else
      var e := NextDelim(s, delim, from);
      [s[from..e]] + (if e == |s| then [] else SplitFrom(s, delim, e + 1))
  }

  function Split(s: string, delim: char): (r: seq<string>)
    ensures r == [] <==> s == ""
    ensures delim !in s && s != "" ==> r == [s]
  {
    if delim !in s && s != "" then
      assert NextDelim(s, delim, 0) == |s|;
      assert s[0..|s|] == s;
      SplitFrom(s, delim, 0)
    else
      SplitFrom(s, delim, 0)
  }

  /** The pieces joined with `sep` between neighbours (none before the first or after the last). */
  function Join(pieces: seq<string>, sep: string): string {
    if |pieces| == 0 then ""
    else if |pieces| == 1 then pieces[0]
    else pieces[0] + sep + Join(pieces[1..], sep)
  }

  lemma {:induction false} JoinAppend(pieces: seq<string>, sep: string, p: string)
    ensures Join(pieces + [p], sep) == if |pieces| == 0 then p else Join(pieces, sep) + sep + p
  {
    if |pieces| > 1 {
      assert (pieces + [p])[1..] == pieces[1..] + [p];
      JoinAppend(pieces[1..], sep, p);
    } else if |pieces| == 1 {
      assert (pieces + [p])[1..] == [p];
    }
  }

  lemma SliceSplit(t: string, n: nat)
    requires n <= |t|
    ensures t[..n] + t[n..] == t
  {
  }

  lemma AppendAssoc(a: string, b: string, c: string)
    ensures a + (b + c) == (a + b) + c
  {
  }

  /** The glue behind `PrefixJoinSnoc`, over plain strings. */
  lemma SnocGlue(prefix: string, j: string, sep: string, item: string, whole: string, empty: bool)
    requires whole == if empty then item else j + sep + item
    requires empty ==> j == ""
    ensures prefix + whole == (if empty then prefix + j else prefix + j + sep) + item
  {
    if !empty {
      assert prefix + (j + sep + item) == prefix + j + sep + item;
    }
  }

  /**
   * One pass of a loop that writes `prefix`, then the pieces with `sep`
   * before every piece but the first.
   */
  lemma PrefixJoinSnoc(prefix: string, parts: seq<string>, sep: string, item: string)
    ensures prefix + Join(parts + [item], sep)
            == (if |parts| == 0 then prefix + Join(parts, sep) else prefix + Join(parts, sep) + sep) + item
  {
    JoinAppend(parts, sep, item);
    SnocGlue(prefix, Join(parts, sep), sep, item, Join(parts + [item], sep), |parts| == 0);
  }

  lemma JoinCons(p: string, rest: seq<string>, sep: string)
    ensures Join([p] + rest, sep) == if |rest| == 0 then p else p + sep + Join(rest, sep)
  {
    assert ([p] + rest)[1..] == rest;
  }

  lemma {:induction false} SplitFromPieces(s: string, delim: char, from: nat)
    requires from <= |s|
    ensures forall i :: 0 <= i < |SplitFrom(s, delim, from)| ==> delim !in SplitFrom(s, delim, from)[i]
    decreases |s| - from
  {
    if from < |s| {
      var e := NextDelim(s, delim, from);
      assert delim !in s[from..e];
      if e < |s| {
        SplitFromPieces(s, delim, e + 1);
      }
    }
  }

  lemma SliceAround(s: string, a: nat, m: nat, d: char)
    requires a <= m < |s| && s[m] == d
    ensures s[a..] == s[a..m] + [d] + s[m + 1..]
  {
  }

  /** What getline leaves out of `s[from..]`: a final delimiter. */
  function TrailingDelim(s: string, delim: char, from: nat): string {
    if from < |s| && s[|s| - 1] == delim then [delim] else []
  }

  lemma {:induction false} SplitFromJoin(s: string, delim: char, from: nat)
    requires from <= |s|
    ensures s[from..] == Join(SplitFrom(s, delim, from), [delim]) + TrailingDelim(s, delim, from)
    decreases |s| - from, 1
  {
    if from < |s| {
      var e := NextDelim(s, delim, from);
      if e == |s| {
        SplitFromLast(s, delim, from);
      } else if e + 1 == |s| {
        SplitFromFinalDelim(s, delim, from);
      } else {
        SplitFromJoinAt(s, delim, from, e);
      }
    }
  }

  /** The recursive case of `SplitFromJoin`: a delimiter at `e` with more text after it. */
  lemma {:induction false} SplitFromJoinAt(s: string, delim: char, from: nat, e: nat)
    requires from <= e && e + 1 < |s| && e == NextDelim(s, delim, from)
    ensures s[from..] == Join(SplitFrom(s, delim, from), [delim]) + TrailingDelim(s, delim, from)
    decreases |s| - from, 0
  {
    SplitFromJoin(s, delim, e + 1);
    SplitFromDelim(s, delim, from);
    SplitFromNonEmpty(s, delim, e + 1);
    SplitFromInner(s, delim, from, e, SplitFrom(s, delim, from), SplitFrom(s, delim, e + 1));
  }

  /** No delimiter left: the rest is one piece and nothing is dropped. */
  lemma SplitFromLast(s: string, delim: char, from: nat)
    requires from < |s| && NextDelim(s, delim, from) == |s|
    ensures s[from..] == Join(SplitFrom(s, delim, from), [delim]) + TrailingDelim(s, delim, from)
  {
    assert s[from..|s|] == s[from..];
    assert SplitFrom(s, delim, from) == [s[from..]];
    assert s[|s| - 1] != delim;
  }

  /** The only delimiter left is the last character: one piece, and the delimiter is dropped. */
  lemma SplitFromFinalDelim(s: string, delim: char, from: nat)
    requires from < |s| && NextDelim(s, delim, from) == |s| - 1
    ensures s[from..] == Join(SplitFrom(s, delim, from), [delim]) + TrailingDelim(s, delim, from)
  {
    var e := |s| - 1;
    assert SplitFrom(s, delim, from) == [s[from..e]];
    SliceAround(s, from, e, delim);
    assert s[e + 1..] == [];
  }

  /** A delimiter with more text after it: one piece, the delimiter, then the rest's pieces. */
  lemma SplitFromInner(s: string, delim: char, from: nat, e: nat, pieces: seq<string>, rest: seq<string>)
    requires from <= e && e + 1 < |s| && s[e] == delim
    requires pieces == [s[from..e]] + rest && |rest| > 0
    requires s[e + 1..] == Join(rest, [delim]) + TrailingDelim(s, delim, e + 1)
    ensures s[from..] == Join(pieces, [delim]) + TrailingDelim(s, delim, from)
  {
    SliceAround(s, from, e, delim);
    assert TrailingDelim(s, delim, e + 1) == TrailingDelim(s, delim, from);
    JoinGlue(s[from..], pieces, s[from..e], rest, delim, s[e + 1..], TrailingDelim(s, delim, from));
  }

  /** A piece, a separator and the joined rest make the joined whole. */
  lemma JoinGlue(whole: string, pieces: seq<string>, p: string, rest: seq<string>, d: char, tail: string, t: string)
    requires pieces == [p] + rest && |rest| > 0
    requires whole == p + [d] + tail && tail == Join(rest, [d]) + t
    ensures whole == Join(pieces, [d]) + t
  {
    JoinCons(p, rest, [d]);
  }

  lemma SplitFromNonEmpty(s: string, delim: char, from: nat)
    requires from < |s|
    ensures |SplitFrom(s, delim, from)| > 0
  {
  }

  /** One step of `SplitFrom` at a delimiter: the piece before it, then the pieces after it. */
  lemma SplitFromDelim(s: string, delim: char, from: nat)
    requires from < |s| && NextDelim(s, delim, from) < |s|
    ensures SplitFrom(s, delim, from) == [s[from..NextDelim(s, delim, from)]] + SplitFrom(s, delim, NextDelim(s, delim, from) + 1)
  {
  }


  /**
   * `Split` loses nothing but a trailing delimiter: no piece holds the
   * delimiter, and joining the pieces with it gives back the input, less one
   * final delimiter if the input ended with one.
   */
  lemma SplitJoin(s: string, delim: char)
    ensures forall i :: 0 <= i < |Split(s, delim)| ==> delim !in Split(s, delim)[i]
    ensures s == Join(Split(s, delim), [delim]) + TrailingDelim(s, delim, 0)
  {
    SplitFromPieces(s, delim, 0);
    SplitFromJoin(s, delim, 0);
  }

  // ---- characters of the "C" locale ----

  /** `isspace` in the "C" locale: space, \t, \n, \v, \f, \r. */
  predicate IsSpace(c: char) {
    c == ' ' || c == '\t' || c == '\n' || c == '\U{B}' || c == '\U{C}' || c == '\r'
  }

  predicate IsDigit(c: char) {
    '0' <= c <= '9'
  }

  function DigitChar(d: nat): (c: char)
    requires d < 10
    ensures IsDigit(c)
  {
    ('0' as int + d) as char
  }

  function DigitValue(c: char): nat
    requires IsDigit(c)
  {
    c as int - '0' as int
  }

  /** The input with its leading "C"-locale whitespace removed. */
  function SkipSpace(s: string): (r: string)
    ensures |r| <= |s| && r == s[|s| - |r|..]
    ensures |r| > 0 ==> !IsSpace(r[0])
    ensures forall i :: 0 <= i < |s| - |r| ==> IsSpace(s[i])
  {
    if |s| > 0 && IsSpace(s[0]) then SkipSpace(s[1..]) else s
  }

  /** Whitespace in front of text that does not start with whitespace is all that is skipped. */
  lemma {:induction false} SkipSpaceOver(blanks: string, t: string)
    requires forall i :: 0 <= i < |blanks| ==> IsSpace(blanks[i])
    requires |t| > 0 ==> !IsSpace(t[0])
    ensures SkipSpace(blanks + t) == t
  {
    if |blanks| > 0 {
      assert (blanks + t)[1..] == blanks[1..] + t;
      SkipSpaceOver(blanks[1..], t);
    } else {
      assert blanks + t == t;
    }
  }

  /** The number of leading decimal digits. */
  function DigitRun(s: string): (n: nat)
    ensures n <= |s|
    ensures forall i :: 0 <= i < n ==> IsDigit(s[i])
    ensures n < |s| ==> !IsDigit(s[n])
  {
    if |s| > 0 && IsDigit(s[0]) then 1 + DigitRun(s[1..]) else 0
  }

  /** The value of a run of decimal digits, most significant first. */
  function DigitsValue(d: string): nat
    requires forall i :: 0 <= i < |d| ==> IsDigit(d[i])
  {
    if |d| == 0 then 0 else DigitsValue(d[..|d| - 1]) * 10 + DigitValue(d[|d| - 1])
  }

  /** How `std::ostream` writes a non-negative integer: decimal, no leading zeros. */
  function NatToString(n: nat): (r: string)
    ensures |r| >= 1
    ensures forall i :: 0 <= i < |r| ==> IsDigit(r[i])
    ensures |r| > 1 ==> r[0] != '0'
  {
    if n < 10 then [DigitChar(n)] else NatToString(n / 10) + [DigitChar(n % 10)]
  }

  /** How `std::ostream` writes an `int` or a `long`: a `-` sign, then the digits of the magnitude. */
  function IntToString(n: int): string {
    if n < 0 then "-" + NatToString(-n) else NatToString(n)
  }

  const IntMin: int := -0x8000_0000
  const IntMax: int := 0x7fff_ffff

  /**
   * `std::stoi(s)`: leading whitespace is skipped, one optional sign is read,
   * then the longest run of decimal digits; text after it is ignored. No
   * digit at all is `std::invalid_argument` and a value outside `int` is
   * `std::out_of_range`; both are `None` here.
   */
  function Stoi(s: string): (r: Option<int>)
    ensures r.Some? ==> IntMin <= r.value <= IntMax
    ensures r.Some? ==> exists i :: 0 <= i < |s| && IsDigit(s[i])
    ensures r.Some? ==> var t := SkipSpace(s);
              |t| > 0 && (IsDigit(t[0]) || ((t[0] == '+' || t[0] == '-') && |t| > 1 && IsDigit(t[1])))
  {
    var t := SkipSpace(s);
    var r := SignedText(t);
    if r.Some? && IsDigit(t[0]) then
      assert IsDigit(s[|s| - |t|]);
      r
    else if r.Some? then
      assert IsDigit(s[|s| - |t| + 1]);
      r
    else
      r
  }

  /** `std::stoi` after the whitespace: an optional sign, then the digits. */
  function SignedText(t: string): (r: Option<int>)
    ensures r.Some? ==> IntMin <= r.value <= IntMax
    ensures r.Some? ==> |t| > 0 && (IsDigit(t[0]) || ((t[0] == '+' || t[0] == '-') && |t| > 1 && IsDigit(t[1])))
  {
    if |t| > 0 && t[0] == '-' then SignedDigits(t[1..], true)
    else if |t| > 0 && t[0] == '+' then SignedDigits(t[1..], false)
    else SignedDigits(t, false)
  }

  /** The digit run at the head of `u`, negated when `neg`, if there is one and it fits an `int`. */
  function SignedDigits(u: string, neg: bool): (r: Option<int>)
    ensures r.Some? ==> IntMin <= r.value <= IntMax
    ensures r.Some? ==> |u| > 0 && IsDigit(u[0])
  {
    var k := DigitRun(u);
    if k == 0 then None
    else
      var v := Signed(neg, DigitsValue(u[..k]));
      if IntMin <= v <= IntMax then Some(v) else None
  }

  function Signed(neg: bool, m: nat): int {
    if neg then -(m as int) else m
  }

  lemma {:induction false} DigitsValueOfNatToString(n: nat)
    ensures DigitsValue(NatToString(n)) == n
    decreases n
  {
    var r := NatToString(n);
    if n >= 10 {
      DigitsValueOfNatToString(n / 10);
      assert r[..|r| - 1] == NatToString(n / 10);
    }
  }

  /** The number of leading digits of a digit run followed by text that does not start with a digit. */
  lemma {:induction false} DigitRunOf(d: string, rest: string)
    requires forall i :: 0 <= i < |d| ==> IsDigit(d[i])
    requires |rest| > 0 ==> !IsDigit(rest[0])
    ensures DigitRun(d + rest) == |d|
  {
    if |d| > 0 {
      assert (d + rest)[1..] == d[1..] + rest;
      DigitRunOf(d[1..], rest);
    } else {
      assert d + rest == rest;
    }
  }

  /** A digit run read by `SignedDigits`, whatever non-digit text follows it. */
  lemma SignedDigitsOf(d: string, rest: string, neg: bool)
    requires |d| > 0 && forall i :: 0 <= i < |d| ==> IsDigit(d[i])
    requires |rest| > 0 ==> !IsDigit(rest[0])
    ensures var v := Signed(neg, DigitsValue(d));
            SignedDigits(d + rest, neg) == if IntMin <= v <= IntMax then Some(v) else None
  {
    DigitRunOf(d, rest);
    assert (d + rest)[..|d|] == d;
  }

  /** `std::stoi` of text behind whitespace that it skips. */
  lemma StoiAfterBlanks(blanks: string, t: string)
    requires forall i :: 0 <= i < |blanks| ==> IsSpace(blanks[i])
    requires |t| > 0 ==> !IsSpace(t[0])
    ensures Stoi(blanks + t) == SignedText(t)
  {
    SkipSpaceOver(blanks, t);
  }

  /** The sign in front of a digit run. */
  lemma SignedTextOf(sign: string, x: string)
    requires sign == "" || sign == "+" || sign == "-"
    requires |x| > 0 && IsDigit(x[0])
    ensures SignedText(sign + x) == SignedDigits(x, sign == "-")
  {
    if sign != "" {
      assert (sign + x)[1..] == x;
    } else {
      assert sign + x == x;
    }
  }

  /** What `std::stoi` reads from blanks, a sign, a digit run and text that does not continue it. */
  lemma StoiReads(blanks: string, sign: string, d: string, rest: string)
    requires forall i :: 0 <= i < |blanks| ==> IsSpace(blanks[i])
    requires sign == "" || sign == "+" || sign == "-"
    requires |d| > 0 && forall i :: 0 <= i < |d| ==> IsDigit(d[i])
    requires |rest| > 0 ==> !IsDigit(rest[0])
    ensures var v := Signed(sign == "-", DigitsValue(d));
            Stoi(blanks + sign + d + rest) == if IntMin <= v <= IntMax then Some(v) else None
  {
    AppendAssoc(blanks + sign, d, rest);
    AppendAssoc(blanks, sign, d + rest);
    SignedRunText(sign, d, rest);
    StoiAfterBlanks(blanks, sign + (d + rest));
  }

  /** What `SignedText` reads from a sign, a digit run and text that does not continue it. */
  lemma SignedRunText(sign: string, d: string, rest: string)
    requires sign == "" || sign == "+" || sign == "-"
    requires |d| > 0 && forall i :: 0 <= i < |d| ==> IsDigit(d[i])
    requires |rest| > 0 ==> !IsDigit(rest[0])
    ensures !IsSpace((sign + (d + rest))[0])
    ensures var v := Signed(sign == "-", DigitsValue(d));
            SignedText(sign + (d + rest)) == if IntMin <= v <= IntMax then Some(v) else None
  {
    assert (d + rest)[0] == d[0];
    SignedTextOf(sign, d + rest);
    SignedDigitsOf(d, rest, sign == "-");
  }

  /**
   * `std::stoi` skips leading whitespace, reads one optional sign and the
   * digit run after it, and ignores whatever follows the digits.
   */
  lemma StoiPrefix(blanks: string, sign: string, d: string, rest: string)
    requires forall i :: 0 <= i < |blanks| ==> IsSpace(blanks[i])
    requires sign == "" || sign == "+" || sign == "-"
    requires |d| > 0 && forall i :: 0 <= i < |d| ==> IsDigit(d[i])
    requires |rest| > 0 ==> !IsDigit(rest[0])
    requires IntMin <= Signed(sign == "-", DigitsValue(d)) <= IntMax
    ensures Stoi(blanks + sign + d + rest) == Some(Signed(sign == "-", DigitsValue(d)))
  {
    StoiReads(blanks, sign, d, rest);
  }

  /** A digit run whose signed value does not fit an `int` is `std::out_of_range`. */
  lemma StoiOutOfRange(blanks: string, sign: string, d: string, rest: string)
    requires forall i :: 0 <= i < |blanks| ==> IsSpace(blanks[i])
    requires sign == "" || sign == "+" || sign == "-"
    requires |d| > 0 && forall i :: 0 <= i < |d| ==> IsDigit(d[i])
    requires |rest| > 0 ==> !IsDigit(rest[0])
    requires !(IntMin <= Signed(sign == "-", DigitsValue(d)) <= IntMax)
    ensures Stoi(blanks + sign + d + rest) == None
  {
    StoiReads(blanks, sign, d, rest);
  }

  /** An optional `-` and a digit run, with nothing around them. */
  lemma StoiSignedRun(w: string, sign: string, d: string)
    requires sign == "" || sign == "-"
    requires |d| > 0 && forall i :: 0 <= i < |d| ==> IsDigit(d[i])
    requires w == sign + d
    requires IntMin <= Signed(sign == "-", DigitsValue(d)) <= IntMax
    ensures Stoi(w) == Some(Signed(sign == "-", DigitsValue(d)))
  {
    assert !IsSpace(w[0]) by {
      if sign == "-" {
        assert w[0] == '-';
      } else {
        assert w[0] == d[0];
      }
    }
    StoiNoBlanks(w);
    SignedTextOf(sign, d);
    SignedDigitsWhole(d, sign == "-");
  }

  lemma StoiNoBlanks(t: string)
    requires |t| > 0 ==> !IsSpace(t[0])
    ensures Stoi(t) == SignedText(t)
  {
  }

  /** A digit run read by `SignedDigits` with nothing after it. */
  lemma SignedDigitsWhole(d: string, neg: bool)
    requires |d| > 0 && forall i :: 0 <= i < |d| ==> IsDigit(d[i])
    ensures var v := Signed(neg, DigitsValue(d));
            SignedDigits(d, neg) == if IntMin <= v <= IntMax then Some(v) else None
  {
    assert d + "" == d;
    DigitRunOf(d, "");
    assert d[..|d|] == d;
  }

  /** `std::stoi` reads back every `int` that `operator<<` writes. */
  lemma StoiIntToString(n: int)
    requires IntMin <= n <= IntMax
    ensures Stoi(IntToString(n)) == Some(n)
  {
    var m: nat := if n < 0 then -n else n;
    var d := NatToString(m);
    var sign := if n < 0 then "-" else "";
    DigitsValueOfNatToString(m);
    assert Signed(sign == "-", DigitsValue(d)) == n;
    StoiSignedRun(IntToString(n), sign, d);
  }

  // ---- strtol in base 16 ----

  predicate IsHexDigit(c: char) {
    IsDigit(c) || 'a' <= c <= 'f' || 'A' <= c <= 'F'
  }

  function HexDigitValue(c: char): (v: nat)
    requires IsHexDigit(c)
    ensures v < 16
  {
    if IsDigit(c) then DigitValue(c)
    else if 'a' <= c <= 'f' then c as int - 'a' as int + 10
    else c as int - 'A' as int + 10
  }

  /** Upper-case hexadecimal digit for `v`. */
  function HexUpper(v: nat): (c: char)
    requires v < 16
    ensures IsHexDigit(c) && HexDigitValue(c) == v
  {
    if v < 10 then DigitChar(v) else ('A' as int + v - 10) as char
  }

  /** Lower-case hexadecimal digit for `v`, as `printf("%x")` writes it. */
  function HexLower(v: nat): (c: char)
    requires v < 16
    ensures IsHexDigit(c) && HexDigitValue(c) == v
  {
    if v < 10 then DigitChar(v) else ('a' as int + v - 10) as char
  }

  function HexRun(s: string): (n: nat)
    ensures n <= |s|
    ensures forall i :: 0 <= i < n ==> IsHexDigit(s[i])
  {
    if |s| > 0 && IsHexDigit(s[0]) then 1 + HexRun(s[1..]) else 0
  }

  function HexValue(d: string): nat
    requires forall i :: 0 <= i < |d| ==> IsHexDigit(d[i])
  {
    if |d| == 0 then 0 else HexValue(d[..|d| - 1]) * 16 + HexDigitValue(d[|d| - 1])
  }

  /** The C string a `char[]` holds: everything before the first NUL. */
  function CString(s: string): (r: string)
    ensures '\0' !in r
    ensures |r| <= |s| && r == s[..|r|]
    ensures '\0' !in s ==> r == s
  {
    match IndexOf(s, '\0')
    case None => s
    case Some(i) => s[..i]
  }

  /** The C string of `a + b + c` when the first NUL lies in `b`. */
  lemma CStringAfter(a: string, b: string, c: string)
    requires '\0' !in a && '\0' in b
    ensures CString(a + b + c) == a + CString(b)
  {
    var s := a + b + c;
    var k :| IndexOf(b, '\0') == Some(k);
    assert s[|a| + k] == '\0';
    assert s[..|a| + k] == a + b[..k];
    assert '\0' !in s[..|a| + k];
    var n :| IndexOf(s, '\0') == Some(n);
    assert n == |a| + k;
  }

  /**
   * `std::strtol(s, nullptr, 16)`: leading whitespace skipped, an optional
   * sign, an optional `0x`/`0X` prefix when a hex digit follows it, then the
   * longest run of hexadecimal digits; 0 when no digit can be read. The
   * saturation at `LONG_MIN`/`LONG_MAX` on overflow is not modelled: the
   * decoder only ever passes two characters.
   */
  function StrtolHex(s: string): (r: int)
    ensures (forall i :: 0 <= i < |s| ==> !IsHexDigit(s[i])) ==> r == 0
  {
    var c := CString(s);
    var t := SkipSpace(c);
    var neg := |t| > 0 && t[0] == '-';
    var u := if |t| > 0 && (t[0] == '+' || t[0] == '-') then t[1..] else t;
    var w := if |u| >= 3 && u[0] == '0' && (u[1] == 'x' || u[1] == 'X') && IsHexDigit(u[2]) then u[2..] else u;
    assert |w| > 0 ==> w[0] == c[|c| - |w|] == s[|c| - |w|];
    var m: int := LeadingHexValue(w);
    if neg then -m else m
  }

  /** The value of the longest run of hexadecimal digits at the start of `w`. */
  function LeadingHexValue(w: string): nat {
    var n := HexRun(w);
    assert forall i :: 0 <= i < n ==> IsHexDigit(w[..n][i]);
    HexValue(w[..n])
  }

  /**
   * A malformed escape: one hexadecimal digit followed by a character that
   * is not one gives that digit's value (`%4g` decodes to byte 4).
   */
  lemma StrtolHexOneDigit(a: char, b: char)
    requires IsHexDigit(a) && !IsHexDigit(b)
    ensures StrtolHex([a, b]) == HexDigitValue(a)
  {
    var s := [a, b];
    if b == '\0' {
      assert IndexOf(s, '\0') == Some(1);
      StrtolHexOfOne(s, [a]);
    } else {
      assert '\0' !in s;
      StrtolHexOfOne(s, s);
    }
  }

  /** `strtol` of text whose C string is one hexadecimal digit, possibly followed by one other character. */
  lemma StrtolHexOfOne(s: string, c: string)
    requires CString(s) == c
    requires 1 <= |c| <= 2 && IsHexDigit(c[0]) && (|c| == 1 || !IsHexDigit(c[1]))
    ensures StrtolHex(s) == HexDigitValue(c[0])
  {
    assert !IsSpace(c[0]) && c[0] != '+' && c[0] != '-';
    assert SkipSpace(c) == c;
    LeadingHexOfOne(c);
    assert StrtolHex(s) == LeadingHexValue(c);
  }

  lemma LeadingHexOfOne(w: string)
    requires |w| >= 1 && IsHexDigit(w[0]) && (|w| == 1 || !IsHexDigit(w[1]))
    ensures LeadingHexValue(w) == HexDigitValue(w[0])
  {
    assert HexRun(w[1..]) == 0;
    assert HexRun(w) == 1;
    var d := w[..1];
    assert d == [w[0]] && d[..0] == [];
    assert HexValue(d) == HexValue(d[..0]) * 16 + HexDigitValue(w[0]);
  }

  /** Two hexadecimal digits read by `strtol` give their value. */
  lemma StrtolHexPair(a: char, b: char)
    requires IsHexDigit(a) && IsHexDigit(b)
    ensures StrtolHex([a, b]) == 16 * HexDigitValue(a) + HexDigitValue(b)
  {
    var s := [a, b];
    assert '\0' !in s;
    assert CString(s) == s;
    assert SkipSpace(s) == s;
    assert HexRun(s[1..]) == 1;
    assert HexRun(s) == 2;
    assert s[..2] == s;
    assert s[..1] == [a];
    assert HexValue([a]) == HexDigitValue(a);
    assert HexValue(s) == 16 * HexDigitValue(a) + HexDigitValue(b);
    assert LeadingHexValue(s) == HexValue(s);
  }
}
