/** The JavaScript string primitives the parsers rely on (`split`, `join`, `trim`,
    `toLowerCase`, `JSON.stringify` of a string) and the character classes of their
    regular expressions, written out as explicit functions on `seq<char>`. */
module Text {

  /** White space for `String.prototype.trim` and for the regex class `\s`. */
  predicate IsSpace(c: char) {
    || c == '\t' || c == '\n' || c == '\U{B}' || c == '\U{C}' || c == '\r' || c == ' '
    || c == '\U{A0}' || c == '\U{1680}' || ('\U{2000}' <= c <= '\U{200A}')
    || c == '\U{2028}' || c == '\U{2029}' || c == '\U{202F}' || c == '\U{205F}'
    || c == '\U{3000}' || c == '\U{FEFF}'
  }

  /** The characters that end a line for `.`, `^` and `$` in a regular expression. */
  const LineTerminators: set<char> := {'\n', '\r', '\U{2028}', '\U{2029}'}

  /** The class `[0-9a-f]` (also written `[a-f0-9]`). */
  predicate IsLowerHex(c: char) {
    '0' <= c <= '9' || 'a' <= c <= 'f'
  }

  predicate IsUpper(c: char) { 'A' <= c <= 'Z' }

  predicate IsLower(c: char) { 'a' <= c <= 'z' }

  /** The UTF-16 code units of a character: two for one above U+FFFF, which
      JavaScript stores as a surrogate pair. */
  function CodeUnits(c: char): nat {
    if c as int < 0x1_0000 then 1 else 2
  }

  /** JavaScript's `s.length`, which counts UTF-16 code units, not characters. */
  function Utf16Length(s: string): (n: nat)
    ensures |s| <= n <= 2 * |s|
    decreases |s|
  {
    if s == [] then 0 else CodeUnits(s[0]) + Utf16Length(s[1..])
  }

  /** Below U+10000 every character is one code unit, so `length` is `|s|`. */
  lemma {:induction false} BmpLength(s: string)
    requires forall k :: 0 <= k < |s| ==> s[k] as int < 0x1_0000
    ensures Utf16Length(s) == |s|
    decreases |s|
  {
    if s != [] {
      BmpLength(s[1..]);
    }
  }

  /** Above U+FFFF every character is two code units, so `length` is `2 * |s|`. */
  lemma {:induction false} AstralLength(s: string)
    requires forall k :: 0 <= k < |s| ==> s[k] as int >= 0x1_0000
    ensures Utf16Length(s) == 2 * |s|
    decreases |s|
  {
    if s != [] {
      AstralLength(s[1..]);
    }
  }

  /** The code units of a concatenation add up. */
  lemma {:induction false} Utf16Append(a: string, b: string)
    ensures Utf16Length(a + b) == Utf16Length(a) + Utf16Length(b)
    decreases |a|
  {
    if a != [] {
      assert (a + b)[1..] == a[1..] + b;
      Utf16Append(a[1..], b);
    } else {
      assert a + b == b;
    }
  }

  /** Every character of `s` from position `i` up to `j` is white space. */
  predicate SpaceIn(s: string, i: nat, j: nat) {
    forall k :: i <= k < j && k < |s| ==> IsSpace(s[k])
  }

  predicate AllSpace(s: string) {
    SpaceIn(s, 0, |s|)
  }

  /** No character of `s` is a line terminator, so `.*` can match all of it. */
  predicate OneLine(s: string) {
    forall k :: 0 <= k < |s| ==> s[k] !in LineTerminators
  }

  /** Forty characters of `[0-9a-f]` start at position `i` of `s`. */
  predicate Hex40At(s: string, i: nat) {
    i + 40 <= |s| && forall k :: i <= k < i + 40 ==> IsLowerHex(s[k])
  }

  /** `s` holds `p` at position `i`. */
  predicate StartsAt(s: string, i: nat, p: string) {
    i + |p| <= |s| && s[i..i + |p|] == p
  }

  /** `parts.join(sep)`. */
  function JoinWith(parts: seq<string>, sep: string): (r: string)
    decreases |parts|
  {
    if |parts| == 0 then ""
    else if |parts| == 1 then parts[0]
    else parts[0] + sep + JoinWith(parts[1..], sep)
  }

  /** `s.split(c)` generalised to a set of one-character separators: the maximal
      runs of non-separator characters, an empty piece between two adjacent
      separators and at either end. */
  function SplitOn(s: string, seps: set<char>): (parts: seq<string>)
    ensures |parts| >= 1
    ensures forall k, j :: 0 <= k < |parts| && 0 <= j < |parts[k]| ==> parts[k][j] !in seps
    decreases |s|
  {
    if |s| == 0 then [""]
    else
      var rest := SplitOn(s[1..], seps);
      if s[0] in seps then [""] + rest
      else [[s[0]] + rest[0]] + rest[1..]
  }

  /** Joining the pieces of a split with the separator gives back the string. */
  lemma {:induction false} JoinSplit(s: string, c: char)
    ensures JoinWith(SplitOn(s, {c}), [c]) == s
    decreases |s|
  {
    if |s| > 0 {
      var rest := SplitOn(s[1..], {c});
      JoinSplit(s[1..], c);
      if s[0] == c {
        assert SplitOn(s, {c}) == [""] + rest;
        assert ([""] + rest)[1..] == rest;
      } else {
        JoinHead(s[0], rest, [c]);
      }
    }
  }

  lemma JoinHead(x: char, parts: seq<string>, sep: string)
    requires |parts| >= 1
    ensures JoinWith([[x] + parts[0]] + parts[1..], sep) == [x] + JoinWith(parts, sep)
  {
    var p := [[x] + parts[0]] + parts[1..];
    assert p[1..] == parts[1..];
  }

  /** Splitting at a separator character splits each side on its own. */
  lemma {:induction false} SplitAppend(x: string, c: char, y: string, seps: set<char>)
    requires c in seps
    ensures SplitOn(x + [c] + y, seps) == SplitOn(x, seps) + SplitOn(y, seps)
    decreases |x|
  {
    var s := x + [c] + y;
    if x == [] {
      assert s[1..] == y;
    } else {
      assert s[0] == x[0] && s[1..] == x[1..] + [c] + y;
      SplitAppend(x[1..], c, y, seps);
      var r := SplitOn(x[1..], seps);
      if x[0] !in seps {
        assert (r + SplitOn(y, seps))[0] == r[0];
        assert (r + SplitOn(y, seps))[1..] == r[1..] + SplitOn(y, seps);
      }
    }
  }

  /** A string without a separator splits into itself. */
  lemma {:induction false} SplitFree(x: string, seps: set<char>)
    requires forall j :: 0 <= j < |x| ==> x[j] !in seps
    ensures SplitOn(x, seps) == [x]
    decreases |x|
  {
    if x != [] {
      SplitFree(x[1..], seps);
      assert [x[0]] + x[1..] == x;
    }
  }

  /** Splitting a `c`-join of pieces free of the separators gives back the
      pieces: with `JoinSplit`, `split` and `join` are inverse. */
  lemma {:induction false} SplitJoin(parts: seq<string>, c: char, seps: set<char>)
    requires |parts| >= 1 && c in seps && SeparatorFree(parts, seps)
    ensures SplitOn(JoinWith(parts, [c]), seps) == parts
    decreases |parts|
  {
    SplitFree(parts[0], seps);
    if |parts| > 1 {
      var tail := parts[1..];
      assert SeparatorFree(tail, seps) by {
        forall k, j | 0 <= k < |tail| && 0 <= j < |tail[k]| ensures tail[k][j] !in seps {
          assert tail[k] == parts[k + 1];
        }
      }
      SplitJoin(tail, c, seps);
      assert JoinWith(parts, [c]) == parts[0] + [c] + JoinWith(tail, [c]);
      SplitAppend(parts[0], c, JoinWith(tail, [c]), seps);
      assert [parts[0]] + tail == parts;
    }
  }

  /** No piece holds a separator. */
  predicate SeparatorFree(parts: seq<string>, seps: set<char>) {
    forall k, j :: 0 <= k < |parts| && 0 <= j < |parts[k]| ==> parts[k][j] !in seps
  }

  /** The number of white-space characters `s` starts with. */
  function LeadingSpace(s: string): (n: nat)
    ensures n <= |s| && SpaceIn(s, 0, n)
    ensures n == |s| || !IsSpace(s[n])
    decreases |s|
  {
    if |s| > 0 && IsSpace(s[0]) then 1 + LeadingSpace(s[1..]) else 0
  }

  /** The number of white-space characters `s` ends with. */
  function TrailingSpace(s: string): (n: nat)
    ensures n <= |s| && SpaceIn(s, |s| - n, |s|)
    ensures n == |s| || !IsSpace(s[|s| - n - 1])
    decreases |s|
  {
    if |s| > 0 && IsSpace(s[|s| - 1]) then 1 + TrailingSpace(s[..|s| - 1]) else 0
  }

  /** JavaScript's `trimStart`: drop leading white space. */
  function TrimStart(s: string): (r: string)
    ensures |r| <= |s| && SpaceIn(s, 0, |s| - |r|)
    ensures r == "" || !IsSpace(r[0])
  {
    s[LeadingSpace(s)..]
  }

  /** JavaScript's `trimEnd`: drop trailing white space. */
  function TrimEnd(s: string): (r: string)
    ensures |r| <= |s| && SpaceIn(s, |r|, |s|)
    ensures r == "" || !IsSpace(r[|r| - 1])
  {
    s[..|s| - TrailingSpace(s)]
  }

  /** `r` stands at position `i` of `s`, and everything around it is white space. */
  predicate SpaceAround(s: string, r: string, i: nat) {
    i + |r| <= |s| && s[i..i + |r|] == r && SpaceIn(s, 0, i) && SpaceIn(s, i + |r|, |s|)
  }

  /** `s.trim()`: the longest slice of `s` that neither starts nor ends with white
      space, everything cut off on either side being white space. */
  function Trim(s: string): (r: string)
    ensures r == "" || (!IsSpace(r[0]) && !IsSpace(r[|r| - 1]))
    ensures exists i: nat :: SpaceAround(s, r, i)
  {
    TrimmedSlice(s);
    TrimEnd(TrimStart(s))
  }

  /** What `trimEnd` leaves of what `trimStart` leaves stands where the leading
      white space ends. */
  lemma TrimmedSlice(s: string)
    ensures SpaceAround(s, TrimEnd(TrimStart(s)), LeadingSpace(s))
  {
    var i := LeadingSpace(s);
    var t := s[i..];
    var j := TrailingSpace(t);
    var r := t[..|t| - j];
    assert r == s[i..i + |r|];
    forall k | i + |r| <= k < |s| ensures IsSpace(s[k]) {
      assert s[k] == t[k - i];
    }
  }

  /** The ASCII case mapping of `toLowerCase`, which is all it does to the letters
      `[A-Za-z]` it is applied to here. */
  function ToLowerAscii(s: string): (r: string)
    ensures |r| == |s|
    ensures forall k :: 0 <= k < |s| ==> r[k] == (if IsUpper(s[k]) then (s[k] as int + 32) as char else s[k])
  {
    seq(|s|, k requires 0 <= k < |s| => if IsUpper(s[k]) then (s[k] as int + 32) as char else s[k])
  }

  /** The index of the first `c` at or after `from`, or `|s|` when there is none. */
  function IndexOfFrom(s: string, c: char, from: nat): (r: nat)
    requires from <= |s|
    ensures from <= r <= |s|
    ensures r < |s| ==> s[r] == c
    ensures forall k :: from <= k < r ==> s[k] != c
    decreases |s| - from
  {
    if from == |s| || s[from] == c then from else IndexOfFrom(s, c, from + 1)
  }

  /** The index of the first character of `cs` at or after `from`, or `|s|`. */
  function IndexOfAnyFrom(s: string, cs: set<char>, from: nat): (r: nat)
    requires from <= |s|
    ensures from <= r <= |s|
    ensures r < |s| ==> s[r] in cs
    ensures forall k :: from <= k < r ==> s[k] !in cs
    decreases |s| - from
  {
    if from == |s| || s[from] in cs then from else IndexOfAnyFrom(s, cs, from + 1)
  }

  /** The index of the first occurrence of `p` in `s`, if any. */
  function Find(s: string, p: string, from: nat): (r: nat)
    requires from <= |s|
    ensures from <= r <= |s|
    ensures r < |s| ==> StartsAt(s, r, p)
    ensures forall k :: from <= k < r ==> !StartsAt(s, k, p)
    decreases |s| - from
  {
    if from == |s| then from
    else if StartsAt(s, from, p) then from
    else Find(s, p, from + 1)
  }

  /** A character `JSON.stringify` writes with a backslash escape. */
  predicate NeedsEscape(c: char) {
    c == '"' || c == '\\' || c < ' '
  }

  const HexDigits: string := "0123456789abcdef"

  /** The escape `JSON.stringify` uses for one character. */
  function EscapeChar(c: char): (r: string)
    ensures !NeedsEscape(c) ==> r == [c]
    ensures NeedsEscape(c) ==> |r| >= 2 && r[0] == '\\'
  {
    if c == '"' then "\\\""
    else if c == '\\' then "\\\\"
    else if c == '\U{8}' then "\\b"
    else if c == '\U{C}' then "\\f"
    else if c == '\n' then "\\n"
    else if c == '\r' then "\\r"
    else if c == '\t' then "\\t"
    else if c < ' ' then "\\u00" + [HexDigits[c as int / 16], HexDigits[c as int % 16]]
    else [c]
  }

  function Escape(s: string): (r: string)
  {
    if s == [] then [] else EscapeChar(s[0]) + Escape(s[1..])
  }

  lemma {:induction false} EscapePlain(s: string)
    requires forall k :: 0 <= k < |s| ==> !NeedsEscape(s[k])
    ensures Escape(s) == s
  {
    if s != [] { EscapePlain(s[1..]); }
  }

  /** `JSON.stringify(s)` for a string `s`: quoted, with `"`, `\` and control
      characters escaped; a string with none of those is only quoted. */
  function JsonQuote(s: string): (r: string)
    ensures |r| >= 2 && r[0] == '"' && r[|r| - 1] == '"'
    ensures (forall k :: 0 <= k < |s| ==> !NeedsEscape(s[k])) ==> r == "\"" + s + "\""
  {
    if forall k :: 0 <= k < |s| ==> !NeedsEscape(s[k]) then EscapePlain(s); "\"" + Escape(s) + "\""
    else "\"" + Escape(s) + "\""
  }
}
