/** String helpers with the meaning the ECMAScript string methods used by the
    visitor pages give them: `trim`, `startsWith`, `substring(0, n)` and
    `Array.prototype.join`. Strings are sequences of Unicode scalar values;
    the TypeScript component counts UTF-16 code units, and the two agree on
    the Basic Multilingual Plane. */
module Text {

  /** ECMAScript WhiteSpace and LineTerminator code points, the set that
      `String.prototype.trim` removes from both ends. */
  predicate IsWhitespace(c: char) {
    || c == '\t' || c == '\n' || c == '\U{B}' || c == '\U{C}' || c == '\r'
    || c == ' ' || c == '\U{A0}' || c == '\U{1680}'
    || ('\U{2000}' <= c <= '\U{200A}')
    || c == '\U{2028}' || c == '\U{2029}' || c == '\U{202F}' || c == '\U{205F}'
    || c == '\U{3000}' || c == '\U{FEFF}'
  }

  /** True when every character of `s` is white space (so also for ""). */
  predicate Blank(s: string) {
    forall i :: 0 <= i < |s| ==> IsWhitespace(s[i])
  }

  function TrimStart(s: string): (r: string)
    ensures |r| <= |s| && r == s[|s| - |r|..]
    ensures r == [] || !IsWhitespace(r[0])
  {
    if |s| > 0 && IsWhitespace(s[0]) then TrimStart(s[1..]) else s
  }

  /** What `TrimStart` drops is white space. */
  lemma {:induction false} TrimStartDropsBlank(s: string)
    ensures Blank(s[..|s| - |TrimStart(s)|])
  {
    if |s| > 0 && IsWhitespace(s[0]) {
      var r := TrimStart(s[1..]);
      TrimStartDropsBlank(s[1..]);
      assert s[1..][..|s| - 1 - |r|] == s[1..|s| - |r|];
    }
  }

  function TrimEnd(s: string): (r: string)
    ensures |r| <= |s| && r == s[..|r|]
    ensures r == [] || !IsWhitespace(r[|r| - 1])
  {
    if |s| > 0 && IsWhitespace(s[|s| - 1]) then TrimEnd(s[..|s| - 1]) else s
  }

  /** What `TrimEnd` drops is white space. */
  lemma {:induction false} TrimEndDropsBlank(s: string)
    ensures Blank(s[|TrimEnd(s)|..])
  {
    if |s| > 0 && IsWhitespace(s[|s| - 1]) {
      var r := TrimEnd(s[..|s| - 1]);
      TrimEndDropsBlank(s[..|s| - 1]);
      assert s[..|s| - 1][|r|..] == s[|r|..|s| - 1];
    }
  }

  /** `String.prototype.trim`: drop white space at both ends, so what is
      left is no longer than the input and starts and ends with a character
      that is not white space. */
  function Trim(s: string): (r: string)
    ensures |r| <= |s|
    ensures r == [] || (!IsWhitespace(r[0]) && !IsWhitespace(r[|r| - 1]))
  {
    TrimEnd(TrimStart(s))
  }

  /** What `trim` returns is a contiguous piece of the input, framed by
      white space on both sides, with no white space at either of its ends. */
  lemma TrimIsSlice(s: string)
    ensures exists i, j :: 0 <= i <= j <= |s| && Trim(s) == s[i..j]
                           && Blank(s[..i]) && Blank(s[j..])
    ensures Trim(s) == [] || (!IsWhitespace(Trim(s)[0]) && !IsWhitespace(Trim(s)[|Trim(s)| - 1]))
  {
    var t := TrimStart(s);
    var i := |s| - |t|;
    var r := TrimEnd(t);
    TrimStartDropsBlank(s);
    TrimEndDropsBlank(t);
    var j := i + |r|;
    assert r == s[i..j];
    assert s[j..] == t[|r|..];
    assert Trim(s) == s[i..j] && Blank(s[..i]) && Blank(s[j..]);
  }

  /** `s.trim()` is empty exactly when `s` holds only white space. */
  lemma TrimEmptyIff(s: string)
    ensures Trim(s) == [] <==> Blank(s)
  {
    var t := TrimStart(s);
    if Trim(s) == [] {
      // t is blank, and TrimStart never leaves white space at its head
      TrimStartDropsBlank(s);
      TrimEndDropsBlank(t);
      assert t == [];
      assert s[..|s| - |t|] == s;
    } else {
      // the first character kept is a character of s that is not white space
      var r := TrimEnd(t);
      assert r[0] == t[0];
      assert s[|s| - |t|] == t[0];
    }
  }

  /** Trimming twice is trimming once. */
  lemma TrimIdempotent(s: string)
    ensures Trim(Trim(s)) == Trim(s)
  {
    var t := Trim(s);
    TrimIsSlice(s);
    assert TrimStart(t) == t;
    assert TrimEnd(t) == t;
  }

  /** `s.startsWith(prefix)`. */
  predicate StartsWith(s: string, prefix: string) {
    |prefix| <= |s| && s[..|prefix|] == prefix
  }

  /** `s.substring(0, n)` for n >= 0: the first `n` characters, or all of
      `s` when it is shorter. */
  function Take(s: string, n: nat): (r: string)
    ensures |r| == if |s| < n then |s| else n
    ensures StartsWith(s, r)
  {
    if |s| <= n then s else s[..n]
  }

  /** `parts.join(sep)`. */
  function Join(parts: seq<string>, sep: string): (r: string)
    ensures parts == [] ==> r == ""
    ensures |parts| == 1 ==> r == parts[0]
  {
    if parts == [] then ""
    else if |parts| == 1 then parts[0]
    else parts[0] + sep + Join(parts[1..], sep)
  }

  /** Pushing one more part onto a non-empty list puts one separator and
      that part at the end of the joined string. */
  lemma {:induction false} JoinSnoc(parts: seq<string>, p: string, sep: string)
    requires parts != []
    ensures Join(parts + [p], sep) == Join(parts, sep) + sep + p
    decreases |parts|
  {
    var all := parts + [p];
    assert all[1..] == parts[1..] + [p];
    if |parts| > 1 {
      JoinSnoc(parts[1..], p, sep);
    }
  }
}
