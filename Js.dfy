/** JavaScript semantics the app relies on: `undefined`/`null`, `String.prototype.trim`,
    string lengths counted in UTF-16 code units, 32-bit integer truncation, and the
    `maxLength` cap of a text input. */
module Js {

  /** A value that may be missing (`undefined` or `null`). */
  datatype Option<+T> = None | Some(value: T)

  /** The characters `trim` removes: the WhiteSpace and LineTerminator code points of ECMAScript. */
  predicate IsWhitespace(c: char)
    ensures IsWhitespace(c) ==> c as int < 0x1_0000
  {
    c == '\t' || c == '\n' || c == '\U{000B}' || c == '\U{000C}' || c == '\r' || c == ' '
    || c == '\U{00A0}' || c == '\U{1680}' || ('\U{2000}' <= c <= '\U{200A}')
    || c == '\U{2028}' || c == '\U{2029}' || c == '\U{202F}' || c == '\U{205F}'
    || c == '\U{3000}' || c == '\U{FEFF}'
  }

  /** A string made of whitespace only (the empty string included). */
  predicate IsBlank(s: string) {
    forall i :: 0 <= i < |s| ==> IsWhitespace(s[i])
  }

  /** `s` with its leading whitespace removed. */
  function TrimStart(s: string): (r: string)
    ensures |r| <= |s| && r == s[|s| - |r|..]
    ensures r == [] || !IsWhitespace(r[0])
    ensures forall k :: 0 <= k < |s| - |r| ==> IsWhitespace(s[k])
  {
    if s != [] && IsWhitespace(s[0]) then
      var r := TrimStart(s[1..]);
      assert forall k :: 1 <= k < |s| ==> s[k] == s[1..][k - 1];
      r
    else s
  }

  /** `s` with its trailing whitespace removed. */
  function TrimEnd(s: string): (r: string)
    ensures |r| <= |s| && r == s[..|r|]
    ensures r == [] || !IsWhitespace(r[|r| - 1])
    ensures forall k :: |r| <= k < |s| ==> IsWhitespace(s[k])
  {
    if s != [] && IsWhitespace(s[|s| - 1]) then
      TrimEnd(s[..|s| - 1])
    else s
  }

  /** `s.trim()`: the slice of `s` between its leading and its trailing whitespace; every
      character outside the slice is whitespace. */
  function Trim(s: string): (r: string)
    ensures var i := |s| - |TrimStart(s)|; i + |r| <= |s| && r == s[i..i + |r|]
    ensures var i := |s| - |TrimStart(s)|; forall k :: 0 <= k < |s| && !(i <= k < i + |r|) ==> IsWhitespace(s[k])
    ensures r == [] || (!IsWhitespace(r[0]) && !IsWhitespace(r[|r| - 1]))
  {
    var t := TrimStart(s);
    var r := TrimEnd(t);
    TrimShape(s, t, r);
    r
  }

  /** A prefix `r` of a suffix `t` of `s`, each cut off at whitespace, is a slice of `s`
      with only whitespace outside it. */
  lemma TrimShape(s: string, t: string, r: string)
    requires |t| <= |s| && t == s[|s| - |t|..]
    requires |r| <= |t| && r == t[..|r|]
    requires forall k :: 0 <= k < |s| - |t| ==> IsWhitespace(s[k])
    requires forall k :: |r| <= k < |t| ==> IsWhitespace(t[k])
    requires t == [] || !IsWhitespace(t[0])
    ensures var i := |s| - |t|; i + |r| <= |s| && r == s[i..i + |r|]
    ensures var i := |s| - |t|; forall k :: 0 <= k < |s| && !(i <= k < i + |r|) ==> IsWhitespace(s[k])
    ensures r == [] || !IsWhitespace(r[0])
  {
    var i := |s| - |t|;
    forall k | 0 <= k < |s| && !(i <= k < i + |r|) ensures IsWhitespace(s[k]) {
      if k >= i {
        assert s[k] == t[k - i];
      }
    }
    if r != [] {
      assert r[0] == t[0];
    }
  }

  /** A trimmed string is empty exactly when the input was blank: this is the truthiness
      test `if (text.trim())` that the handlers use. */
  lemma TrimEmptyIffBlank(s: string)
    ensures Trim(s) == [] <==> IsBlank(s)
  {
    if Trim(s) != [] {
      var i := |s| - |TrimStart(s)|;
      assert s[i] == Trim(s)[0];
    }
  }

  /** Trimming twice is trimming once. */
  lemma TrimIdempotent(s: string)
    ensures Trim(Trim(s)) == Trim(s)
  {
    var r := Trim(s);
    assert TrimStart(r) == r;
    assert TrimEnd(r) == r;
  }

  /** The UTF-16 code units of one Unicode scalar value: one unit inside the Basic
      Multilingual Plane, a surrogate pair above it. */
  function Units(c: char): (u: seq<int>)
    ensures |u| == (if c as int < 0x1_0000 then 1 else 2)
    ensures forall k :: 0 <= k < |u| ==> 0 <= u[k] < 0x1_0000
    ensures |u| == 1 <==> u == [c as int]
    ensures |u| == 2 ==>
      && 0xD800 <= u[0] < 0xDC00 && 0xDC00 <= u[1] < 0xE000
      && (u[0] - 0xD800) * 0x400 + (u[1] - 0xDC00) + 0x1_0000 == c as int
  {
    var n := c as int;
    if n < 0x1_0000 then [n]
    else [0xD800 + (n - 0x1_0000) / 0x400, 0xDC00 + (n - 0x1_0000) % 0x400]
  }

  /** The UTF-16 code units of a string: what `charCodeAt` indexes and `length` counts. */
  function CodeUnits(s: string): (u: seq<int>)
    ensures |u| >= |s|
    ensures forall k :: 0 <= k < |u| ==> 0 <= u[k] < 0x1_0000
  {
    if s == [] then [] else CodeUnits(s[..|s| - 1]) + Units(s[|s| - 1])
  }

  /** `s.length`: the number of UTF-16 code units, at least the number of characters. */
  function Length(s: string): (n: nat)
    ensures |s| <= n
    ensures n == 0 <==> s == []
  {
    |CodeUnits(s)|
  }

  /** Inside the Basic Multilingual Plane every character is one code unit. */
  lemma {:induction false} CodeUnitsOfBmp(s: string)
    requires forall k :: 0 <= k < |s| ==> s[k] as int < 0x1_0000
    ensures Length(s) == |s|
    ensures forall k :: 0 <= k < |s| ==> CodeUnits(s)[k] == s[k] as int
  {
    if s != [] {
      CodeUnitsOfBmp(s[..|s| - 1]);
    }
  }

  /** A text input with `maxLength`, for text `s` that ends with what was just typed or
      pasted: the longest prefix of `s` whose length in code units does not exceed the cap. */
  function Capped(s: string, max: nat): (r: string)
    ensures r <= s
    ensures Length(r) <= max
    ensures Length(s) <= max ==> r == s
    ensures r != s ==> Length(s[..|r| + 1]) > max
    decreases |s|
  {
    if Length(s) <= max then s
    else
      var p := s[..|s| - 1];
      var r := Capped(p, max);
      PrefixOfInit(s, r);
      r
  }

  /** A prefix of all but the last character of `s` is a prefix of `s`; one character
      longer, it is still a prefix of that shorter string unless it is all of it. */
  lemma PrefixOfInit(s: string, r: string)
    requires s != [] && r <= s[..|s| - 1]
    ensures r <= s
    ensures r != s[..|s| - 1] ==> |r| + 1 <= |s| - 1 && s[..|s| - 1][..|r| + 1] == s[..|r| + 1]
    ensures r == s[..|s| - 1] ==> s[..|r| + 1] == s
  {
  }

  /** A 32-bit signed integer. */
  type int32 = x: int | -0x8000_0000 <= x < 0x8000_0000

  /** ECMAScript's ToInt32, as applied by `<<` and `&`: the 32-bit integer congruent
      to `x` modulo 2^32. */
  function ToInt32(x: int): (r: int32)
    ensures (x - r) % 0x1_0000_0000 == 0
  {
    var m := x % 0x1_0000_0000;
    if m < 0x8000_0000 then m else m - 0x1_0000_0000
  }

  /** ToInt32 depends only on its argument modulo 2^32. */
  lemma ToInt32Congruent(x: int, y: int)
    requires (x - y) % 0x1_0000_0000 == 0
    ensures ToInt32(x) == ToInt32(y)
  {
    var q := (x - y) / 0x1_0000_0000;
    assert x == y + q * 0x1_0000_0000;
    ModShift(y, q);
  }

  lemma ModShift(y: int, q: int)
    ensures (y + q * 0x1_0000_0000) % 0x1_0000_0000 == y % 0x1_0000_0000
  {
    var n := 0x1_0000_0000;
    var a := y + q * n;
    assert a == (y / n + q) * n + y % n;
    assert 0 <= y % n < n;
  }

  /** `Math.abs`, which for the smallest int32 yields 2^31, a value outside int32. */
  function Abs(x: int): (r: nat)
    ensures r == x || r == -x
  {
    if x < 0 then -x else x
  }

  /** The `%` operator on integers: the remainder has the sign of the dividend and the
      magnitude of `|a| mod n`. */
  function Remainder(a: int, n: int): (r: int)
    requires n > 0
    ensures Abs(r) == Abs(a) % n
    ensures a >= 0 ==> r >= 0
    ensures a < 0 ==> r <= 0
  {
    if a >= 0 then a % n else -((-a) % n)
  }
}
