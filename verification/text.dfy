/** The string operations of JavaScript and Node that the drive relies on. */
module Text {

  /** The class `\s` of a JavaScript regular expression: white space and line
      terminators. `String.prototype.trim` strips exactly these characters. */
  predicate IsSpace(c: char) {
    || c == ' ' || c == '\t' || c == '\n' || c == '\r' || c == '\U{B}' || c == '\U{C}'
    || c == '\U{A0}' || c == '\U{1680}' || ('\U{2000}' <= c <= '\U{200A}')
    || c == '\U{2028}' || c == '\U{2029}' || c == '\U{202F}' || c == '\U{205F}'
    || c == '\U{3000}' || c == '\U{FEFF}'
  }

  predicate IsBlank(s: string) {
    forall k | 0 <= k < |s| :: IsSpace(s[k])
  }

  function TrimStart(s: string): (r: string)
    ensures |r| <= |s| && r == s[|s| - |r|..]
    ensures r == [] || !IsSpace(r[0])
    ensures forall k | 0 <= k < |s| - |r| :: IsSpace(s[k])
  {
    if |s| > 0 && IsSpace(s[0]) then TrimStart(s[1..]) else s
  }

  function TrimEnd(s: string): (r: string)
    ensures |r| <= |s| && r == s[..|r|]
    ensures r == [] || !IsSpace(r[|r| - 1])
    ensures forall k | |r| <= k < |s| :: IsSpace(s[k])
  {
    if |s| > 0 && IsSpace(s[|s| - 1]) then TrimEnd(s[..|s| - 1]) else s
  }

  /** `s.trim()`: the slice of `s` left once the white space at both ends is cut
      off; empty exactly for a blank string, and otherwise starting and ending with a
      character that is not white space. */
  function Trim(s: string): (r: string)
    ensures exists i, j | 0 <= i <= j <= |s| :: r == s[i..j] && IsBlank(s[..i]) && IsBlank(s[j..])
    ensures r == [] <==> IsBlank(s)
    ensures r == [] || (!IsSpace(r[0]) && !IsSpace(r[|r| - 1]))
  {
    var t := TrimStart(s);
    TrimParts(s);
    TrimIsSlice(s, t, TrimEnd(t));
    TrimEnd(t)
  }

  lemma TrimParts(s: string)
    ensures var r := TrimEnd(TrimStart(s)); (r == [] <==> IsBlank(s)) && (r == [] || !IsSpace(r[0]))
  {
    var t := TrimStart(s);
    var r := TrimEnd(t);
    if r != [] {
      assert r[0] == t[0];
    }
  }

  /** The witnesses of the slice: `t` starts where the leading white space ends, and `r`
      ends where the trailing white space of `t` starts. */
  lemma TrimIsSlice(s: string, t: string, r: string)
    requires |t| <= |s| && t == s[|s| - |t|..] && forall k | 0 <= k < |s| - |t| :: IsSpace(s[k])
    requires |r| <= |t| && r == t[..|r|] && forall k | |r| <= k < |t| :: IsSpace(t[k])
    ensures exists i, j | 0 <= i <= j <= |s| :: r == s[i..j] && IsBlank(s[..i]) && IsBlank(s[j..])
  {
    var i := |s| - |t|;
    var j := i + |r|;
    assert t == s[i..];
    assert r == t[..|r|];
    assert r == s[i..j] by {
      forall k | 0 <= k < |r| ensures r[k] == s[i..j][k] {
        assert r[k] == t[k] == s[i + k];
      }
    }
    assert IsBlank(s[..i]) by {
      forall k | 0 <= k < i ensures IsSpace(s[..i][k]) {
        assert s[..i][k] == s[k];
      }
    }
    assert IsBlank(s[j..]) by {
      forall k | 0 <= k < |s| - j ensures IsSpace(s[j..][k]) {
        assert s[j..][k] == s[j + k] == t[|r| + k];
      }
    }
  }

  /** Neither empty nor starting or ending with white space. */
  predicate IsTrimmed(s: string) {
    s != [] && !IsSpace(s[0]) && !IsSpace(s[|s| - 1])
  }

  /** A trimmed string is its own trim: a name stored trimmed stays put under `trim()`. */
  lemma TrimOfTrimmed(s: string)
    requires IsTrimmed(s)
    ensures Trim(s) == s
  {
    assert TrimStart(s) == s;
    assert TrimEnd(s) == s;
  }

  /** `s.length`: the number of UTF-16 code units, two for a character outside the
      Basic Multilingual Plane. */
  function JsLength(s: string): (n: nat)
    ensures |s| <= n <= 2 * |s|
  {
    if s == [] then 0 else (if s[0] as int > 0xFFFF then 2 else 1) + JsLength(s[1..])
  }

  /** Within the Basic Multilingual Plane the JavaScript length is the character count. */
  lemma {:induction false} JsLengthOfBmp(s: string)
    requires forall k | 0 <= k < |s| :: s[k] as int <= 0xFFFF
    ensures JsLength(s) == |s|
  {
    if s != [] {
      JsLengthOfBmp(s[1..]);
    }
  }

  function DigitChar(d: nat): (c: char)
    requires d < 10
    ensures '0' <= c <= '9'
  {
    "0123456789"[d]
  }

  function NatToString(n: nat): (r: string)
    ensures |r| > 0
    ensures forall k | 0 <= k < |r| :: '0' <= r[k] <= '9'
  {
    if n < 10 then [DigitChar(n)] else NatToString(n / 10) + [DigitChar(n % 10)]
  }

  /** A number interpolated into a template string: decimal, with `-` when negative. */
  function IntToString(i: int): (r: string)
    ensures |r| > 0 && '/' !in r
  {
    if i < 0 then "-" + NatToString(-i) else NatToString(i)
  }

  function StripTrailingSlashes(p: string): (r: string)
    ensures |r| <= |p| && r == p[..|r|]
    ensures r == [] || r[|r| - 1] != '/'
  {
    if |p| > 0 && p[|p| - 1] == '/' then StripTrailingSlashes(p[..|p| - 1]) else p
  }

  function AfterLastSlash(p: string): (r: string)
    ensures '/' !in r
    ensures |r| <= |p| && r == p[|p| - |r|..]
  {
    if p == [] || p[|p| - 1] == '/' then [] else AfterLastSlash(p[..|p| - 1]) + [p[|p| - 1]]
  }

  /** Node's `path.basename` on a POSIX path: the last segment, trailing slashes ignored. */
  function Basename(p: string): (r: string)
    ensures '/' !in r
  {
    AfterLastSlash(StripTrailingSlashes(p))
  }

  lemma {:induction false} AfterLastSlashOfTail(prefix: string, tail: string)
    requires '/' !in tail
    ensures AfterLastSlash(prefix + "/" + tail) == tail
    decreases |tail|
  {
    if tail == [] {
      assert (prefix + "/" + tail)[|prefix + "/" + tail| - 1] == '/';
    } else {
      var p := prefix + "/" + tail;
      var t' := tail[..|tail| - 1];
      assert p[..|p| - 1] == prefix + "/" + t';
      assert p[|p| - 1] == tail[|tail| - 1];
      AfterLastSlashOfTail(prefix, t');
      assert tail == t' + [tail[|tail| - 1]];
    }
  }

  /** The basename of a path whose last segment is `tail` is `tail`. */
  lemma BasenameOfTail(prefix: string, tail: string)
    requires tail != [] && '/' !in tail
    ensures Basename(prefix + "/" + tail) == tail
  {
    var p := prefix + "/" + tail;
    assert p[|p| - 1] == tail[|tail| - 1];
    assert StripTrailingSlashes(p) == p;
    AfterLastSlashOfTail(prefix, tail);
  }

  predicate IsLowerHex(c: char) {
    '0' <= c <= '9' || 'a' <= c <= 'f'
  }

  /** A version-4 UUID as the `uuid` package prints it (section 4.4 of RFC 4122):
      8-4-4-4-12 lower-case hex digits, version digit 4, variant digit 8, 9, a or b. */
  predicate IsUuidV4(s: string) {
    && |s| == 36
    && (forall k | 0 <= k < 36 :: if k in {8, 13, 18, 23} then s[k] == '-' else IsLowerHex(s[k]))
    && s[14] == '4'
    && s[19] in "89ab"
  }

  lemma UuidHasNoSlash(s: string)
    requires IsUuidV4(s)
    ensures '/' !in s
  {
    forall k | 0 <= k < |s| ensures s[k] != '/' {
      if k in {8, 13, 18, 23} { } else { assert IsLowerHex(s[k]); }
    }
  }
}
