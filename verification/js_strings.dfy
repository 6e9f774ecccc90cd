/** The few JavaScript string operations the scripts rely on, over `string`
    (a sequence of characters). */
module JsStrings {
  import opened Wrappers

  /** The code points `String.prototype.trim` strips: the WhiteSpace and
      LineTerminator characters of ECMA-262. */
  predicate IsJsSpace(c: char) {
    c == '\t' || c == '\n' || c == '\U{000B}' || c == '\U{000C}' || c == '\r' || c == ' '
    || c == '\U{00A0}' || c == '\U{1680}' || ('\U{2000}' <= c <= '\U{200A}')
    || c == '\U{2028}' || c == '\U{2029}' || c == '\U{202F}' || c == '\U{205F}'
    || c == '\U{3000}' || c == '\U{FEFF}'
  }

  /** `s.trimStart()`: the suffix left after dropping the leading white space. */
  function TrimStart(s: string): (r: string)
    ensures |r| <= |s| && r == s[|s| - |r|..]
    ensures forall k :: 0 <= k < |s| - |r| ==> IsJsSpace(s[k])
    ensures r != [] ==> !IsJsSpace(r[0])
  {
    if s != [] && IsJsSpace(s[0]) then TrimStart(s[1..]) else s
  }

  /** `s.trimEnd()`: the prefix left after dropping the trailing white space. */
  function TrimEnd(s: string): (r: string)
    ensures |r| <= |s| && r == s[..|r|]
    ensures forall k :: |r| <= k < |s| ==> IsJsSpace(s[k])
    ensures r != [] ==> !IsJsSpace(r[|r| - 1])
  {
    if s != [] && IsJsSpace(s[|s| - 1]) then TrimEnd(s[..|s| - 1]) else s
  }

  /** Only white space lies outside `s[i..j]`. */
  predicate SpaceOutside(s: string, i: nat, j: nat)
    requires i <= j <= |s|
  {
    (forall k :: 0 <= k < i ==> IsJsSpace(s[k])) && (forall k :: j <= k < |s| ==> IsJsSpace(s[k]))
  }

  /** `s.trim()`: the slice of `s` left after dropping the white space at
      both ends. Empty exactly when `s` is all white space; otherwise it
      begins and ends with a character that is not white space. */
  function Trim(s: string): (r: string)
    ensures |r| <= |s|
    ensures exists i, j :: 0 <= i <= j <= |s| && r == s[i..j] && SpaceOutside(s, i, j)
    ensures r == [] <==> forall k :: 0 <= k < |s| ==> IsJsSpace(s[k])
    ensures r != [] ==> !IsJsSpace(r[0]) && !IsJsSpace(r[|r| - 1])
  {
    var t := TrimStart(s);
    var r := TrimEnd(t);
    SuffixPrefix(s, t, r);
    r
  }

  /** A prefix `r` of a suffix `t` of `s` is a slice of `s`; with white space
      before `t` in `s` and after `r` in `t`, only white space lies outside
      that slice. */
  lemma SuffixPrefix(s: string, t: string, r: string)
    requires |t| <= |s| && t == s[|s| - |t|..] && |r| <= |t| && r == t[..|r|]
    requires forall k :: 0 <= k < |s| - |t| ==> IsJsSpace(s[k])
    requires forall k :: |r| <= k < |t| ==> IsJsSpace(t[k])
    ensures r == s[|s| - |t|..|s| - |t| + |r|]
    ensures SpaceOutside(s, |s| - |t|, |s| - |t| + |r|)
  {
    var i := |s| - |t|;
    forall k | i + |r| <= k < |s|
      ensures IsJsSpace(s[k])
    {
      assert s[k] == t[k - i];
    }
  }

  /** A string that neither starts nor ends with white space is its own trim. */
  lemma TrimKeepsTrimmed(s: string)
    requires s != [] ==> !IsJsSpace(s[0]) && !IsJsSpace(s[|s| - 1])
    ensures Trim(s) == s
  {
  }

  /** Trimming twice is trimming once. */
  lemma TrimIdempotent(s: string)
    ensures Trim(Trim(s)) == Trim(s)
  {
    TrimKeepsTrimmed(Trim(s));
  }

  /** The character `String.prototype.toLowerCase` gives for an ASCII letter. */
  function LowerAscii(c: char): char {
    if 'A' <= c <= 'Z' then (c as int + 32) as char else c
  }

  /** `s.toLowerCase()` on ASCII letters: each character mapped on its own,
      the length unchanged. */
  function ToLowerAscii(s: string): (r: string)
    ensures |r| == |s|
    ensures forall k :: 0 <= k < |s| ==> r[k] == LowerAscii(s[k])
  {
    if s == [] then [] else [LowerAscii(s[0])] + ToLowerAscii(s[1..])
  }

  /** `s.split(sep)[0]`: the longest prefix of `s` free of `sep`, which is all
      of `s` or stops right before the first `sep`. */
  function BeforeFirst(s: string, sep: char): (r: string)
    ensures r <= s && sep !in r
    ensures |r| < |s| ==> s[|r|] == sep
  {
    if s == [] || s[0] == sep then [] else [s[0]] + BeforeFirst(s[1..], sep)
  }

  /** `s.endsWith(suffix)`. */
  predicate EndsWith(s: string, suffix: string) {
    |suffix| <= |s| && s[|s| - |suffix|..] == suffix
  }

  /** `s` ends with `suffix` exactly when it is some string followed by `suffix`. */
  lemma EndsWithIff(s: string, suffix: string)
    ensures EndsWith(s, suffix) <==> exists p :: s == p + suffix
  {
    if EndsWith(s, suffix) {
      assert s == s[..|s| - |suffix|] + suffix;
    }
    if p :| s == p + suffix {
      assert s[|s| - |suffix|..] == suffix;
    }
  }

  /** Both parts of a concatenation show at its ends. */
  lemma ConcatEnds(a: string, b: string)
    ensures a <= a + b && EndsWith(a + b, b)
  {
    assert (a + b)[|a + b| - |b|..] == b;
  }

  /** Wrapping a string in `p` and `c` keeps a prefix of it behind `p` and
      extends a suffix of it by `c`. */
  lemma WrapEnds(p: string, b: string, a: string, t: string, c: string)
    requires a <= b && EndsWith(b, t)
    ensures p + a <= p + b + c
    ensures EndsWith(p + b + c, t + c)
  {
    assert (p + b + c)[..|p + a|] == p + a;
    var w := p + b + c;
    assert w[|w| - |t + c|..] == t + c by {
      assert w[|w| - |t + c|..] == b[|b| - |t|..] + c;
    }
  }

  /** No character of `s` belongs to `chars`. */
  predicate ContainsNone(s: string, chars: set<char>)
    ensures ContainsNone(s, chars) <==> forall c :: c in chars ==> c !in s
  {
    forall k :: 0 <= k < |s| ==> s[k] !in chars
  }

  /** The regular expression `/^https?:/i`: `http:` or `https:` at the start,
      each letter in either case. */
  predicate HasHttpScheme(s: string)
    ensures HasHttpScheme(s) ==> |s| >= 5 && ToLowerAscii(s[..4]) == "http"
    ensures HasHttpScheme(s) ==> s[4] == ':' || (|s| >= 6 && s[5] == ':')
  {
    |s| >= 5
    && LowerAscii(s[0]) == 'h' && LowerAscii(s[1]) == 't'
    && LowerAscii(s[2]) == 't' && LowerAscii(s[3]) == 'p'
    && (s[4] == ':' || (|s| >= 6 && LowerAscii(s[4]) == 's' && s[5] == ':'))
  }

  /** JavaScript's `a || fallback` on an optional string: an absent or empty
      `a` falls through to `fallback`. */
  function OrElse(a: Option<string>, fallback: string): (r: string)
    ensures r == fallback || (a.Some? && r == a.value)
    ensures r == fallback <== a.None? || a.value == ""
    ensures a.Some? && a.value != "" ==> r == a.value
  {
    if a.Some? && a.value != "" then a.value else fallback
  }
}
