/** TrackManager.cleanFileName: the display name derived from a file name by
    a chain of four string operations,
      1. drop a trailing `.mp3`, `.wav`, `.ogg`, `.m4a`, `.flac` or `.aac`
         (letters in any case);
      2. drop a leading track number: one or more digits followed by one or
         more separators (white space, `.`, `_` or `-`);
      3. turn every `_` into a space;
      4. trim white space at both ends.
    Strings are sequences of Unicode scalar values; white space is the set
    JavaScript's `\s` and `String.prototype.trim` share. */
module FileNames {

  /** The extensions the first replace recognises, in lower case. */
  const AudioExtensions: seq<string> := ["mp3", "wav", "ogg", "m4a", "flac", "aac"]

  /** JavaScript white space and line terminators. */
  predicate IsJsWhitespace(c: char) {
    var x := c as int;
    x == 0x09 || x == 0x0A || x == 0x0B || x == 0x0C || x == 0x0D || x == 0x20 ||
    x == 0xA0 || x == 0x1680 || (0x2000 <= x <= 0x200A) || x == 0x2028 || x == 0x2029 ||
    x == 0x202F || x == 0x205F || x == 0x3000 || x == 0xFEFF
  }

  /** `\d`: an ASCII decimal digit. */
  predicate IsDigit(c: char) {
    '0' <= c <= '9'
  }

  /** `[\s._-]`. */
  predicate IsSeparator(c: char) {
    IsJsWhitespace(c) || c == '.' || c == '_' || c == '-'
  }

  /** Case folding under the regular expression's `i` flag: only ASCII
      letters have a partner. */
  function Lower(c: char): char {
    if 'A' <= c <= 'Z' then (c as int + 32) as char else c
  }

  predicate EqualsIgnoringCase(a: string, b: string) {
    |a| == |b| && forall k :: 0 <= k < |a| ==> Lower(a[k]) == Lower(b[k])
  }

  /** name ends in `.` followed by ext, in any case. */
  predicate EndsWithExtension(name: string, ext: string) {
    |name| > |ext| && name[|name| - |ext| - 1] == '.' && EqualsIgnoringCase(name[|name| - |ext|..], ext)
  }

  function StripExtensionAmong(name: string, exts: seq<string>): (r: string)
    ensures r <= name
    ensures (exists k :: 0 <= k < |exts| && EndsWithExtension(name, exts[k])) || r == name
  {
    if exts == [] then name
    else if EndsWithExtension(name, exts[0]) then name[..|name| - |exts[0]| - 1]
    else StripExtensionAmong(name, exts[1..])
  }

  /** Step 1: `.replace(/\.(mp3|wav|ogg|m4a|flac|aac)$/i, '')`. */
  function StripExtension(name: string): (r: string)
    ensures r <= name
  {
    StripExtensionAmong(name, AudioExtensions)
  }

  /** The length of the longest prefix of s whose characters all satisfy p. */
  function LeadingRun(s: string, p: char -> bool): (n: nat)
    ensures n <= |s|
    ensures forall k :: 0 <= k < n ==> p(s[k])
    ensures n < |s| ==> !p(s[n])
  {
    if s == [] || !p(s[0]) then 0 else 1 + LeadingRun(s[1..], p)
  }

  /** Step 2: `.replace(/^\d+[\s._-]+/, '')`. The greedy digit run cannot
      give back digits to the separator run, so the match exists exactly
      when the whole leading digit run is followed by a separator. */
  function StripTrackNumber(s: string): (r: string)
    ensures |r| <= |s| && r == s[|s| - |r|..]
  {
    var d := LeadingRun(s, IsDigit);
    var sep := LeadingRun(s[d..], IsSeparator);
    if d == 0 || sep == 0 then s else s[d + sep..]
  }

  /** Step 3: `.replace(/_/g, ' ')`. */
  function UnderscoresToSpaces(s: string): (r: string)
    ensures |r| == |s| && '_' !in r
    ensures forall k :: 0 <= k < |s| ==> r[k] == (if s[k] == '_' then ' ' else s[k])
  {
    seq(|s|, k requires 0 <= k < |s| => if s[k] == '_' then ' ' else s[k])
  }

  /** The number of white-space characters at the end of s. */
  function TrailingWhitespace(s: string): (n: nat)
    ensures n <= |s|
    ensures forall k :: |s| - n <= k < |s| ==> IsJsWhitespace(s[k])
    ensures n < |s| ==> !IsJsWhitespace(s[|s| - n - 1])
  {
    if s == [] || !IsJsWhitespace(s[|s| - 1]) then 0
    else
      var n := TrailingWhitespace(s[..|s| - 1]);
      1 + n
  }

  /** Step 4: `.trim()`. */
  function Trim(s: string): (r: string)
    ensures |r| <= |s|
  {
    var a := LeadingRun(s, IsJsWhitespace);
    var b := TrailingWhitespace(s[a..]);
    s[a..|s| - b]
  }

  /** The whole chain. */
  function CleanFileName(name: string): (r: string)
    ensures |r| <= |name|
  {
    Trim(UnderscoresToSpaces(StripTrackNumber(StripExtension(name))))
  }

  // ---------------------------------------------------------------------
  // Properties
  // ---------------------------------------------------------------------

  /** trim removes exactly the white space at both ends: the result is the
      slice s[a..b], everything cut off is white space, and neither end of
      the result is. */
  lemma TrimCharacterized(s: string) returns (a: nat, b: nat)
    ensures a <= b <= |s| && Trim(s) == s[a..b]
    ensures forall k :: 0 <= k < a ==> IsJsWhitespace(s[k])
    ensures forall k :: b <= k < |s| ==> IsJsWhitespace(s[k])
    ensures a < b ==> !IsJsWhitespace(s[a]) && !IsJsWhitespace(s[b - 1])
  {
    a := LeadingRun(s, IsJsWhitespace);
    var t := s[a..];
    var n := TrailingWhitespace(t);
    b := |s| - n;
    forall k | b <= k < |s| ensures IsJsWhitespace(s[k]) {
      assert s[k] == t[k - a];
    }
    if a < b {
      assert s[b - 1] == t[|t| - n - 1];
    }
  }

  /** trim keeps no character its input lacks, and the result neither
      starts nor ends with white space. */
  lemma TrimShape(s: string, c: char)
    ensures c !in s ==> c !in Trim(s)
    ensures var r := Trim(s);
      r != [] ==> !IsJsWhitespace(r[0]) && !IsJsWhitespace(r[|r| - 1])
  {
    var a, b := TrimCharacterized(s);
    var r := s[a..b];
    assert forall k :: 0 <= k < |r| ==> r[k] == s[a + k];
    if r != [] {
      assert r[0] == s[a] && r[|r| - 1] == s[b - 1];
    }
  }

  /** A displayed name never contains `_` and never starts or ends with
      white space. */
  lemma CleanFileNameShape(name: string)
    ensures '_' !in CleanFileName(name)
    ensures var r := CleanFileName(name);
      r != [] ==> !IsJsWhitespace(r[0]) && !IsJsWhitespace(r[|r| - 1])
  {
    var u := UnderscoresToSpaces(StripTrackNumber(StripExtension(name)));
    assert '_' !in u;
    TrimShape(u, '_');
  }

  /** Step 1 removes a recognised extension, whatever its case. */
  lemma StripsKnownExtension(base: string, ext: string, k: nat)
    requires k < |AudioExtensions| && EqualsIgnoringCase(ext, AudioExtensions[k])
    ensures StripExtension(base + "." + ext) == base
  {
    var name := base + "." + ext;
    assert name[|name| - |ext|..] == ext;
    assert name[|name| - |ext| - 1] == '.';
    assert name[..|name| - |ext| - 1] == base;
    // no other extension in the list also matches the end of the name
    forall i | 0 <= i < |AudioExtensions| && EndsWithExtension(name, AudioExtensions[i])
      ensures i == k
    {
      var e := AudioExtensions[i];
      var f := AudioExtensions[k];
      assert Lower(name[|name| - 1]) == Lower(e[|e| - 1]) == Lower(f[|f| - 1]);
      assert Lower(name[|name| - 2]) == Lower(e[|e| - 2]) == Lower(f[|f| - 2]);
      assert Lower(name[|name| - 3]) == Lower(e[|e| - 3]) == Lower(f[|f| - 3]);
    }
    StripAmongFirstMatch(name, AudioExtensions, k);
  }

  lemma {:induction false} StripAmongFirstMatch(name: string, exts: seq<string>, k: nat)
    requires k < |exts| && EndsWithExtension(name, exts[k])
    requires forall i :: 0 <= i < |exts| && EndsWithExtension(name, exts[i]) ==> i == k
    ensures StripExtensionAmong(name, exts) == name[..|name| - |exts[k]| - 1]
  {
    if k > 0 {
      StripAmongFirstMatch(name, exts[1..], k - 1);
    }
  }

  /** Without a recognised extension step 1 changes nothing. */
  lemma KeepsUnknownExtension(name: string)
    requires forall k :: 0 <= k < |AudioExtensions| ==> !EndsWithExtension(name, AudioExtensions[k])
    ensures StripExtension(name) == name
  {
  }

  /** Step 2 removes a leading number and the whole separator run after it;
      the rest is kept intact. */
  lemma StripsTrackNumber(digits: string, seps: string, rest: string)
    requires digits != [] && forall k :: 0 <= k < |digits| ==> IsDigit(digits[k])
    requires seps != [] && forall k :: 0 <= k < |seps| ==> IsSeparator(seps[k])
    requires rest == [] || !IsSeparator(rest[0])
    ensures StripTrackNumber(digits + seps + rest) == rest
  {
    var s := digits + seps + rest;
    LeadingRunOfPrefix(digits, seps + rest, IsDigit);
    assert s == digits + (seps + rest);
    assert s[|digits|..] == seps + rest;
    LeadingRunOfPrefix(seps, rest, IsSeparator);
    assert s[|digits| + |seps|..] == rest;
  }

  lemma {:induction false} LeadingRunOfPrefix(u: string, v: string, p: char -> bool)
    requires forall k :: 0 <= k < |u| ==> p(u[k])
    requires v == [] || !p(v[0])
    ensures LeadingRun(u + v, p) == |u|
  {
    if u != [] {
      assert (u + v)[1..] == u[1..] + v;
      LeadingRunOfPrefix(u[1..], v, p);
    } else {
      assert u + v == v;
    }
  }

  /** Step 2 leaves a name that does not start with a digit alone. */
  lemma KeepsUnnumberedName(s: string)
    requires s == [] || !IsDigit(s[0])
    ensures StripTrackNumber(s) == s
  {
  }

  /** Step 2 leaves a name alone when its leading digits run up to a
      character that is not a separator ("2pac"). */
  lemma KeepsNumberWithoutSeparator(s: string)
    requires LeadingRun(s, IsDigit) < |s| && !IsSeparator(s[LeadingRun(s, IsDigit)])
    ensures StripTrackNumber(s) == s
  {
  }

  /** Step 2 changes a name exactly when it starts with digits that are
      followed by a separator. */
  lemma StripTrackNumberChanges(s: string)
    ensures var d := LeadingRun(s, IsDigit);
      StripTrackNumber(s) != s <==> 0 < d < |s| && IsSeparator(s[d])
  {
    var d := LeadingRun(s, IsDigit);
    if 0 < d < |s| && IsSeparator(s[d]) {
      assert s[d..][0] == s[d];
      assert |StripTrackNumber(s)| < |s|;
    }
  }
}
