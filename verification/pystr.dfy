/** The few Python `str` operations the digest builder relies on, over `seq<char>`. */
module PyStr {
  import opened Wrappers
  import opened Seqs

  /** Python's `str.isspace()` on one character: exactly the characters `str.strip()`
      with no argument removes (the ASCII controls 9 to 13 and 28 to 31, the space,
      and the Unicode separators). */
  predicate IsSpace(c: char)
  {
    || '\t' <= c <= '\r'
    || '\U{1C}' <= c <= ' '
    || c == '\U{85}' || c == '\U{A0}' || c == '\U{1680}'
    || '\U{2000}' <= c <= '\U{200A}'
    || c == '\U{2028}' || c == '\U{2029}' || c == '\U{202F}' || c == '\U{205F}' || c == '\U{3000}'
  }

  /** `str.isdigit()`, restricted to the ASCII digits. */
  predicate IsDigit(c: char)
  {
    '0' <= c <= '9'
  }

  /** Python truthiness of an `Optional[str]`: present and non-empty. */
  predicate Truthy(o: Option<string>)
  {
    o.Some? && o.value != ""
  }

  predicate AllSpace(s: string)
  {
    forall i :: 0 <= i < |s| ==> IsSpace(s[i])
  }

  /** Neither end of `s` is whitespace. */
  predicate Stripped(s: string)
  {
    |s| == 0 || (!IsSpace(s[0]) && !IsSpace(s[|s| - 1]))
  }

  /** `s.lstrip()`. */
  function TrimStart(s: string): (r: string)
    ensures |r| <= |s| && r == s[|s| - |r|..]
    ensures AllSpace(s[..|s| - |r|])
    ensures |r| > 0 ==> !IsSpace(r[0])
    decreases |s|
  {
    if |s| > 0 && IsSpace(s[0]) then TrimStart(s[1..]) else s
  }

  /** `s.rstrip()`. */
  function TrimEnd(s: string): (r: string)
    ensures |r| <= |s| && r == s[..|r|]
    ensures AllSpace(s[|r|..])
    ensures |r| > 0 ==> !IsSpace(r[|r| - 1])
    decreases |s|
  {
    if |s| > 0 && IsSpace(s[|s| - 1]) then TrimEnd(s[..|s| - 1]) else s
  }

  /** `s.strip()`: `s` without its leading and trailing whitespace. */
  function Strip(s: string): (r: string)
    ensures Stripped(r)
    ensures |r| <= |s|
    ensures Stripped(s) ==> r == s
  {
    TrimEnd(TrimStart(s))
  }

  /** `r` occurs in `s` at offset `i`, with nothing but whitespace before and after it. */
  predicate IsInfixAt(s: string, r: string, i: nat)
  {
    && i + |r| <= |s|
    && r == s[i..i + |r|]
    && AllSpace(s[..i])
    && AllSpace(s[i + |r|..])
  }

  /** What `strip()` removes is whitespace at the two ends, and nothing else: the
      result is the slice of `s` that starts where `lstrip()` stops. */
  lemma StripIsInfix(s: string)
    ensures IsInfixAt(s, Strip(s), |s| - |TrimStart(s)|)
  {
    var t := TrimStart(s);
    TrimEndOfSuffix(s, |s| - |t|, t);
  }

  /** Right-stripping the suffix `t == s[i..]`, after a whitespace prefix, leaves a
      slice of `s` followed by whitespace. */
  lemma TrimEndOfSuffix(s: string, i: nat, t: string)
    requires i <= |s| && t == s[i..] && AllSpace(s[..i])
    ensures IsInfixAt(s, TrimEnd(t), i)
  {
    var r := TrimEnd(t);
    assert s[i + |r|..] == t[|r|..];
  }

  /** `s.split(sep)` with an explicit separator: the pieces between separators. */
  function Split(s: string, sep: char): (parts: seq<string>)
    ensures |parts| >= 1
    ensures forall j :: 0 <= j < |parts| ==> sep !in parts[j]
    ensures Join(parts, sep) == s
    decreases |s|
  {
    if sep !in s then [s]
    else
      var i := IndexOf(s, sep);
      var rest := Split(s[i + 1..], sep);
      assert s == s[..i] + [sep] + s[i + 1..];
      [s[..i]] + rest
  }

  /** `sep.join(parts)`. */
  function Join(parts: seq<string>, sep: char): string
  {
    if |parts| == 0 then ""
    else if |parts| == 1 then parts[0]
    else parts[0] + [sep] + Join(parts[1..], sep)
  }

  /** Splitting a joined text gives the pieces back, when no piece holds the separator. */
  lemma {:induction false} SplitJoin(parts: seq<string>, sep: char)
    requires |parts| >= 1
    requires forall j :: 0 <= j < |parts| ==> sep !in parts[j]
    ensures Split(Join(parts, sep), sep) == parts
    decreases |parts|
  {
    if |parts| > 1 {
      var s := Join(parts, sep);
      var n := |parts[0]|;
      var tail := Join(parts[1..], sep);
      assert s == parts[0] + [sep] + tail;
      assert s[n] == sep;
      assert s[..n] == parts[0];
      IndexOfIsUnique(s, sep, n);
      assert s[n + 1..] == tail;
      calc {
        Split(s, sep);
        [s[..n]] + Split(s[n + 1..], sep);
        [parts[0]] + Split(tail, sep);
        { SplitJoin(parts[1..], sep); }
        [parts[0]] + parts[1..];
        { Uncons(parts); }
        parts;
      }
    }
  }

  /** `s.split(sep, 1)[-1]` when `sep in s`: everything after the first `sep`. */
  function AfterFirst(s: string, sep: char): (r: string)
    requires sep in s
    ensures |r| < |s|
    ensures s == s[..|s| - |r| - 1] + [sep] + r
    ensures sep !in s[..|s| - |r| - 1]
  {
    var i := IndexOf(s, sep);
    assert s == s[..i] + [sep] + s[i + 1..];
    s[i + 1..]
  }
}
