/**
 * JavaScript string operations used by the day engine: the relational
 * operators `<` and `<=` on strings (used on ISO day strings and task ids),
 * `localeCompare` (used as an id tiebreak) and `String.prototype.trim`.
 */
module JsStrings {

  /** `a < b` on strings: lexicographic on characters, a proper prefix first. */
  predicate Less(a: string, b: string)
    decreases |a|
  {
    if |a| == 0 then |b| > 0
    else if |b| == 0 then false
    else if a[0] != b[0] then a[0] < b[0]
    else Less(a[1..], b[1..])
  }

  /** `a <= b` on strings, which JavaScript defines as `!(b < a)`. */
  predicate LessOrEqual(a: string, b: string) {
    !Less(b, a)
  }

  lemma {:induction false} LessIrreflexive(a: string)
    ensures !Less(a, a)
  {
    if |a| > 0 {
      LessIrreflexive(a[1..]);
    }
  }

  /** Exactly one of `a < b`, `a == b`, `b < a` holds. */
  lemma {:induction false} LessTrichotomy(a: string, b: string)
    ensures Less(a, b) || a == b || Less(b, a)
    ensures !(Less(a, b) && Less(b, a))
    ensures !(Less(a, b) && a == b)
    decreases |a|
  {
    if a == b {
      LessIrreflexive(a);
    } else if |a| > 0 && |b| > 0 && a[0] == b[0] {
      LessTrichotomy(a[1..], b[1..]);
      assert a == [a[0]] + a[1..] && b == [b[0]] + b[1..];
    }
  }

  lemma {:induction false} LessTransitive(a: string, b: string, c: string)
    requires Less(a, b) && Less(b, c)
    ensures Less(a, c)
    decreases |a|
  {
    if |a| > 0 && |b| > 0 && |c| > 0 && a[0] == b[0] && b[0] == c[0] {
      LessTransitive(a[1..], b[1..], c[1..]);
    }
  }

  /** `<=` is `<` or equality. */
  lemma LessOrEqualIff(a: string, b: string)
    ensures LessOrEqual(a, b) <==> Less(a, b) || a == b
  {
    LessTrichotomy(a, b);
  }

  /**
   * `a.localeCompare(b)`, taken as the plain character order: negative when
   * `a` sorts first, zero when equal, positive when `b` sorts first.
   */
  function LocaleCompare(a: string, b: string): (r: int)
    ensures -1 <= r <= 1
    ensures r < 0 <==> Less(a, b)
    ensures r == 0 <==> a == b
    ensures r > 0 <==> Less(b, a)
  {
    LessTrichotomy(a, b);
    if Less(a, b) then -1 else if a == b then 0 else 1
  }

  /** The characters `trim` removes: ECMAScript WhiteSpace and LineTerminator. */
  const Spaces: set<char> := {
    '\t', '\n', '\U{000B}', '\U{000C}', '\r', ' ', '\U{00A0}', '\U{1680}',
    '\U{2000}', '\U{2001}', '\U{2002}', '\U{2003}', '\U{2004}', '\U{2005}',
    '\U{2006}', '\U{2007}', '\U{2008}', '\U{2009}', '\U{200A}',
    '\U{2028}', '\U{2029}', '\U{202F}', '\U{205F}', '\U{3000}', '\U{FEFF}'
  }

  predicate IsSpace(c: char) {
    c in Spaces
  }

  /** Blank: nothing but whitespace (so `trim()` gives the falsy ""). */
  predicate IsBlank(s: string) {
    forall i :: 0 <= i < |s| ==> IsSpace(s[i])
  }

  /** The first index at or after `i` that does not hold whitespace, or `|s|`. */
  function SkipLeading(s: string, i: nat): (k: nat)
    requires i <= |s|
    ensures i <= k <= |s|
    ensures forall j :: i <= j < k ==> IsSpace(s[j])
    ensures k == |s| || !IsSpace(s[k])
    decreases |s| - i
  {
    if i < |s| && IsSpace(s[i]) then SkipLeading(s, i + 1) else i
  }

  /** The index just past the last non-whitespace character of `s[lo..hi]`, or `lo`. */
  function SkipTrailing(s: string, lo: nat, hi: nat): (e: nat)
    requires lo <= hi <= |s|
    ensures lo <= e <= hi
    ensures forall j :: e <= j < hi ==> IsSpace(s[j])
    ensures e == lo || !IsSpace(s[e - 1])
  {
    if lo < hi && IsSpace(s[hi - 1]) then SkipTrailing(s, lo, hi - 1) else hi
  }

  /** The number of leading whitespace characters. */
  function Lead(s: string): (k: nat)
    ensures k <= |s|
  {
    SkipLeading(s, 0)
  }

  /**
   * `s.trim()`: the slice of `s` left after dropping leading and trailing
   * whitespace. Everything dropped is whitespace, nothing kept starts or
   * ends with it, and the result is empty exactly when `s` is blank.
   */
  function Trim(s: string): (r: string)
    ensures Lead(s) + |r| <= |s| && r == s[Lead(s)..Lead(s) + |r|]
    ensures forall i :: 0 <= i < |s| && !(Lead(s) <= i < Lead(s) + |r|) ==> IsSpace(s[i])
    ensures r == [] || (!IsSpace(r[0]) && !IsSpace(r[|r| - 1]))
    ensures r == [] <==> IsBlank(s)
  {
    var k := Lead(s);
    s[k..SkipTrailing(s, k, |s|)]
  }

  /** A string without surrounding whitespace is its own trim. */
  lemma TrimOfTrimmed(s: string)
    requires s == [] || (!IsSpace(s[0]) && !IsSpace(s[|s| - 1]))
    ensures Trim(s) == s
  {
  }

  /** Trimming is idempotent. */
  lemma TrimIdempotent(s: string)
    ensures Trim(Trim(s)) == Trim(s)
  {
    TrimOfTrimmed(Trim(s));
  }
}
