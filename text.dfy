/**
 * The handful of Python string operations the modelled routines use:
 * `str.strip()`, `str.split(sep)`, `str.startswith`, `str.replace` and the
 * code-point order that `<` puts on strings.
 */
module Text {

  /** The characters `str.isspace()` accepts, which `str.strip()` removes. */
  predicate IsSpace(c: char)
  {
    || c == ' '
    || ('\t' <= c <= '\r')
    || ('\U{1C}' <= c <= '\U{1F}')
    || c == '\U{85}' || c == '\U{A0}' || c == '\U{1680}'
    || ('\U{2000}' <= c <= '\U{200A}')
    || c == '\U{2028}' || c == '\U{2029}' || c == '\U{202F}' || c == '\U{205F}' || c == '\U{3000}'
  }

  /** The index of the first non-whitespace character at or after `i` (or `|s|`). */
  function LeadingEnd(s: string, i: nat): (k: nat)
    requires i <= |s|
    ensures i <= k <= |s|
    ensures forall j :: i <= j < k ==> IsSpace(s[j])
    ensures k == |s| || !IsSpace(s[k])
    decreases |s| - i
  {
    if i < |s| && IsSpace(s[i]) then LeadingEnd(s, i + 1) else i
  }

  /** The index just past the last non-whitespace character in `s[lo..hi]` (or `lo`). */
  function TrailingStart(s: string, lo: nat, hi: nat): (k: nat)
    requires lo <= hi <= |s|
    ensures lo <= k <= hi
    ensures forall j :: k <= j < hi ==> IsSpace(s[j])
    ensures k == lo || !IsSpace(s[k - 1])
    decreases hi
  {
    if lo < hi && IsSpace(s[hi - 1]) then TrailingStart(s, lo, hi - 1) else hi
  }

  /** `s.strip()`: `s` without its leading and trailing whitespace. */
  function Strip(s: string): (r: string)
    ensures |r| <= |s|
    ensures r != [] ==> !IsSpace(r[0]) && !IsSpace(r[|r| - 1])
  {
    var lo := LeadingEnd(s, 0);
    s[lo..TrailingStart(s, lo, |s|)]
  }

  /**
   * The stripped string is the slice of `s` that starts at the first
   * non-whitespace character, and everything outside it is whitespace.
   */
  lemma StripSlice(s: string)
    ensures var lo := LeadingEnd(s, 0);
            && lo + |Strip(s)| <= |s| && Strip(s) == s[lo..lo + |Strip(s)|]
            && (forall j :: 0 <= j < lo ==> IsSpace(s[j]))
            && (forall j :: lo + |Strip(s)| <= j < |s| ==> IsSpace(s[j]))
  {
    var lo := LeadingEnd(s, 0);
    var hi := TrailingStart(s, lo, |s|);
    assert |Strip(s)| == hi - lo;
  }

  /** A stripped line is empty exactly when the line is all whitespace. */
  lemma StripBlank(s: string)
    ensures Strip(s) == [] <==> forall i :: 0 <= i < |s| ==> IsSpace(s[i])
  {
    var lo := LeadingEnd(s, 0);
    var hi := TrailingStart(s, lo, |s|);
    if Strip(s) != [] {
      assert Strip(s)[0] == s[lo];
    } else {
      assert hi == lo;
    }
  }

  /** `s.startswith(p)`. */
  predicate StartsWith(s: string, p: string)
  {
    |p| <= |s| && s[..|p|] == p
  }

  /** `s.split(sep)` for a one-character separator. */
  function Split(s: string, sep: char): (parts: seq<string>)
    ensures |parts| >= 1
    ensures forall i :: 0 <= i < |parts| ==> sep !in parts[i]
  {
    if s == [] then [""]
    else
      var rest := Split(s[1..], sep);
      if s[0] == sep then [""] + rest
      else [[s[0]] + rest[0]] + rest[1..]
  }

  /** `sep.join(parts)`. */
  function Join(parts: seq<string>, sep: char): string
    requires |parts| >= 1
  {
    if |parts| == 1 then parts[0] else parts[0] + [sep] + Join(parts[1..], sep)
  }

  /** Joining the pieces of a split gives back the original string. */
  lemma {:induction false} JoinSplit(s: string, sep: char)
    ensures Join(Split(s, sep), sep) == s
  {
    if s != [] {
      JoinSplit(s[1..], sep);
      var rest := Split(s[1..], sep);
      if s[0] == sep {
        assert Join([""] + rest, sep) == "" + [sep] + Join(rest, sep);
      } else if |rest| > 1 {
        var parts := [[s[0]] + rest[0]] + rest[1..];
        assert Join(rest, sep) == rest[0] + [sep] + Join(rest[1..], sep);
        assert parts[1..] == rest[1..];
        assert Join(parts, sep) == [s[0]] + rest[0] + [sep] + Join(rest[1..], sep);
      }
      assert s == [s[0]] + s[1..];
    }
  }

  /** Splitting a string whose leading part holds no separator extends that part. */
  lemma {:induction false} SplitPrefix(p: string, t: string, sep: char)
    requires sep !in p
    ensures Split(p + t, sep) == [p + Split(t, sep)[0]] + Split(t, sep)[1..]
  {
    if p != [] {
      SplitPrefix(p[1..], t, sep);
      assert (p + t)[1..] == p[1..] + t;
      assert p[0] != sep by { assert p[0] in p; }
      assert [p[0]] + (p[1..] + Split(t, sep)[0]) == p + Split(t, sep)[0];
    } else {
      assert p + t == t;
      assert p + Split(t, sep)[0] == Split(t, sep)[0];
    }
  }

  /** Splitting a join of separator-free pieces gives back the pieces. */
  lemma {:induction false} SplitJoin(parts: seq<string>, sep: char)
    requires |parts| >= 1
    requires forall i :: 0 <= i < |parts| ==> sep !in parts[i]
    ensures Split(Join(parts, sep), sep) == parts
  {
    if |parts| == 1 {
      SplitPrefix(parts[0], "", sep);
      assert parts[0] + "" == parts[0];
    } else {
      SplitJoin(parts[1..], sep);
      var tail := [sep] + Join(parts[1..], sep);
      assert Join(parts, sep) == parts[0] + tail;
      SplitPrefix(parts[0], tail, sep);
      assert tail[1..] == Join(parts[1..], sep);
      assert Split(tail, sep) == [""] + parts[1..];
      assert parts[0] + "" == parts[0];
      assert parts == [parts[0] + ""] + parts[1..];
    }
  }

  /** `pat in s`: `pat` occurs somewhere in `s`. */
  predicate Contains(s: string, pat: string)
    decreases |s|
  {
    |pat| <= |s| && (s[..|pat|] == pat || (s != [] && Contains(s[1..], pat)))
  }

  /** `s.replace(pat, rep)`: every non-overlapping occurrence, scanning left to right. */
  function Replace(s: string, pat: string, rep: string): (r: string)
    requires |pat| > 0
    ensures rep == pat ==> r == s
    ensures !Contains(s, pat) ==> r == s
    ensures |rep| <= |pat| ==> |r| <= |s|
    decreases |s|
  {
    if |s| < |pat| then s
    else if s[..|pat|] == pat then rep + Replace(s[|pat|..], pat, rep)
    else [s[0]] + Replace(s[1..], pat, rep)
  }

  /** A last character that cannot end an occurrence of `pat` survives `replace`. */
  lemma {:induction false} ReplaceKeepsLast(s: string, pat: string, rep: string)
    requires |pat| > 0
    requires s != [] && s[|s| - 1] != pat[|pat| - 1]
    ensures var r := Replace(s, pat, rep); r != [] && r[|r| - 1] == s[|s| - 1]
    decreases |s|
  {
    if |s| >= |pat| {
      if s[..|pat|] == pat {
        assert |s| != |pat| by { assert s[..|pat|][|pat| - 1] == s[|pat| - 1]; }
        var t := s[|pat|..];
        assert t != [] && t[|t| - 1] == s[|s| - 1];
        ReplaceKeepsLast(t, pat, rep);
        assert Replace(s, pat, rep) == rep + Replace(t, pat, rep);
      } else if |s| > 1 {
        var t := s[1..];
        assert t != [] && t[|t| - 1] == s[|s| - 1];
        ReplaceKeepsLast(t, pat, rep);
        assert Replace(s, pat, rep) == [s[0]] + Replace(t, pat, rep);
      } else {
        assert Replace(s, pat, rep) == [s[0]] + Replace([], pat, rep);
      }
    }
  }

  /** Replacing one character, expressed character by character. */
  function Substitute(s: string, c: char, rep: string): string
  {
    if s == [] then [] else (if s[0] == c then rep else [s[0]]) + Substitute(s[1..], c, rep)
  }

  /** `Substitute` distributes over concatenation. */
  lemma {:induction false} SubstituteAppend(a: string, b: string, c: char, rep: string)
    ensures Substitute(a + b, c, rep) == Substitute(a, c, rep) + Substitute(b, c, rep)
  {
    if a != [] {
      SubstituteAppend(a[1..], b, c, rep);
      assert (a + b)[1..] == a[1..] + b;
    } else {
      assert a + b == b;
    }
  }

  /** For a one-character pattern, `replace` rewrites each occurrence of that character. */
  lemma {:induction false} ReplaceChar(s: string, c: char, rep: string)
    ensures Replace(s, [c], rep) == Substitute(s, c, rep)
  {
    if s != [] {
      ReplaceChar(s[1..], c, rep);
      assert s[..1] == [c] <==> s[0] == c;
    }
  }

  /** Python's `a < b` on strings: lexicographic by code point. */
  predicate Less(a: string, b: string)
    ensures |a| < |b| && b[..|a|] == a ==> Less(a, b)
  {
    if a == [] then b != []
    else if b == [] then false
    else if a[0] != b[0] then a[0] < b[0]
    else Less(a[1..], b[1..])
  }

  lemma {:induction false} LessIrreflexive(a: string)
    ensures !Less(a, a)
  {
    if a != [] {
      LessIrreflexive(a[1..]);
    }
  }

  lemma {:induction false} LessTransitive(a: string, b: string, c: string)
    requires Less(a, b) && Less(b, c)
    ensures Less(a, c)
  {
    if a != [] && b != [] && c != [] && a[0] == b[0] && b[0] == c[0] {
      LessTransitive(a[1..], b[1..], c[1..]);
    }
  }

  lemma {:induction false} LessTotal(a: string, b: string)
    ensures a == b || Less(a, b) || Less(b, a)
  {
    if a != [] && b != [] && a[0] == b[0] {
      LessTotal(a[1..], b[1..]);
      if a[1..] == b[1..] {
        assert a == [a[0]] + a[1..] && b == [b[0]] + b[1..];
      }
    }
  }

  lemma LessAsymmetric(a: string, b: string)
    requires Less(a, b)
    ensures !Less(b, a)
  {
    if Less(b, a) {
      LessTransitive(a, b, a);
      LessIrreflexive(a);
    }
  }
}
