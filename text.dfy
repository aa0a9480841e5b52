/** String helpers with Python's meaning: `str.split`, `str.strip` and the
    code-point order used by `<` on `str`. */
module Text {

  /** Python's `str.isspace()`: the characters `str.strip()` removes. */
  predicate IsSpace(c: char) {
    || ('\t' <= c <= '\r')
    || ('\U{1C}' <= c <= '\U{1F}')
    || c == ' ' || c == '\U{85}' || c == '\U{A0}' || c == '\U{1680}'
    || ('\U{2000}' <= c <= '\U{200A}')
    || c == '\U{2028}' || c == '\U{2029}' || c == '\U{202F}' || c == '\U{205F}' || c == '\U{3000}'
  }

  predicate AllSpace(s: string) {
    forall i :: 0 <= i < |s| ==> IsSpace(s[i])
  }

  /** Index of the first non-space character of `s` at or after `i`
      (`|s|` when there is none). */
  function SkipSpaces(s: string, i: nat): (j: nat)
    requires i <= |s|
    ensures i <= j <= |s|
    ensures forall k :: i <= k < j ==> IsSpace(s[k])
    ensures j == |s| || !IsSpace(s[j])
    decreases |s| - i
  {
    if i < |s| && IsSpace(s[i]) then SkipSpaces(s, i + 1) else i
  }

  /** Index just past the last non-space character of `s[lo..hi]`
      (`lo` when there is none). */
  function SkipSpacesBack(s: string, lo: nat, hi: nat): (j: nat)
    requires lo <= hi <= |s|
    ensures lo <= j <= hi
    ensures forall k :: j <= k < hi ==> IsSpace(s[k])
    ensures j == lo || !IsSpace(s[j - 1])
    decreases hi
  {
    if lo < hi && IsSpace(s[hi - 1]) then SkipSpacesBack(s, lo, hi - 1) else hi
  }

  /** Python's `str.strip()` with no argument: the text between the
      leading and the trailing whitespace. */
  function Strip(s: string): string {
    var i := SkipSpaces(s, 0);
    s[i..SkipSpacesBack(s, i, |s|)]
  }

  /** The scan forward stops at the first non-space character. */
  lemma {:induction false} SkipSpacesAt(s: string, i: nat, j: nat)
    requires i <= j <= |s|
    requires forall k :: i <= k < j ==> IsSpace(s[k])
    requires j == |s| || !IsSpace(s[j])
    ensures SkipSpaces(s, i) == j
    decreases j - i
  {
    if i < j {
      SkipSpacesAt(s, i + 1, j);
    }
  }

  /** The scan backward stops after the last non-space character. */
  lemma {:induction false} SkipSpacesBackAt(s: string, lo: nat, j: nat, hi: nat)
    requires lo <= j <= hi <= |s|
    requires forall k :: j <= k < hi ==> IsSpace(s[k])
    requires j == lo || !IsSpace(s[j - 1])
    ensures SkipSpacesBack(s, lo, hi) == j
    decreases hi - j
  {
    if j < hi {
      SkipSpacesBackAt(s, lo, j, hi - 1);
    }
  }

  /** `Strip` is fully determined: text that neither starts nor ends with
      whitespace, padded on both sides with whitespace, strips back to
      itself. */
  lemma StripPadded(p: string, m: string, q: string)
    requires AllSpace(p) && AllSpace(q)
    requires m == [] || (!IsSpace(m[0]) && !IsSpace(m[|m| - 1]))
    ensures Strip(p + m + q) == m
  {
    var s := p + m + q;
    if m == [] {
      forall k | 0 <= k < |s|
        ensures IsSpace(s[k])
      {
        if k < |p| { assert s[k] == p[k]; } else { assert s[k] == q[k - |p|]; }
      }
      SkipSpacesAt(s, 0, |s|);
      SkipSpacesBackAt(s, |s|, |s|, |s|);
      assert s[|s|..|s|] == m;
    } else {
      var i, j := |p|, |p| + |m|;
      forall k | 0 <= k < i
        ensures IsSpace(s[k])
      {
        assert s[k] == p[k];
      }
      assert s[i] == m[0];
      SkipSpacesAt(s, 0, i);
      forall k | j <= k < |s|
        ensures IsSpace(s[k])
      {
        assert s[k] == q[k - j];
      }
      assert s[j - 1] == m[|m| - 1];
      SkipSpacesBackAt(s, i, j, |s|);
      assert s[i..j] == m;
    }
  }

  /** The result of `Strip` neither starts nor ends with whitespace. */
  lemma StripEnds(s: string)
    ensures var r := Strip(s);
      r == [] || (!IsSpace(r[0]) && !IsSpace(r[|r| - 1]))
  {
    var i := SkipSpaces(s, 0);
    var j := SkipSpacesBack(s, i, |s|);
    if i < j {
      assert Strip(s)[0] == s[i];
      assert Strip(s)[j - i - 1] == s[j - 1];
    }
  }

  /** Stripping twice is stripping once. */
  lemma StripIdempotent(s: string)
    ensures Strip(Strip(s)) == Strip(s)
  {
    var r := Strip(s);
    StripEnds(s);
    StripPadded([], r, []);
    assert [] + r + [] == r;
  }

  /** Index of the first occurrence of `c` in `s`. */
  function IndexOf(s: string, c: char): (i: nat)
    requires c in s
    ensures i < |s| && s[i] == c && c !in s[..i]
  {
    if s[0] == c then 0 else 1 + IndexOf(s[1..], c)
  }

  /** Python's `s.split(sep)` for a one-character separator: the fields
      between the separators, which never contain the separator. */
  function Split(s: string, sep: char): (parts: seq<string>)
    ensures |parts| >= 1
    ensures forall k :: 0 <= k < |parts| ==> sep !in parts[k]
    decreases |s|
  {
    if sep !in s then [s]
    else
      var i := IndexOf(s, sep);
      [s[..i]] + Split(s[i + 1..], sep)
  }

  /** Python's `sep.join(parts)`. */
  function Join(parts: seq<string>, sep: char): string
    requires |parts| >= 1
  {
    if |parts| == 1 then parts[0] else parts[0] + [sep] + Join(parts[1..], sep)
  }

  /** Splitting and joining back gives the original string. */
  lemma {:induction false} JoinSplit(s: string, sep: char)
    ensures Join(Split(s, sep), sep) == s
    decreases |s|
  {
    if sep in s {
      var i := IndexOf(s, sep);
      JoinSplit(s[i + 1..], sep);
      assert s == s[..i] + [sep] + s[i + 1..];
    }
  }

  /** Joining fields that do not contain the separator and splitting again
      gives back the same fields. */
  lemma {:induction false} SplitJoin(parts: seq<string>, sep: char)
    requires |parts| >= 1
    requires forall k :: 0 <= k < |parts| ==> sep !in parts[k]
    ensures Split(Join(parts, sep), sep) == parts
  {
    if |parts| > 1 {
      var tail := parts[1..];
      forall k | 0 <= k < |tail|
        ensures sep !in tail[k]
      {
        assert tail[k] == parts[k + 1];
      }
      var rest := Join(tail, sep);
      assert Join(parts, sep) == parts[0] + [sep] + rest;
      SplitAtFirst(parts[0], sep, rest);
      SplitJoin(tail, sep);
      assert parts == [parts[0]] + tail;
    }
  }

  lemma JoinThree(parts: seq<string>, sep: char)
    requires |parts| == 3
    ensures Join(parts, sep) == parts[0] + [sep] + parts[1] + [sep] + parts[2]
  {
    var a, b, c := parts[0], parts[1], parts[2];
    assert parts[1..] == [b, c] && [b, c][1..] == [c];
    assert Join([b, c], sep) == b + [sep] + c;
    assert a + [sep] + (b + [sep] + c) == a + [sep] + b + [sep] + c;
  }

  /** Three separator-free fields joined by the separator split back apart. */
  lemma SplitThree(a: string, b: string, c: string, sep: char)
    requires sep !in a && sep !in b && sep !in c
    ensures Split(a + [sep] + b + [sep] + c, sep) == [a, b, c]
  {
    JoinThree([a, b, c], sep);
    SplitJoin([a, b, c], sep);
  }

  /** The first separator of `p + [sep] + rest`, when `p` has none, is the
      one after `p`. */
  lemma {:induction false} IndexAfter(p: string, sep: char, rest: string)
    requires sep !in p
    ensures IndexOf(p + [sep] + rest, sep) == |p|
  {
    if p != [] {
      assert p[0] in p;
      assert forall c <- p[1..] :: c in p;
      assert (p + [sep] + rest)[1..] == p[1..] + [sep] + rest;
      IndexAfter(p[1..], sep, rest);
    }
  }

  lemma SplitAtFirst(p: string, sep: char, rest: string)
    requires sep !in p
    ensures Split(p + [sep] + rest, sep) == [p] + Split(rest, sep)
  {
    var s := p + [sep] + rest;
    assert s[|p|] == sep;
    IndexAfter(p, sep, rest);
    assert s[..|p|] == p;
    assert s[|p| + 1..] == rest;
  }

  /** The first field of `Split(s, sep)` is the text before the first
      separator, or all of `s` when there is none. */
  lemma FirstField(s: string, sep: char)
    ensures var p := Split(s, sep)[0];
      p <= s && sep !in p && (|p| < |s| ==> s[|p|] == sep) && (sep !in s ==> p == s)
  {
  }

  /** Python's `a <= b` on `str`: lexicographic by code point. */
  predicate LexLe(a: string, b: string) {
    if a == [] then true
    else if b == [] then false
    else if a[0] != b[0] then a[0] < b[0]
    else LexLe(a[1..], b[1..])
  }

  lemma {:induction false} LexLeTotal(a: string, b: string)
    ensures LexLe(a, b) || LexLe(b, a)
  {
    if a != [] && b != [] && a[0] == b[0] {
      LexLeTotal(a[1..], b[1..]);
    }
  }

  lemma {:induction false} LexLeTransitive(a: string, b: string, c: string)
    requires LexLe(a, b) && LexLe(b, c)
    ensures LexLe(a, c)
  {
    if a != [] && b != [] && c != [] && a[0] == b[0] && b[0] == c[0] {
      LexLeTransitive(a[1..], b[1..], c[1..]);
    }
  }

  lemma {:induction false} LexLeAntisymmetric(a: string, b: string)
    requires LexLe(a, b) && LexLe(b, a)
    ensures a == b
  {
    if a != [] && b != [] {
      LexLeAntisymmetric(a[1..], b[1..]);
    }
  }
}
