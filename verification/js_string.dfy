/** The JavaScript string built-ins the form code relies on, over strings of Unicode scalar
    values: the `\s` class and `trim`, `length` in UTF-16 code units, and `split` and `join`
    with a one-character separator, together with `IndexOf`, the first position of a character,
    in whose terms the pieces of a split are described. */
module JsString {

  /** White space in the sense of both the regular-expression class `\s` and `String.prototype.trim`:
      ECMAScript's WhiteSpace (tab, vertical tab, form feed, space, no-break space, byte order mark,
      the Unicode space separators) and LineTerminator (line feed, carriage return, U+2028, U+2029). */
  predicate IsWhitespace(c: char) {
    || c == '\t' || c == '\n' || c == '\U{B}' || c == '\U{C}' || c == '\r' || c == ' '
    || c == '\U{A0}' || c == '\U{1680}' || ('\U{2000}' <= c <= '\U{200A}')
    || c == '\U{2028}' || c == '\U{2029}' || c == '\U{202F}' || c == '\U{205F}'
    || c == '\U{3000}' || c == '\U{FEFF}'
  }

  predicate AllWhitespace(s: string) {
    forall i :: 0 <= i < |s| ==> IsWhitespace(s[i])
  }

  /** Positions `lo` up to `hi` of `s` hold white space. */
  predicate WhitespaceBetween(s: string, lo: int, hi: int)
    requires 0 <= lo && hi <= |s|
  {
    forall k :: lo <= k < hi ==> IsWhitespace(s[k])
  }

  /** How many white-space characters `s` starts with. */
  function LeadingWhitespace(s: string): (n: nat)
    ensures n <= |s| && WhitespaceBetween(s, 0, n)
    ensures n == |s| || !IsWhitespace(s[n])
  {
    if s != [] && IsWhitespace(s[0]) then
      var n := 1 + LeadingWhitespace(s[1..]);
      assert forall k :: 1 <= k < n ==> s[k] == s[1..][k - 1];
      n
    else 0
  }

  /** How many white-space characters `s` ends with. */
  function TrailingWhitespace(s: string): (n: nat)
    ensures n <= |s| && WhitespaceBetween(s, |s| - n, |s|)
    ensures n == |s| || !IsWhitespace(s[|s| - n - 1])
  {
    if s != [] && IsWhitespace(s[|s| - 1]) then
      var n := 1 + TrailingWhitespace(s[..|s| - 1]);
      assert forall k :: |s| - n <= k < |s| - 1 ==> s[k] == s[..|s| - 1][k];
      n
    else 0
  }

  /** `String.prototype.trim`: what is left of `s` after its leading white space, up to the white
      space that ends it; the result neither starts nor ends with white space. */
  function Trim(s: string): (r: string)
    ensures var i := LeadingWhitespace(s);
      && i + |r| <= |s| && r == s[i..i + |r|]
      && WhitespaceBetween(s, 0, i) && WhitespaceBetween(s, i + |r|, |s|)
    ensures r == [] || (!IsWhitespace(r[0]) && !IsWhitespace(r[|r| - 1]))
  {
    var i := LeadingWhitespace(s);
    var t := s[i..];
    var j := TrailingWhitespace(t);
    var r := t[..|t| - j];
    assert r == s[i..i + |r|];
    assert WhitespaceBetween(s, i + |r|, |s|) by {
      forall k | i + |r| <= k < |s|
        ensures IsWhitespace(s[k])
      {
        assert s[k] == t[k - i];
      }
    }
    assert r != [] ==> r[0] == t[0] && r[|r| - 1] == t[|t| - j - 1];
    r
  }

  /** A string with no white space at either end is left as it is. */
  lemma TrimNoop(s: string)
    requires s == [] || (!IsWhitespace(s[0]) && !IsWhitespace(s[|s| - 1]))
    ensures Trim(s) == s
  {
    assert LeadingWhitespace(s) == 0;
    assert s[0..] == s;
    assert TrailingWhitespace(s) == 0;
  }

  /** A leading white-space character makes no difference to `trim`. */
  lemma TrimLeadingWhitespace(s: string)
    requires s != [] && IsWhitespace(s[0])
    ensures Trim(s) == Trim(s[1..])
  {
    var i := LeadingWhitespace(s);
    assert i == 1 + LeadingWhitespace(s[1..]);
    assert s[i..] == s[1..][i - 1..];
  }

  /** Trimming twice is trimming once. */
  lemma TrimIdempotent(s: string)
    ensures Trim(Trim(s)) == Trim(s)
  {
    TrimNoop(Trim(s));
  }

  /** Every character of a slice occurs in the whole. */
  lemma SliceChars(s: string, i: nat, j: nat)
    requires i <= j <= |s|
    ensures forall c :: c in s[i..j] ==> c in s
  {
    forall c | c in s[i..j]
      ensures c in s
    {
      var k :| 0 <= k < j - i && s[i..j][k] == c;
      assert s[i + k] == c;
    }
  }

  /** Every character left by `trim` occurs in the original. */
  lemma TrimChars(s: string)
    ensures forall c :: c in Trim(s) ==> c in s
  {
    var i := LeadingWhitespace(s);
    SliceChars(s, i, i + |Trim(s)|);
  }

  /** Trimming leaves nothing exactly when the string is all white space. */
  lemma TrimEmptyIff(s: string)
    ensures Trim(s) == [] <==> AllWhitespace(s)
  {
    var r := Trim(s);
    var i := LeadingWhitespace(s);
    if r != [] {
      assert s[i] == r[0];
    }
  }

  /** A character outside the Basic Multilingual Plane, which UTF-16 stores as a surrogate pair. */
  predicate IsAstral(c: char) {
    c as int > 0xFFFF
  }

  /** JavaScript's `length` of `s`: the number of UTF-16 code units it occupies. */
  function Utf16Length(s: string): (n: nat)
    ensures |s| <= n <= 2 * |s|
    ensures n == |s| <==> forall i :: 0 <= i < |s| ==> !IsAstral(s[i])
  {
    if s == [] then 0
    else
      var rest := Utf16Length(s[1..]);
      assert forall i :: 0 < i < |s| ==> s[i] == s[1..][i - 1];
      (if IsAstral(s[0]) then 2 else 1) + rest
  }

  /** A JavaScript length below two: no characters, or one from the Basic Multilingual Plane. */
  lemma Utf16LengthBelowTwo(s: string)
    ensures Utf16Length(s) < 2 <==> s == [] || (|s| == 1 && !IsAstral(s[0]))
  {
    if |s| >= 2 {
      assert Utf16Length(s) >= |s|;
    }
  }

  /** Where `split(c)[0]` ends: the first position holding `c`, or `|s|` when there is none.
      The code itself never calls `indexOf`; this is the vocabulary its `split` results are
      stated in. */
  function IndexOf(s: string, c: char): (k: nat)
    ensures k <= |s|
    ensures c !in s[..k]
    ensures k < |s| ==> s[k] == c
  {
    if s == [] || s[0] == c then 0
    else
      var k := 1 + IndexOf(s[1..], c);
      assert s[..k] == [s[0]] + s[1..][..k - 1];
      k
  }

  /** The contract of `IndexOf` determines it: the first position holding `c`. */
  lemma IndexOfIsFirst(s: string, c: char, k: nat)
    requires k <= |s| && c !in s[..k]
    requires k < |s| ==> s[k] == c
    ensures IndexOf(s, c) == k
  {
  }

  /** `parts.join(sep)`; an empty array joins to the empty string. */
  function Join(parts: seq<string>, sep: char): string {
    if |parts| == 0 then []
    else if |parts| == 1 then parts[0]
    else parts[0] + [sep] + Join(parts[1..], sep)
  }

  /** `s.split(sep)` for a one-character separator: the maximal separator-free pieces between
      occurrences of `sep`, which join back to `s`. There is always at least one piece. */
  function Split(s: string, sep: char): (parts: seq<string>)
    ensures |parts| >= 1
    ensures forall i :: 0 <= i < |parts| ==> sep !in parts[i]
    ensures Join(parts, sep) == s
  {
    if s == [] then [[]]
    else
      var rest := Split(s[1..], sep);
      if s[0] == sep then
        assert s == [sep] + s[1..];
        [[]] + rest
      else
        var parts := [[s[0]] + rest[0]] + rest[1..];
        assert s == [s[0]] + s[1..];
        assert parts[1..] == rest[1..];
        parts
  }

  /** Splitting a string that starts with a separator-free `a` glues `a` onto the first piece. */
  lemma {:induction false} SplitAfterPrefix(a: string, t: string, sep: char)
    requires sep !in a
    ensures Split(a + t, sep) == [a + Split(t, sep)[0]] + Split(t, sep)[1..]
    decreases |a|
  {
    if a == [] {
      var parts := Split(t, sep);
      assert a + t == t && a + parts[0] == parts[0];
      assert parts == [parts[0]] + parts[1..];
    } else {
      assert (a + t)[1..] == a[1..] + t;
      assert a[0] in a;
      SplitAfterPrefix(a[1..], t, sep);
      var rest := Split(a[1..] + t, sep);
      assert rest[0] == a[1..] + Split(t, sep)[0];
      assert rest[1..] == Split(t, sep)[1..];
      assert a == [a[0]] + a[1..];
      assert [a[0]] + rest[0] == a + Split(t, sep)[0];
      assert Split(a + t, sep) == [[a[0]] + rest[0]] + rest[1..];
    }
  }

  /** `split` undoes `join` whenever no piece contains the separator. */
  lemma {:induction false} SplitJoin(parts: seq<string>, sep: char)
    requires |parts| >= 1
    requires forall i :: 0 <= i < |parts| ==> sep !in parts[i]
    ensures Split(Join(parts, sep), sep) == parts
    decreases |parts|
  {
    if |parts| == 1 {
      SplitAfterPrefix(parts[0], [], sep);
      assert parts[0] + [] == parts[0];
    } else {
      SplitJoin(parts[1..], sep);
      SplitJoinStep(parts[0], parts[1..], sep);
      assert parts == [parts[0]] + parts[1..];
    }
  }

  /** One more separator-free piece in front of pieces that `split` already recovers. */
  lemma SplitJoinStep(a: string, rest: seq<string>, sep: char)
    requires |rest| >= 1 && sep !in a
    requires Split(Join(rest, sep), sep) == rest
    ensures Split(Join([a] + rest, sep), sep) == [a] + rest
  {
    var tail := Join(rest, sep);
    assert ([a] + rest)[1..] == rest;
    assert Join([a] + rest, sep) == a + ([sep] + tail);
    SplitAfterPrefix(a, [sep] + tail, sep);
    assert ([sep] + tail)[1..] == tail;
    assert Split([sep] + tail, sep) == [[]] + rest;
    assert a + [] == a;
  }

  /** `split` yields one more piece than there are separators. */
  lemma {:induction false} SplitCount(s: string, sep: char)
    ensures |Split(s, sep)| == multiset(s)[sep] + 1
    decreases |s|
  {
    if s != [] {
      SplitCount(s[1..], sep);
      assert s == [s[0]] + s[1..];
      assert multiset(s) == multiset([s[0]]) + multiset(s[1..]);
    }
  }

  /** The first piece of `split` is everything before the first separator, and the remaining
      pieces joined back are everything after it (nothing, when there is no separator). */
  lemma SplitAtFirst(s: string, sep: char)
    ensures var k := IndexOf(s, sep);
      && Split(s, sep)[0] == s[..k]
      && Join(Split(s, sep)[1..], sep) == (if k < |s| then s[k + 1..] else [])
  {
    var parts := Split(s, sep);
    if |parts| == 1 {
      IndexOfIsFirst(s, sep, |s|);
      assert s[..|s|] == s;
    } else {
      var a := parts[0];
      var tail := Join(parts[1..], sep);
      assert s == a + [sep] + tail;
      assert s[..|a|] == a;
      IndexOfIsFirst(s, sep, |a|);
      assert s[|a| + 1..] == tail;
    }
  }

  /** The pieces after the first are the pieces of what follows the first separator. */
  lemma SplitRest(s: string, sep: char)
    requires IndexOf(s, sep) < |s|
    ensures Split(s, sep)[1..] == Split(s[IndexOf(s, sep) + 1..], sep)
  {
    var parts := Split(s, sep);
    SplitAtFirst(s, sep);
    if |parts| == 1 {
      SplitSingle(s, sep);
    } else {
      SplitJoin(parts[1..], sep);
    }
  }

  /** With a separator present, the second piece runs from the first separator to the next one
      or to the end. */
  lemma SplitSecond(s: string, sep: char)
    requires IndexOf(s, sep) < |s|
    ensures var rest := s[IndexOf(s, sep) + 1..];
      |Split(s, sep)| > 1 && Split(s, sep)[1] == rest[..IndexOf(rest, sep)]
  {
    var rest := s[IndexOf(s, sep) + 1..];
    SplitRest(s, sep);
    SplitAtFirst(rest, sep);
    assert Split(s, sep)[1] == Split(s, sep)[1..][0];
  }

  /** A single piece means no separator. */
  lemma SplitSingle(s: string, sep: char)
    ensures |Split(s, sep)| == 1 <==> sep !in s
  {
    var parts := Split(s, sep);
    if |parts| > 1 {
      assert s == parts[0] + [sep] + Join(parts[1..], sep);
      assert s[|parts[0]|] == sep;
    }
  }

  /** With a separator present, `s` opens with the first piece, the separator and the second
      piece, followed by the end of `s` or by another separator. */
  lemma SplitFirstTwo(s: string, sep: char)
    requires |Split(s, sep)| > 1
    ensures var parts := Split(s, sep);
      var n := |parts[0]| + 1 + |parts[1]|;
      && n <= |s| && s[..n] == parts[0] + [sep] + parts[1]
      && (n == |s| || s[n] == sep)
  {
    var parts := Split(s, sep);
    var rest := Join(parts[1..], sep);
    assert s == parts[0] + [sep] + rest;
    if |parts| == 2 {
      assert rest == parts[1];
    } else {
      assert parts[1..][1..] == parts[2..];
      assert rest == parts[1] + [sep] + Join(parts[2..], sep);
    }
  }
}
