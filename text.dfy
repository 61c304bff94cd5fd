/**
  Character classes and string operations of JavaScript that the application relies on:
  the white space of `\s` and `trim`, the line terminators that `.` does not match,
  the ASCII digits of `\d`, `includes`, `startsWith`, `split` on one character, the
  `\D` deletion, and lower-casing (ASCII letters only).
*/
module Text {
  import opened Wrappers

  /** The characters JavaScript's `.` refuses to match. */
  predicate IsLineTerminator(c: char) {
    c == '\n' || c == '\r' || c == '\U{2028}' || c == '\U{2029}'
  }

  /** JavaScript white space: the class `\s`, which is also what `trim` removes. */
  predicate IsSpace(c: char) {
    || IsLineTerminator(c)
    || c == '\t' || c == '\U{B}' || c == '\U{C}' || c == ' '
    || c == '\U{A0}' || c == '\U{1680}' || ('\U{2000}' <= c <= '\U{200A}')
    || c == '\U{202F}' || c == '\U{205F}' || c == '\U{3000}' || c == '\U{FEFF}'
  }

  /** The class `\d`. */
  predicate IsDigit(c: char) {
    '0' <= c <= '9'
  }

  /** Every character of `s` is white space (`!s.trim()` in the source). */
  predicate IsBlank(s: string) {
    forall i :: 0 <= i < |s| ==> IsSpace(s[i])
  }

  /** `s` neither starts nor ends with white space. */
  predicate IsTrimmed(s: string) {
    s == [] || (!IsSpace(s[0]) && !IsSpace(s[|s| - 1]))
  }

  /** `r` is a contiguous piece of `s`. */
  ghost predicate IsSlice(r: string, s: string) {
    exists k: nat :: At(s, k, r)
  }

  function TrimStart(s: string): (r: string)
    ensures |r| <= |s| && r == s[|s| - |r|..]
    ensures r == [] || !IsSpace(r[0])
    ensures forall i :: 0 <= i < |s| - |r| ==> IsSpace(s[i])
  {
    if s != [] && IsSpace(s[0]) then TrimStart(s[1..]) else s
  }

  function TrimEnd(s: string): (r: string)
    ensures |r| <= |s| && r == s[..|r|]
    ensures r == [] || !IsSpace(r[|r| - 1])
    ensures forall i :: |r| <= i < |s| ==> IsSpace(s[i])
  {
    if s != [] && IsSpace(s[|s| - 1]) then TrimEnd(s[..|s| - 1]) else s
  }

  /** `r` is `s` without some white space before it and some after it. */
  predicate PaddedBy(s: string, pre: string, r: string, post: string) {
    s == pre + (r + post) && IsBlank(pre) && IsBlank(post)
  }

  /** `String.prototype.trim`: the slice of `s` left once the white space at both ends is gone. */
  function Trim(s: string): (r: string)
    ensures IsTrimmed(r)
    ensures exists pre, post :: PaddedBy(s, pre, r, post)
  {
    var t := TrimStart(s);
    var r := TrimEnd(t);
    TrimPadding(s, t, r);
    r
  }

  /** The white space `TrimStart` and `TrimEnd` drop is exactly what surrounds the kept slice. */
  lemma {:induction false} TrimPadding(s: string, t: string, r: string)
    requires t == TrimStart(s) && r == TrimEnd(t)
    ensures IsTrimmed(r)
    ensures exists pre, post :: PaddedBy(s, pre, r, post)
  {
    TrimmedEnds(t, r);
    var pre := LeadingBlank(s);
    var post := TrailingBlank(t);
    assert PaddedBy(s, pre, r, post);
  }

  /** Dropping the white space at both ends leaves none there. */
  lemma TrimmedEnds(t: string, r: string)
    requires (t == [] || !IsSpace(t[0])) && r == TrimEnd(t)
    ensures IsTrimmed(r)
  {
    if r != [] {
      assert r[0] == t[0];
    }
  }

  /** What `TrimStart` drops is blank. */
  lemma LeadingBlank(s: string) returns (pre: string)
    ensures s == pre + TrimStart(s) && IsBlank(pre)
  {
    var t := TrimStart(s);
    pre := s[..|s| - |t|];
    forall k | 0 <= k < |pre| ensures IsSpace(pre[k]) {
      assert pre[k] == s[k];
    }
    assert s == pre + s[|s| - |t|..];
  }

  /** What `TrimEnd` drops is blank. */
  lemma TrailingBlank(t: string) returns (post: string)
    ensures t == TrimEnd(t) + post && IsBlank(post)
  {
    var n := |TrimEnd(t)|;
    post := t[n..];
    forall k | 0 <= k < |post| ensures IsSpace(post[k]) {
      assert post[k] == t[n + k];
    }
    assert t == t[..n] + post;
  }

  /** What `trim` keeps is a piece of the string, and it keeps nothing exactly when the string is blank. */
  lemma TrimSlice(s: string)
    ensures IsSlice(Trim(s), s)
    ensures Trim(s) == [] <==> IsBlank(s)
  {
    var t := TrimStart(s);
    var r := TrimEnd(t);
    assert s[|s| - |t|..][..|r|] == s[|s| - |t|..|s| - |t| + |r|];
    assert At(s, |s| - |t|, r);
  }

  /** Trimming is idempotent: a trimmed string is left alone. */
  lemma {:induction false} TrimTrimmed(s: string)
    requires IsTrimmed(s)
    ensures Trim(s) == s
  {
    assert TrimStart(s) == s;
    assert TrimEnd(s) == s;
  }

  /** `w` occurs in `s` at position `p`. */
  predicate At(s: string, p: nat, w: string) {
    p + |w| <= |s| && s[p..p + |w|] == w
  }

  /** `s.startsWith(w)`. */
  predicate StartsWith(s: string, w: string) {
    At(s, 0, w)
  }

  /** The first position at or after `from` where `w` occurs in `s`. */
  function IndexFrom(s: string, w: string, from: nat): (r: Option<nat>)
    decreases |s| - from
    ensures r.Some? ==> from <= r.value && At(s, r.value, w)
    ensures r.Some? ==> forall p :: from <= p < r.value ==> !At(s, p, w)
    ensures r.None? ==> forall p :: from <= p ==> !At(s, p, w)
  {
    if from + |w| > |s| then None
    else if s[from..from + |w|] == w then Some(from)
    else IndexFrom(s, w, from + 1)
  }

  /** `s.includes(w)`. */
  predicate Contains(s: string, w: string)
    ensures Contains(s, w) <==> exists p: nat :: At(s, p, w)
  {
    IndexFrom(s, w, 0).Some?
  }

  /** `s` has no `c`. */
  predicate NoChar(s: string, c: char) {
    forall j :: 0 <= j < |s| ==> s[j] != c
  }

  /** The index of the first `c` in `s`, or `|s|` when there is none. */
  function IndexOfChar(s: string, c: char): (r: nat)
    ensures r <= |s|
    ensures r < |s| ==> s[r] == c
    ensures forall j :: 0 <= j < r ==> s[j] != c
  {
    if s == [] then 0
    else if s[0] == c then 0
    else 1 + IndexOfChar(s[1..], c)
  }

  /** `s.split(c)` for a one-character separator: the pieces between the occurrences of `c`. */
  function Split(s: string, c: char): (parts: seq<string>)
    decreases |s|
    ensures |parts| >= 1
    ensures forall k :: 0 <= k < |parts| ==> NoChar(parts[k], c)
  {
    var i := IndexOfChar(s, c);
    if i == |s| then [s] else [s[..i]] + Split(s[i + 1..], c)
  }

  /** The first piece is everything before the first `c`; the rest are the pieces of what follows it. */
  lemma SplitFirst(s: string, c: char)
    ensures var i := IndexOfChar(s, c);
      && Split(s, c)[0] == s[..i]
      && (|Split(s, c)| >= 2 <==> i < |s|)
      && (i < |s| ==> Split(s, c)[1..] == Split(s[i + 1..], c))
  {
  }

  /** `parts.join(c)`, the inverse of `Split`. */
  function Join(parts: seq<string>, c: char): string
    requires |parts| >= 1
  {
    if |parts| == 1 then parts[0] else parts[0] + [c] + Join(parts[1..], c)
  }

  /** Splitting loses nothing: joining the pieces back gives the original string. */
  lemma {:induction false} JoinSplit(s: string, c: char)
    decreases |s|
    ensures Join(Split(s, c), c) == s
  {
    var i := IndexOfChar(s, c);
    if i < |s| {
      var head, rest := s[..i], s[i + 1..];
      var tail := Split(rest, c);
      var parts := Split(s, c);
      assert parts == [head] + tail;
      assert parts[0] == head && parts[1..] == tail;
      JoinSplit(rest, c);
      assert Join(parts, c) == head + [c] + rest;
      assert s == head + [c] + rest;
    }
  }

  /** Splitting a piece-wise joined list gives the pieces back. */
  lemma {:induction false} SplitJoin(parts: seq<string>, c: char)
    requires |parts| >= 1
    requires forall k :: 0 <= k < |parts| ==> NoChar(parts[k], c)
    ensures Split(Join(parts, c), c) == parts
  {
    if |parts| > 1 {
      var rest := Join(parts[1..], c);
      var s := parts[0] + [c] + rest;
      assert s[..|parts[0]|] == parts[0];
      assert s[|parts[0]| + 1..] == rest;
      IndexOfCharAfter(parts[0], c, rest);
      SplitJoin(parts[1..], c);
    } else {
      IndexOfCharAfter(parts[0], c, []);
    }
  }

  /** The helper fact for `SplitJoin`: the first `c` of `a + [c] + b` is just after `a`, when `a` has none. */
  lemma {:induction false} IndexOfCharAfter(a: string, c: char, b: string)
    requires NoChar(a, c)
    ensures IndexOfChar(a, c) == |a|
    ensures IndexOfChar(a + [c] + b, c) == |a|
  {
    if a != [] {
      assert (a + [c] + b)[1..] == a[1..] + [c] + b;
      IndexOfCharAfter(a[1..], c, b);
    } else {
      assert (a + [c] + b)[0] == c;
    }
  }

  /** `s.replace(/\D/g, '')`: the digits of `s`, in order. */
  function Digits(s: string): (r: string)
    ensures |r| <= |s|
    ensures forall i :: 0 <= i < |r| ==> IsDigit(r[i])
  {
    if s == [] then []
    else (if IsDigit(s[0]) then [s[0]] else []) + Digits(s[1..])
  }

  /** Digit extraction works piece by piece: no digit is lost, moved or invented. */
  lemma {:induction false} DigitsConcat(a: string, b: string)
    ensures Digits(a + b) == Digits(a) + Digits(b)
  {
    if a != [] {
      assert (a + b)[1..] == a[1..] + b;
      DigitsConcat(a[1..], b);
    } else {
      assert a + b == b;
    }
  }

  /** A string made of digits is its own digit extraction, so `Digits` is idempotent. */
  lemma {:induction false} DigitsOfDigits(s: string)
    requires forall i :: 0 <= i < |s| ==> IsDigit(s[i])
    ensures Digits(s) == s
  {
    if s != [] {
      DigitsOfDigits(s[1..]);
    }
  }

  /** ASCII lower-casing of one character. */
  function LowerChar(c: char): char {
    if 'A' <= c <= 'Z' then (c as int + 32) as char else c
  }

  /** `s.toLowerCase()`, restricted to the ASCII letters. */
  function Lower(s: string): (r: string)
    ensures |r| == |s|
    ensures forall i :: 0 <= i < |s| ==> r[i] == LowerChar(s[i])
  {
    seq(|s|, i requires 0 <= i < |s| => LowerChar(s[i]))
  }

  /** `s.replace(c, '')` with a string pattern: only the first `c` is deleted. */
  function RemoveFirst(s: string, c: char): (r: string)
    ensures !NoChar(s, c) ==> |r| == |s| - 1
    ensures NoChar(s, c) ==> r == s
  {
    var i := IndexOfChar(s, c);
    if i == |s| then s else s[..i] + s[i + 1..]
  }
}
