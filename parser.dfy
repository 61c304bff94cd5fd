/**
  The reply parser (`utils/parser.ts`): it turns the free text of an assistant reply into
  the places and the route the reply describes, following the labels the prompt asks the
  model to use. The regular expressions of the source are modelled by the functions of
  the first part; the two exported operations are methods whose loops push one record per
  block or step line, proved against the specification functions `Entries` and `RouteOf`.
*/
module Parser {
  import opened Wrappers
  import opened Text
  import opened Types

  // The labels of the reply protocol, exactly as the source spells them.
  const NameLabel := "Nome:"
  const DescriptionLabel := "Descrição:"
  const AddressLabel := "Endereço:"
  const DistanceLabel := "Distância:"
  const CategoryLabel := "Categoria:"
  const LatLabel := "Lat:"
  const LngLabel := "Long:"
  const InstagramLabel := "Instagram:"
  const WhatsAppLabel := "WhatsApp:"
  const RouteMarker := "Informações da Rota:"
  const DestinationLabel := "Itinerário para"
  const TotalDistanceLabel := "Distância Total:"
  const DurationLabel := "Duração Estimada:"
  const StepLabel := "Passo:"

  // The values used when a field is missing.
  const DefaultCategory := "geral"
  const DefaultDestination := "Destino"
  const NotAvailable := "N/A"

  // ---------------------------------------------------------------------------
  // `clean`: delete every `**`, then trim.
  // ---------------------------------------------------------------------------

  /** No two consecutive asterisks. */
  predicate NoDoubleStar(s: string) {
    forall i, j :: 0 <= i < |s| && 0 <= j < |s| && j == i + 1 ==> s[i] != '*' || s[j] != '*'
  }

  /** The global replacement of `**` by nothing: the scan goes left to right and deletes non-overlapping pairs. */
  function RemoveBold(s: string): (r: string)
    ensures |r| <= |s|
    ensures r != [] && s != [] && s[0] != '*' ==> r[0] == s[0]
    ensures NoDoubleStar(r)
    ensures NoDoubleStar(s) ==> r == s
  {
    if |s| >= 2 && s[0] == '*' && s[1] == '*' then RemoveBold(s[2..])
    else if s == [] then []
    else [s[0]] + RemoveBold(s[1..])
  }

  /** The text with every asterisk deleted: what `RemoveBold` must leave alone. */
  function Unstarred(s: string): (r: string)
    ensures |r| <= |s|
  {
    if s == [] then [] else (if s[0] == '*' then [] else [s[0]]) + Unstarred(s[1..])
  }

  /** Deleting `**` pairs removes asterisks only: every other character survives, in order. */
  lemma {:induction false} RemoveBoldKeepsText(s: string)
    ensures Unstarred(RemoveBold(s)) == Unstarred(s)
  {
    if |s| >= 2 && s[0] == '*' && s[1] == '*' {
      RemoveBoldKeepsText(s[2..]);
      assert s[1..][1..] == s[2..];
      assert Unstarred(s) == Unstarred(s[1..]) == Unstarred(s[2..]);
      assert RemoveBold(s) == RemoveBold(s[2..]);
    } else if s != [] {
      RemoveBoldKeepsText(s[1..]);
      var t := RemoveBold(s[1..]);
      assert RemoveBold(s) == [s[0]] + t;
      UnstarredCons(s[0], t);
    }
  }

  /** The asterisks go in pairs: an even number of characters is deleted. */
  lemma {:induction false} RemoveBoldPairs(s: string)
    ensures (|s| - |RemoveBold(s)|) % 2 == 0
  {
    if |s| >= 2 && s[0] == '*' && s[1] == '*' {
      RemoveBoldPairs(s[2..]);
      var d := |s[2..]| - |RemoveBold(s[2..])|;
      assert |s| - |RemoveBold(s)| == d + 2;
    } else if s != [] {
      RemoveBoldPairs(s[1..]);
      assert |s| - |RemoveBold(s)| == |s[1..]| - |RemoveBold(s[1..])|;
    }
  }

  lemma UnstarredCons(c: char, t: string)
    ensures Unstarred([c] + t) == (if c == '*' then [] else [c]) + Unstarred(t)
  {
    assert ([c] + t)[1..] == t;
  }

  /** A closing `**` after a value without `**` is deleted, and nothing else is. */
  lemma {:induction false} RemoveBoldClosing(v: string)
    requires NoDoubleStar(v)
    ensures RemoveBold(v + "**") == v
  {
    if v == [] {
      assert v + "**" == "**";
    } else if |v| == 1 && v[0] == '*' {
      assert v + "**" == "***";
    } else {
      var rest := v[1..] + "**";
      assert v + "**" == [v[0]] + rest;
      assert !(v[0] == '*' && rest[0] == '*') by {
        if |v| >= 2 { assert rest[0] == v[1]; }
      }
      RemoveBoldKeepsHead(v[0], rest);
      RemoveBoldClosing(v[1..]);
      assert [v[0]] + v[1..] == v;
    }
  }

  /** A first character that does not open a `**` is kept. */
  lemma RemoveBoldKeepsHead(c: char, t: string)
    requires t != [] && !(c == '*' && t[0] == '*')
    ensures RemoveBold([c] + t) == [c] + RemoveBold(t)
  {
    assert ([c] + t)[1..] == t;
  }

  /** A piece of a string without `**` has none either. */
  lemma {:induction false} NoDoubleStarSlice(r: string, s: string)
    requires NoDoubleStar(s) && IsSlice(r, s)
    ensures NoDoubleStar(r)
  {
    var k: nat :| At(s, k, r);
    forall i, j | 0 <= i < |r| && 0 <= j < |r| && j == i + 1 ensures r[i] != '*' || r[j] != '*' {
      assert r[i] == s[k + i] && r[j] == s[k + j];
    }
  }

  /** The source's `clean`: the value with its bold markers and surrounding white space removed. */
  function Clean(s: string): string {
    Trim(RemoveBold(s))
  }

  /** A value `clean` could have produced: no `**`, no white space at either end. */
  predicate Cleaned(s: string) {
    NoDoubleStar(s) && IsTrimmed(s)
  }

  /** `clean` removes every `**` and the surrounding white space, including a `**` that a deletion brings together. */
  lemma CleanShape(s: string)
    ensures Cleaned(Clean(s))
  {
    var b := RemoveBold(s);
    TrimSlice(b);
    NoDoubleStarSlice(Trim(b), b);
  }

  /** Cleaning twice is cleaning once. */
  lemma {:induction false} CleanIdempotent(s: string)
    ensures Clean(Clean(s)) == Clean(s)
  {
    var c := Clean(s);
    CleanShape(s);
    assert RemoveBold(c) == c;
    TrimTrimmed(c);
  }

  /** A value in bold, such as `**Café Lua**`, is read as the value itself (here `Café Lua`). */
  lemma {:induction false} BoldValue(v: string)
    requires Cleaned(v)
    ensures Clean("**" + v + "**") == v
  {
    var s := "**" + v + "**";
    assert s[0] == '*' && s[1] == '*' && |s| >= 2;
    assert s[2..] == v + "**";
    assert RemoveBold(s) == RemoveBold(v + "**");
    RemoveBoldClosing(v);
    TrimTrimmed(v);
  }

  // ---------------------------------------------------------------------------
  // The regular expressions `Label:\s*(.+)` and `Label:\s*([-\d.]+)`.
  // ---------------------------------------------------------------------------

  /** The characters `.` matches. */
  predicate IsLineChar(c: char) {
    !IsLineTerminator(c)
  }

  /** The class `[-\d.]`. */
  predicate IsCoordChar(c: char) {
    c == '-' || c == '.' || IsDigit(c)
  }

  /** How many characters from `from` on satisfy `p`: a greedy `[p]*`. */
  function Run(s: string, from: nat, p: char -> bool): (n: nat)
    requires from <= |s|
    decreases |s| - from
    ensures from + n <= |s|
    ensures forall i :: from <= i < from + n ==> p(s[i])
    ensures from + n == |s| || !p(s[from + n])
  {
    if from < |s| && p(s[from]) then 1 + Run(s, from + 1, p) else 0
  }

  /**
    Backtracking of `\s*` before `(.+)`: having taken `j` white-space characters after `e`,
    the matcher tries `.` on the next character and, on failure, gives back one character
    at a time. The result is where the capture begins.
  */
  function GiveBack(s: string, e: nat, j: nat): (q: Option<nat>)
    requires e + j <= |s|
    ensures q.Some? ==> e <= q.value <= e + j && q.value < |s| && IsLineChar(s[q.value])
    ensures q.None? <==> forall i :: e <= i <= e + j && i < |s| ==> IsLineTerminator(s[i])
  {
    if e + j < |s| && IsLineChar(s[e + j]) then Some(e + j)
    else if j == 0 then None
    else GiveBack(s, e, j - 1)
  }

  /**
    Where the capture of `\s*(.+)` starts when the pattern is tried at `e`. The value starts
    at the first character that is not white space; only when the text ends in white space
    does the matcher settle for a white-space character that is not a line terminator. The
    pattern fails exactly when nothing but line terminators follows `e`.
  */
  function LineValueStart(s: string, e: nat): (q: Option<nat>)
    requires e <= |s|
    ensures q.Some? ==> e <= q.value < |s| && IsLineChar(s[q.value])
    ensures q.Some? ==> forall i :: e <= i < q.value ==> IsSpace(s[i])
    ensures e + Run(s, e, IsSpace) < |s| ==> q == Some(e + Run(s, e, IsSpace))
    ensures q.None? <==> forall i :: e <= i < |s| ==> IsLineTerminator(s[i])
  {
    var k := Run(s, e, IsSpace);
    GiveBack(s, e, k)
  }

  /** The two capture groups the parser uses: `(.+)` and `([-\d.]+)`. */
  datatype Pattern = Line | Coord

  /** Nothing but line terminators from `e` on: `(.+)` has nothing to match. */
  predicate OnlyLineEnds(s: string, e: nat) {
    forall i :: e <= i < |s| ==> IsLineTerminator(s[i])
  }

  /** `\s*([-\d.]+)` fails at `e`: the first character after the blanks is missing or not in `[-\d.]`. */
  predicate CoordFails(s: string, e: nat)
    requires e <= |s|
  {
    var q := e + Run(s, e, IsSpace);
    q == |s| || !IsCoordChar(s[q])
  }

  /** The capture of `\s*<pattern>` tried at position `e`. */
  function CaptureAt(s: string, e: nat, pat: Pattern): Option<string>
    requires e <= |s|
  {
    match pat
    case Line =>
      (match LineValueStart(s, e)
       case Some(q) => Some(s[q..q + Run(s, q, IsLineChar)])
       case None => None)
    case Coord =>
      // White space is never in `[-\d.]`, so backtracking `\s*` cannot help here.
      var q := e + Run(s, e, IsSpace);
      if q < |s| && IsCoordChar(s[q]) then Some(s[q..q + Run(s, q, IsCoordChar)]) else None
  }

  /**
    A capture holds at least one character, all of the pattern's class; `(.+)` fails exactly
    when only line ends remain, and `([-\d.]+)` exactly when the first character after the
    blanks is not in its class.
  */
  lemma CaptureAtShape(s: string, e: nat, pat: Pattern)
    requires e <= |s|
    ensures var r := CaptureAt(s, e, pat);
      && (r.Some? ==> Captured(r.value, pat))
      && (pat == Line ==> (r.None? <==> OnlyLineEnds(s, e)))
      && (pat == Coord ==> (r.None? <==> CoordFails(s, e)))
  {
  }

  /**
    A probe says what a pattern anchored just after the marker captures; `Probe` is the
    probe of `\s*<pat>`.
  */
  type Probe = nat -> Option<string>

  function ProbeOf(s: string, pat: Pattern): Probe {
    (e: nat) => if e <= |s| then CaptureAt(s, e, pat) else None
  }

  /** The pattern `<marker><probe>` matches at position `p`. */
  predicate MatchesAt(s: string, marker: string, probe: Probe, p: nat) {
    At(s, p, marker) && probe(p + |marker|).Some?
  }

  /** What `s.match` captures when the search for `<marker><probe>` starts at `from`. */
  function MatchFrom(s: string, marker: string, probe: Probe, from: nat): (r: Option<string>)
    requires marker != []
    decreases |s| - from
  {
    match IndexFrom(s, marker, from)
    case None => None
    case Some(p) =>
      match probe(p + |marker|)
      case Some(v) => Some(v)
      case None => MatchFrom(s, marker, probe, p + 1)
  }

  /** The pattern matches at no position from `from` on. */
  ghost predicate NoMatchFrom(s: string, marker: string, probe: Probe, from: nat) {
    forall p: nat :: from <= p ==> !MatchesAt(s, marker, probe, p)
  }

  /** The search fails exactly when the pattern matches at no position from `from` on. */
  lemma {:induction false} MatchFromNone(s: string, marker: string, probe: Probe, from: nat)
    requires marker != []
    decreases |s| - from
    ensures MatchFrom(s, marker, probe, from).None? <==> NoMatchFrom(s, marker, probe, from)
  {
    match IndexFrom(s, marker, from)
    case None =>
      assert MatchFrom(s, marker, probe, from).None?;
      assert NoMatchFrom(s, marker, probe, from);
    case Some(p) =>
      if probe(p + |marker|).None? {
        assert MatchFrom(s, marker, probe, from) == MatchFrom(s, marker, probe, p + 1);
        MatchFromNone(s, marker, probe, p + 1);
        NoMatchSkip(s, marker, probe, from, p);
      } else {
        assert MatchFrom(s, marker, probe, from).Some?;
        assert MatchesAt(s, marker, probe, p);
      }
  }

  /** Past an occurrence at `p` that does not match, "no match from here" is "no match after `p`". */
  lemma NoMatchSkip(s: string, marker: string, probe: Probe, from: nat, p: nat)
    requires IndexFrom(s, marker, from) == Some(p) && probe(p + |marker|).None?
    ensures NoMatchFrom(s, marker, probe, from) <==> NoMatchFrom(s, marker, probe, p + 1)
  {
    if NoMatchFrom(s, marker, probe, p + 1) {
      forall p': nat | from <= p' ensures !MatchesAt(s, marker, probe, p') {
        if p' < p {
          assert !At(s, p', marker);
        }
      }
    }
  }

  /** The pattern matches at no position in `[a, b)`. */
  predicate NoMatchBetween(s: string, marker: string, probe: Probe, a: nat, b: nat) {
    forall p: nat :: a <= p < b ==> !MatchesAt(s, marker, probe, p)
  }

  /** Skipping the occurrence at `p` that does not match keeps "no match so far". */
  lemma NoMatchBefore(s: string, marker: string, probe: Probe, from: nat, p: nat, q: nat)
    requires IndexFrom(s, marker, from) == Some(p) && probe(p + |marker|).None?
    requires p + 1 <= q && NoMatchBetween(s, marker, probe, p + 1, q)
    ensures NoMatchBetween(s, marker, probe, from, q)
  {
    forall p': nat | from <= p' < q ensures !MatchesAt(s, marker, probe, p') {
      if p' < p {
        assert !At(s, p', marker);
      }
    }
  }

  /** A successful search returns the capture at the first position where the pattern matches. */
  lemma {:induction false} MatchFromFirst(s: string, marker: string, probe: Probe, from: nat)
    requires marker != []
    requires MatchFrom(s, marker, probe, from).Some?
    decreases |s| - from
    ensures exists p: nat :: (from <= p && MatchesAt(s, marker, probe, p) &&
      probe(p + |marker|) == MatchFrom(s, marker, probe, from) &&
      NoMatchBetween(s, marker, probe, from, p))
  {
    var p :| IndexFrom(s, marker, from) == Some(p);
    if probe(p + |marker|).None? {
      MatchFromFirst(s, marker, probe, p + 1);
      var q: nat :| p + 1 <= q && MatchesAt(s, marker, probe, q) &&
        probe(q + |marker|) == MatchFrom(s, marker, probe, p + 1) &&
        NoMatchBetween(s, marker, probe, p + 1, q);
      NoMatchBefore(s, marker, probe, from, p, q);
      assert probe(q + |marker|) == MatchFrom(s, marker, probe, from);
    } else {
      assert MatchesAt(s, marker, probe, p);
      assert NoMatchBetween(s, marker, probe, from, p);
    }
  }

  /**
    `s.match(/<marker>\s*<pat>/)[1]`: the capture at the leftmost occurrence of `marker`
    where the whole pattern matches, or nothing when there is no such occurrence.
  */
  function Match(s: string, marker: string, pat: Pattern): Option<string>
    requires marker != []
  {
    MatchFrom(s, marker, ProbeOf(s, pat), 0)
  }

  /** A successful match captures a non-empty value of the pattern's class. */
  lemma MatchCaptured(s: string, marker: string, pat: Pattern)
    requires marker != []
    ensures Match(s, marker, pat).Some? ==> Captured(Match(s, marker, pat).value, pat)
  {
    forall e: nat | e <= |s| {
      CaptureAtShape(s, e, pat);
    }
    MatchFromKeeps(s, marker, ProbeOf(s, pat), 0, v => Captured(v, pat));
  }

  /** What a capture group can hold: at least one character, all of its class. */
  predicate Captured(v: string, pat: Pattern) {
    && v != []
    && (pat == Line ==> forall i :: 0 <= i < |v| ==> IsLineChar(v[i]))
    && (pat == Coord ==> forall i :: 0 <= i < |v| ==> IsCoordChar(v[i]))
  }

  /** Whatever the search returns is something the probe returned. */
  lemma {:induction false} MatchFromKeeps(s: string, marker: string, probe: Probe, from: nat, ok: string -> bool)
    requires marker != []
    requires forall e: nat :: probe(e).Some? ==> ok(probe(e).value)
    decreases |s| - from
    ensures MatchFrom(s, marker, probe, from).Some? ==> ok(MatchFrom(s, marker, probe, from).value)
  {
    match IndexFrom(s, marker, from)
    case None =>
    case Some(p) =>
      if probe(p + |marker|).None? {
        MatchFromKeeps(s, marker, probe, p + 1, ok);
      }
  }

  /** `\s*(.+)` fails after a marker exactly when nothing but line ends follow it. */
  lemma {:induction false} MatchLineNone(s: string, marker: string)
    requires marker != []
    ensures Match(s, marker, Line).None? <==> forall p: nat :: At(s, p, marker) ==> OnlyLineEnds(s, p + |marker|)
  {
    var probe := ProbeOf(s, Line);
    MatchFromNone(s, marker, probe, 0);
    forall p: nat | At(s, p, marker)
      ensures MatchesAt(s, marker, probe, p) <==> !OnlyLineEnds(s, p + |marker|)
    {
      var e := p + |marker|;
      assert probe(e) == CaptureAt(s, e, Line);
      CaptureAtShape(s, e, Line);
    }
  }

  /** `\s*([-\d.]+)` fails after a marker exactly when its first non-blank character is not in `[-\d.]`. */
  lemma {:induction false} MatchCoordNone(s: string, marker: string)
    requires marker != []
    ensures Match(s, marker, Coord).None? <==> forall p: nat :: At(s, p, marker) ==> CoordFails(s, p + |marker|)
  {
    var probe := ProbeOf(s, Coord);
    MatchFromNone(s, marker, probe, 0);
    if forall p: nat :: At(s, p, marker) ==> CoordFails(s, p + |marker|) {
      forall p: nat ensures !MatchesAt(s, marker, probe, p) {
        if At(s, p, marker) {
          CoordMatchesAt(s, marker, p);
        }
      }
      assert NoMatchFrom(s, marker, probe, 0);
    } else {
      var p: nat :| At(s, p, marker) && !CoordFails(s, p + |marker|);
      CoordMatchesAt(s, marker, p);
      assert !NoMatchFrom(s, marker, probe, 0);
    }
  }

  /** At an occurrence of the marker, `\s*([-\d.]+)` matches unless the coordinate fails. */
  lemma CoordMatchesAt(s: string, marker: string, p: nat)
    requires At(s, p, marker)
    ensures MatchesAt(s, marker, ProbeOf(s, Coord), p) <==> !CoordFails(s, p + |marker|)
  {
    var e := p + |marker|;
    assert ProbeOf(s, Coord)(e) == CaptureAt(s, e, Coord);
    CoordCaptureNone(s, e);
  }

  lemma CoordCaptureNone(s: string, e: nat)
    requires e <= |s|
    ensures CaptureAt(s, e, Coord).None? <==> CoordFails(s, e)
  {
  }

  /** A text in which the marker does not occur matches nothing. */
  lemma {:induction false} MatchAbsent(s: string, marker: string, pat: Pattern)
    requires marker != [] && !Contains(s, marker)
    ensures Match(s, marker, pat).None?
  {
    MatchFromNone(s, marker, ProbeOf(s, pat), 0);
  }

  /** `Run` is determined by its contract: a maximal run of length `n` is the run. */
  lemma {:induction false} RunIs(s: string, from: nat, p: char -> bool, n: nat)
    requires from + n <= |s|
    requires forall i :: from <= i < from + n ==> p(s[i])
    requires from + n == |s| || !p(s[from + n])
    ensures Run(s, from, p) == n
  {
  }

  /**
    A text that starts with the marker, then blanks, then a one-line value starting with a
    character that is not white space, captures exactly that value: trailing text on the
    line is part of the value, and the value may sit on a later line than the marker.
  */
  lemma {:induction false} LineAfterMarker(marker: string, blanks: string, v: string, tail: string)
    requires marker != [] && IsBlank(blanks)
    requires v != [] && !IsSpace(v[0]) && forall i :: 0 <= i < |v| ==> IsLineChar(v[i])
    requires tail == [] || IsLineTerminator(tail[0])
    ensures Match(marker + blanks + v + tail, marker, Line) == Some(v)
  {
    var s := marker + blanks + v + tail;
    var e, q := |marker|, |marker| + |blanks|;
    assert s == marker + blanks + (v + tail) && s[..e] == marker;
    RunOver(marker, blanks, v + tail, IsSpace);
    RunOver(marker + blanks, v, tail, IsLineChar);
    assert s[q..q + |v|] == v;
    LineCapture(s, e, |blanks|, |v|);
    MatchAtStart(s, marker, Line, v);
  }

  /** `\s*(.+)` at `e` over `k` blanks and a run of `n` line characters captures that run. */
  lemma LineCapture(s: string, e: nat, k: nat, n: nat)
    requires e + k + n <= |s| && n > 0
    requires Run(s, e, IsSpace) == k && !IsSpace(s[e + k])
    requires Run(s, e + k, IsLineChar) == n
    ensures CaptureAt(s, e, Line) == Some(s[e + k..e + k + n])
  {
    assert LineValueStart(s, e) == Some(e + k);
  }

  /** `\s*([-\d.]+)` at `e` over `k` blanks and a run of `n` coordinate characters captures that run. */
  lemma CoordCapture(s: string, e: nat, k: nat, n: nat)
    requires e + k + n <= |s| && n > 0
    requires Run(s, e, IsSpace) == k
    requires Run(s, e + k, IsCoordChar) == n
    ensures CaptureAt(s, e, Coord) == Some(s[e + k..e + k + n])
  {
  }

  /** A text that starts with the marker matches with the capture right after it, when there is one. */
  lemma MatchAtStart(s: string, marker: string, pat: Pattern, v: string)
    requires marker != [] && |marker| <= |s| && s[..|marker|] == marker
    requires CaptureAt(s, |marker|, pat) == Some(v)
    ensures Match(s, marker, pat) == Some(v)
  {
    assert IndexFrom(s, marker, 0) == Some(0);
  }

  /** A run of `p` characters followed by one that is not (or by nothing) is counted exactly. */
  lemma RunOver(pre: string, v: string, tail: string, p: char -> bool)
    requires forall i :: 0 <= i < |v| ==> p(v[i])
    requires tail == [] || !p(tail[0])
    ensures Run(pre + v + tail, |pre|, p) == |v|
  {
    var s := pre + v + tail;
    forall i | |pre| <= i < |pre| + |v| ensures p(s[i]) {
      assert s[i] == v[i - |pre|];
    }
    if tail != [] {
      assert s[|pre| + |v|] == tail[0];
    }
    RunIs(s, |pre|, p, |v|);
  }

  /** The same for a coordinate: the maximal run of `[-\d.]` after the blanks is captured. */
  lemma {:induction false} CoordAfterMarker(marker: string, blanks: string, v: string, tail: string)
    requires marker != [] && IsBlank(blanks)
    requires v != [] && forall i :: 0 <= i < |v| ==> IsCoordChar(v[i])
    requires tail == [] || !IsCoordChar(tail[0])
    ensures Match(marker + blanks + v + tail, marker, Coord) == Some(v)
  {
    var s := marker + blanks + v + tail;
    var e, q := |marker|, |marker| + |blanks|;
    assert s == marker + blanks + (v + tail) && s[..e] == marker;
    RunOver(marker, blanks, v + tail, IsSpace);
    RunOver(marker + blanks, v, tail, IsCoordChar);
    assert s[q..q + |v|] == v;
    CoordCapture(s, e, |blanks|, |v|);
    MatchAtStart(s, marker, Coord, v);
  }

  // ---------------------------------------------------------------------------
  // `text.split(/(?=Nome:)/g)`: blocks that each start at a `Nome:`.
  // ---------------------------------------------------------------------------

  /**
    Where the block starting at `start` ends: at the next `Nome:` after `start`, or at the
    end of the text. (A zero-width match at the start of a block never cuts, so the text
    never begins with an empty block.)
  */
  function NextCut(s: string, start: nat): (next: nat)
    requires start <= |s|
    ensures start <= next <= |s|
    ensures start < |s| ==> start < next
    ensures next < |s| ==> At(s, next, NameLabel)
    ensures forall p :: start < p < next ==> !At(s, p, NameLabel)
  {
    match IndexFrom(s, NameLabel, start + 1)
    case Some(p) => p
    case None => |s|
  }

  function BlocksFrom(s: string, start: nat): (blocks: seq<string>)
    requires start <= |s|
    decreases |s| - start
    ensures |blocks| >= 1
  {
    var next := NextCut(s, start);
    if next == |s| then [s[start..]] else [s[start..next]] + BlocksFrom(s, next)
  }

  /** One step of `BlocksFrom`: the first block runs up to the next cut, the others start there. */
  lemma BlocksFromStep(s: string, start: nat)
    requires start <= |s|
    ensures var next := NextCut(s, start); var bs := BlocksFrom(s, start);
      && bs[0] == s[start..next]
      && (next == |s| ==> |bs| == 1)
      && (next < |s| ==> bs[1..] == BlocksFrom(s, next))
  {
  }

  /** The blocks of the reply, in order. */
  function Blocks(s: string): seq<string> {
    BlocksFrom(s, 0)
  }

  function Concat(parts: seq<string>): string {
    if parts == [] then [] else parts[0] + Concat(parts[1..])
  }

  /** The split loses nothing and reorders nothing: the blocks put together are the text. */
  lemma {:induction false} BlocksFromPartition(s: string, start: nat)
    requires start <= |s|
    decreases |s| - start
    ensures Concat(BlocksFrom(s, start)) == s[start..]
  {
    var next := NextCut(s, start);
    if next < |s| {
      BlocksFromPartition(s, next);
      assert s[start..] == s[start..next] + s[next..];
    }
  }

  lemma {:induction false} BlocksPartition(s: string)
    ensures Concat(Blocks(s)) == s
  {
    BlocksFromPartition(s, 0);
  }

  /** An occurrence inside a slice is an occurrence in the whole. */
  lemma {:induction false} AtInSlice(s: string, a: nat, b: nat, p: nat, w: string)
    requires a <= b <= |s| && At(s[a..b], p, w)
    ensures At(s, a + p, w) && a + p + |w| <= b
  {
    forall i | 0 <= i < |w| ensures s[a + p + i] == w[i] {
      assert s[a..b][p..p + |w|][i] == w[i];
    }
    assert s[a + p..a + p + |w|] == w;
  }

  /** `Nome:` cannot overlap itself: two occurrences are at least its length apart. */
  lemma NameApart(s: string, a: nat, b: nat)
    requires At(s, a, NameLabel) && a < b < a + |NameLabel|
    ensures !At(s, b, NameLabel)
  {
    assert s[b] == s[a..a + |NameLabel|][b - a] != 'N';
  }

  /** No `Nome:` inside the block that starts at `start`; that block starts with one unless it is the first. */
  lemma CutShape(s: string, start: nat)
    requires start <= |s|
    requires start > 0 ==> At(s, start, NameLabel)
    ensures var b := s[start..NextCut(s, start)];
      && (forall p: nat :: 0 < p ==> !At(b, p, NameLabel))
      && (start > 0 ==> StartsWith(b, NameLabel))
  {
    var next := NextCut(s, start);
    var b := s[start..next];
    forall p: nat | 0 < p ensures !At(b, p, NameLabel) {
      if At(b, p, NameLabel) { AtInSlice(s, start, next, p, NameLabel); }
    }
    if start > 0 {
      assert next >= start + |NameLabel| by {
        if next < start + |NameLabel| { NameApart(s, start, next); }
      }
      assert b[..|NameLabel|] == s[start..start + |NameLabel|];
    }
  }

  /** Every block after the first starts with `Nome:`, and no block has `Nome:` anywhere else. */
  lemma {:induction false} BlocksFromShape(s: string, start: nat)
    requires start <= |s|
    requires start > 0 ==> At(s, start, NameLabel)
    decreases |s| - start
    ensures var bs := BlocksFrom(s, start);
      && (forall k :: 0 < k < |bs| ==> StartsWith(bs[k], NameLabel))
      && (start > 0 ==> StartsWith(bs[0], NameLabel))
      && (forall k, p: nat :: 0 <= k < |bs| && 0 < p ==> !At(bs[k], p, NameLabel))
  {
    var next := NextCut(s, start);
    var bs := BlocksFrom(s, start);
    BlocksFromStep(s, start);
    CutShape(s, start);
    if next < |s| {
      var rest := BlocksFrom(s, next);
      BlocksFromShape(s, next);
      CutShape(s, next);
      forall k | 0 < k < |bs| ensures bs[k] == rest[k - 1] {
        assert bs[k] == bs[1..][k - 1];
      }
    }
  }

  lemma {:induction false} BlocksShape(s: string)
    ensures var bs := Blocks(s);
      && (forall k :: 0 < k < |bs| ==> StartsWith(bs[k], NameLabel))
      && (forall k, p: nat :: 0 <= k < |bs| && 0 < p ==> !At(bs[k], p, NameLabel))
  {
    assert Blocks(s) == BlocksFrom(s, 0);
    BlocksFromShape(s, 0);
  }

  // ---------------------------------------------------------------------------
  // One place per block.
  // ---------------------------------------------------------------------------

  /** What the parser reads from one block; the identity is added when the place is pushed. */
  datatype Entry = Entry(
    name: string,
    description: string,
    address: string,
    distance: Option<string>,
    category: string,
    lat: string,
    lng: string,
    instagram: Option<string>,
    whatsapp: Option<string>)

  /** The form every parsed entry has. */
  predicate Tidy(e: Entry) {
    && Cleaned(e.name) && Cleaned(e.description) && Cleaned(e.address) && Cleaned(e.category)
    && (e.distance.Some? ==> Cleaned(e.distance.value))
    && (e.instagram.Some? ==> Cleaned(e.instagram.value))
    && e.lat != [] && (forall i :: 0 <= i < |e.lat| ==> IsCoordChar(e.lat[i]))
    && e.lng != [] && (forall i :: 0 <= i < |e.lng| ==> IsCoordChar(e.lng[i]))
    && (e.whatsapp.Some? ==> forall i :: 0 <= i < |e.whatsapp.value| ==> IsDigit(e.whatsapp.value[i]))
  }

  /** The defaults are values `clean` could have produced. */
  lemma DefaultsCleaned()
    ensures Cleaned("") && Cleaned(DefaultCategory)
  {
  }

  /** A text field: the cleaned capture of `<marker>\s*(.+)`, if any. */
  function Field(b: string, marker: string): Option<string>
    requires marker != []
  {
    match Match(b, marker, Line)
    case Some(v) => Some(Clean(v))
    case None => None
  }

  lemma FieldCleaned(b: string, marker: string)
    requires marker != []
    ensures Field(b, marker).Some? ==> Cleaned(Field(b, marker).value)
  {
    if Match(b, marker, Line).Some? {
      CleanShape(Match(b, marker, Line).value);
    }
  }

  /**
    The place a block describes. A block yields one exactly when `Nome:`, `Lat:` and `Long:`
    all match; the coordinates are the captured runs of `[-\d.]`, the WhatsApp number keeps
    only its digits, and the other fields are cleaned, with defaults when absent.
  */
  function BlockEntry(b: string): Option<Entry> {
    Assemble(
      Match(b, NameLabel, Line), Match(b, LatLabel, Coord), Match(b, LngLabel, Coord),
      Field(b, DescriptionLabel), Field(b, AddressLabel), Field(b, DistanceLabel),
      Field(b, CategoryLabel), Field(b, InstagramLabel), Field(b, WhatsAppLabel))
  }

  /**
    The `if (nameMatch && latMatch && lngMatch)` of the source: the entry built from the nine
    captures, with `''` and `geral` for a missing description, address or category.
  */
  function Assemble(
    name: Option<string>, lat: Option<string>, lng: Option<string>,
    description: Option<string>, address: Option<string>, distance: Option<string>,
    category: Option<string>, instagram: Option<string>, whatsapp: Option<string>): Option<Entry>
  {
    if name.Some? && lat.Some? && lng.Some? then
      Some(Entry(
        name := Clean(name.value),
        description := description.GetOr(""),
        address := address.GetOr(""),
        distance := distance,
        category := category.GetOr(DefaultCategory),
        lat := lat.value,
        lng := lng.value,
        instagram := instagram,
        whatsapp := if whatsapp.Some? then Some(Digits(whatsapp.value)) else None))
    else None
  }

  /**
    A block yields a place exactly when its name, latitude and longitude patterns all match,
    and every place it yields is tidy.
  */
  lemma BlockEntryShape(b: string)
    ensures BlockEntry(b).Some? <==>
      Match(b, NameLabel, Line).Some? && Match(b, LatLabel, Coord).Some? && Match(b, LngLabel, Coord).Some?
    ensures BlockEntry(b).Some? ==> Tidy(BlockEntry(b).value)
  {
    var name, lat, lng := Match(b, NameLabel, Line), Match(b, LatLabel, Coord), Match(b, LngLabel, Coord);
    var description, address, distance := Field(b, DescriptionLabel), Field(b, AddressLabel), Field(b, DistanceLabel);
    var category, instagram, whatsapp := Field(b, CategoryLabel), Field(b, InstagramLabel), Field(b, WhatsAppLabel);
    assert BlockEntry(b) == Assemble(name, lat, lng, description, address, distance, category, instagram, whatsapp);
    MatchCaptured(b, LatLabel, Coord);
    MatchCaptured(b, LngLabel, Coord);
    FieldCleaned(b, DescriptionLabel);
    FieldCleaned(b, AddressLabel);
    FieldCleaned(b, DistanceLabel);
    FieldCleaned(b, CategoryLabel);
    FieldCleaned(b, InstagramLabel);
    AssembleTidy(name, lat, lng, description, address, distance, category, instagram, whatsapp);
  }

  lemma AssembleTidy(
    name: Option<string>, lat: Option<string>, lng: Option<string>,
    description: Option<string>, address: Option<string>, distance: Option<string>,
    category: Option<string>, instagram: Option<string>, whatsapp: Option<string>)
    requires lat.Some? ==> Captured(lat.value, Coord)
    requires lng.Some? ==> Captured(lng.value, Coord)
    requires description.Some? ==> Cleaned(description.value)
    requires address.Some? ==> Cleaned(address.value)
    requires distance.Some? ==> Cleaned(distance.value)
    requires category.Some? ==> Cleaned(category.value)
    requires instagram.Some? ==> Cleaned(instagram.value)
    ensures var r := Assemble(name, lat, lng, description, address, distance, category, instagram, whatsapp);
      && (r.Some? <==> name.Some? && lat.Some? && lng.Some?)
      && (r.Some? ==> Tidy(r.value))
  {
    DefaultsCleaned();
    if name.Some? { CleanShape(name.value); }
  }

  /** Fields whose label the block does not contain take their defaults. */
  lemma {:induction false} AbsentFieldDefaults(b: string)
    requires BlockEntry(b).Some?
    ensures var e := BlockEntry(b).value;
      && (!Contains(b, DescriptionLabel) ==> e.description == "")
      && (!Contains(b, AddressLabel) ==> e.address == "")
      && (!Contains(b, DistanceLabel) ==> e.distance.None?)
      && (!Contains(b, CategoryLabel) ==> e.category == DefaultCategory)
      && (!Contains(b, InstagramLabel) ==> e.instagram.None?)
      && (!Contains(b, WhatsAppLabel) ==> e.whatsapp.None?)
  {
    if !Contains(b, DescriptionLabel) { MatchAbsent(b, DescriptionLabel, Line); }
    if !Contains(b, AddressLabel) { MatchAbsent(b, AddressLabel, Line); }
    if !Contains(b, DistanceLabel) { MatchAbsent(b, DistanceLabel, Line); }
    if !Contains(b, CategoryLabel) { MatchAbsent(b, CategoryLabel, Line); }
    if !Contains(b, InstagramLabel) { MatchAbsent(b, InstagramLabel, Line); }
    if !Contains(b, WhatsAppLabel) { MatchAbsent(b, WhatsAppLabel, Line); }
  }

  /** What `f` yields on each element, in order; elements that yield nothing are skipped. */
  function Collect<A, B>(xs: seq<A>, f: A -> Option<B>): (ys: seq<B>)
    ensures |ys| <= |xs|
  {
    if xs == [] then []
    else (match f(xs[0]) case Some(y) => [y] case None => []) + Collect(xs[1..], f)
  }

  /** `Collect` works piece by piece. */
  lemma {:induction false} CollectConcat<A, B>(a: seq<A>, b: seq<A>, f: A -> Option<B>)
    ensures Collect(a + b, f) == Collect(a, f) + Collect(b, f)
  {
    if a == [] {
      assert a + b == b;
    } else {
      assert (a + b)[1..] == a[1..] + b;
      CollectConcat(a[1..], b, f);
    }
  }

  /** Appending one element appends what it yields. */
  lemma CollectSnoc<A, B>(xs: seq<A>, x: A, f: A -> Option<B>)
    ensures Collect(xs + [x], f) == Collect(xs, f) + (match f(x) case Some(y) => [y] case None => [])
  {
    CollectConcat(xs, [x], f);
    assert [x][1..] == [];
  }

  /** An element that yields something contributes it right after what the elements before it yield. */
  lemma {:induction false} CollectOrder<A, B>(xs: seq<A>, f: A -> Option<B>, i: nat, j: nat)
    requires i < j <= |xs| && f(xs[i]).Some?
    ensures |Collect(xs[..i], f)| < |Collect(xs[..j], f)| <= |Collect(xs, f)|
    ensures Collect(xs, f)[|Collect(xs[..i], f)|] == f(xs[i]).value
  {
    assert xs == xs[..j] + xs[j..];
    CollectConcat(xs[..j], xs[j..], f);
    assert xs[..j] == xs[..i] + [xs[i]] + xs[i + 1..j];
    CollectConcat(xs[..i] + [xs[i]], xs[i + 1..j], f);
    CollectConcat(xs[..i], [xs[i]], f);
    assert [xs[i]][1..] == [];
  }

  /** The entries of a list of blocks, in block order; blocks that yield nothing are skipped. */
  function EntriesOf(blocks: seq<string>): (es: seq<Entry>)
    ensures |es| <= |blocks|
  {
    Collect(blocks, BlockEntry)
  }

  /** What `parsePlacesFromText` reads from a reply, without the identities. */
  function Entries(text: string): seq<Entry> {
    EntriesOf(Blocks(text))
  }

  /** Blocks are independent: the entries of two runs of blocks are the entries of each, in order. */
  lemma {:induction false} EntriesOfConcat(a: seq<string>, b: seq<string>)
    ensures EntriesOf(a + b) == EntriesOf(a) + EntriesOf(b)
  {
    CollectConcat(a, b, BlockEntry);
  }

  /**
    Places come out in block order: a block that yields an entry contributes it right after
    the entries of the blocks before it.
  */
  lemma {:induction false} EntriesInBlockOrder(bs: seq<string>, i: nat, j: nat)
    requires i < j <= |bs| && BlockEntry(bs[i]).Some?
    ensures |EntriesOf(bs[..i])| < |EntriesOf(bs[..j])| <= |EntriesOf(bs)|
    ensures EntriesOf(bs)[|EntriesOf(bs[..i])|] == BlockEntry(bs[i]).value
  {
    CollectOrder(bs, BlockEntry, i, j);
  }

  /** A reply without `Nome:` yields no place. */
  lemma {:induction false} NoNameNoPlaces(text: string)
    requires !Contains(text, NameLabel)
    ensures Entries(text) == []
  {
    assert NextCut(text, 0) == |text|;
    assert Blocks(text) == [text];
    MatchAbsent(text, NameLabel, Line);
  }

  /** A block yields an entry only if it starts at a `Nome:` of the text. */
  lemma {:induction false} EntryStartsAtName(s: string, start: nat)
    requires start <= |s|
    requires BlockEntry(BlocksFrom(s, start)[0]).Some?
    ensures At(s, start, NameLabel)
  {
    var next := NextCut(s, start);
    var b := BlocksFrom(s, start)[0];
    BlocksFromStep(s, start);
    BlockEntryShape(b);
    if !Contains(b, NameLabel) { MatchAbsent(b, NameLabel, Line); }
    var p: nat :| At(b, p, NameLabel);
    AtInSlice(s, start, next, p, NameLabel);
    assert p == 0;
  }

  /** The text before the first `Nome:` never yields a place. */
  lemma {:induction false} PreambleYieldsNothing(text: string)
    requires !StartsWith(text, NameLabel)
    ensures BlockEntry(Blocks(text)[0]).None?
  {
    if BlockEntry(Blocks(text)[0]).Some? {
      EntryStartsAtName(text, 0);
    }
  }

  /** The number of occurrences of `w` in `s` at or after `from`. */
  function CountFrom(s: string, w: string, from: nat): nat
    decreases |s| - from
  {
    if from >= |s| then 0 else (if At(s, from, w) then 1 else 0) + CountFrom(s, w, from + 1)
  }

  lemma {:induction false} CountFromSkip(s: string, w: string, a: nat, b: nat)
    requires a <= b
    requires forall p :: a <= p < b ==> !At(s, p, w)
    decreases b - a
    ensures CountFrom(s, w, a) == CountFrom(s, w, b)
  {
    if a < b && a < |s| {
      CountFromSkip(s, w, a + 1, b);
    } else if a < b {
      assert CountFrom(s, w, a) == 0 == CountFrom(s, w, b);
    }
  }

  lemma {:induction false} EntriesFromBound(s: string, start: nat)
    requires start <= |s|
    decreases |s| - start
    ensures |EntriesOf(BlocksFrom(s, start))| <= CountFrom(s, NameLabel, start)
  {
    var bs := BlocksFrom(s, start);
    var next := NextCut(s, start);
    BlocksFromStep(s, start);
    assert bs[1..] == if next == |s| then [] else BlocksFrom(s, next);
    if BlockEntry(bs[0]).Some? {
      EntryStartsAtName(s, start);
    }
    if next < |s| {
      EntriesFromBound(s, next);
      CountFromSkip(s, NameLabel, start + 1, next);
    }
  }

  /** There are never more places than occurrences of `Nome:`. */
  lemma {:induction false} PlacesAtMostNames(text: string)
    ensures |Entries(text)| <= CountFrom(text, NameLabel, 0)
  {
    EntriesFromBound(text, 0);
  }

  /** The record pushed for an entry: `id` comes from `crypto.randomUUID()`. */
  function ToPlace(id: string, e: Entry): Place {
    Place(id, e.name, e.description, e.address, e.distance, e.category, e.lat, e.lng,
          None, e.instagram, e.whatsapp, None, None)
  }

  /**
    `parsePlacesFromText`: one place per block that yields an entry, in block order. The
    identities come from `ids`, where `ids(k)` is the value of the `k`-th call of
    `crypto.randomUUID()`.
  */
  method ParsePlacesFromText(text: string, ids: nat -> string) returns (places: seq<Place>)
    ensures |places| == |Entries(text)|
    ensures forall k :: 0 <= k < |places| ==> places[k] == ToPlace(ids(k), Entries(text)[k])
  {
    var blocks := Blocks(text);
    places := ForEachBlock(blocks, BlockEntry, ids);
  }

  /**
    The `blocks.forEach` loop: `parse` is what the callback reads from a block, and each
    entry it yields is pushed as a place with the next identity.
  */
  method ForEachBlock(blocks: seq<string>, parse: string -> Option<Entry>, ids: nat -> string)
    returns (places: seq<Place>)
    ensures |places| == |Collect(blocks, parse)|
    ensures forall k :: 0 <= k < |places| ==> places[k] == ToPlace(ids(k), Collect(blocks, parse)[k])
  {
    places := [];
    ghost var entries: seq<Entry> := [];
    for i := 0 to |blocks|
      invariant entries == Collect(blocks[..i], parse)
      invariant |places| == |entries|
      invariant forall k :: 0 <= k < |places| ==> places[k] == ToPlace(ids(k), entries[k])
    {
      assert blocks[..i + 1] == blocks[..i] + [blocks[i]];
      CollectSnoc(blocks[..i], blocks[i], parse);
      match parse(blocks[i]) {
        case Some(e) =>
          places := places + [ToPlace(ids(|places|), e)];
          entries := entries + [e];
        case None =>
      }
    }
    assert blocks[..|blocks|] == blocks;
  }

  // ---------------------------------------------------------------------------
  // The route.
  // ---------------------------------------------------------------------------

  /** The lines of `text.split('\n')` that start with `Passo:`, in order. */
  function StepLines(lines: seq<string>): (r: seq<string>)
    ensures |r| <= |lines|
    ensures forall k :: 0 <= k < |r| ==> StartsWith(r[k], StepLabel)
  {
    if lines == [] then []
    else (if StartsWith(lines[0], StepLabel) then [lines[0]] else []) + StepLines(lines[1..])
  }

  /** The step lines are exactly the lines that start with `Passo:`. */
  lemma {:induction false} StepLinesMembers(lines: seq<string>)
    ensures forall x :: x in StepLines(lines) <==> x in lines && StartsWith(x, StepLabel)
  {
    if lines != [] {
      StepLinesMembers(lines[1..]);
      assert lines == [lines[0]] + lines[1..];
    }
  }

  /** Step lines are picked line by line: the step lines of two runs of lines follow each other, in order and with repeats kept. */
  lemma {:induction false} StepLinesConcat(a: seq<string>, b: seq<string>)
    ensures StepLines(a + b) == StepLines(a) + StepLines(b)
  {
    if a != [] {
      assert (a + b)[1..] == a[1..] + b;
      StepLinesConcat(a[1..], b);
    } else {
      assert a + b == b;
    }
  }

  /**
    One step: the text after `Passo:` split on `|`; the instruction is the trimmed text before
    the first `|`, the distance the trimmed text between the first and the second `|`, absent
    when there is no `|` or nothing at all follows it before the next one.
  */
  function StepOf(line: string): RouteStep
    requires StartsWith(line, StepLabel)
  {
    // `line.replace('Passo:', '')` deletes the first occurrence, which is the prefix.
    var parts := Split(line[|StepLabel|..], '|');
    // `parts.length >= 1` always holds, so every step line becomes a step.
    RouteStep(Trim(parts[0]), if |parts| >= 2 && parts[1] != "" then Some(Trim(parts[1])) else None)
  }

  /** The fields of a step, stated on the line itself rather than on its pieces. */
  lemma StepOfFields(line: string)
    requires StartsWith(line, StepLabel)
    ensures var step := StepOf(line);
      var rest := line[|StepLabel|..];
      var i := IndexOfChar(rest, '|');
      && step.instruction == Trim(rest[..i])
      && (step.distance.None? <==> i + 1 >= |rest| || rest[i + 1] == '|')
      && (step.distance.Some? ==>
            var after := rest[i + 1..]; step.distance.value == Trim(after[..IndexOfChar(after, '|')]))
  {
    var rest := line[|StepLabel|..];
    SplitFirst(rest, '|');
    var i := IndexOfChar(rest, '|');
    if i < |rest| {
      SplitFirst(rest[i + 1..], '|');
    }
  }

  /** The trimmed value of the line labelled `marker`, or `default` when there is none. */
  function LabelledValue(text: string, marker: string, default: string): (r: string)
    requires marker != []
    ensures r == default || IsTrimmed(r)
  {
    match Match(text, marker, Line)
    case Some(v) => Trim(v)
    case None => default
  }

  /** What `parseRouteFromText` returns. */
  function RouteOf(text: string): (r: Option<Route>)
    ensures !Contains(text, RouteMarker) ==> r.None?
    ensures r.Some? ==> var lines := StepLines(Split(text, '\n'));
      && |r.value.steps| == |lines| > 0
      && forall k :: 0 <= k < |lines| ==> r.value.steps[k] == StepOf(lines[k])
  {
    if !Contains(text, RouteMarker) then None
    else
      var lines := StepLines(Split(text, '\n'));
      if |lines| == 0 then None
      else
        Some(Route(
          destination := LabelledValue(text, DestinationLabel, DefaultDestination),
          totalDistance := LabelledValue(text, TotalDistanceLabel, NotAvailable),
          totalDuration := LabelledValue(text, DurationLabel, NotAvailable),
          steps := seq(|lines|, k requires 0 <= k < |lines| => StepOf(lines[k]))))
  }

  /**
    A route is returned exactly when the reply contains `Informações da Rota:` and at least
    one of its lines starts with `Passo:`; the destination and totals lines alone do not make one.
  */
  lemma {:induction false} RoutePresence(text: string)
    ensures RouteOf(text).Some? <==>
      Contains(text, RouteMarker) && exists line :: line in Split(text, '\n') && StartsWith(line, StepLabel)
  {
    var lines := StepLines(Split(text, '\n'));
    StepLinesMembers(Split(text, '\n'));
    if |lines| > 0 { assert lines[0] in lines; }
    if exists line :: line in Split(text, '\n') && StartsWith(line, StepLabel) {
      var line :| line in Split(text, '\n') && StartsWith(line, StepLabel);
      assert line in lines;
    }
  }

  /** A returned route falls back to `Destino` and `N/A` for the lines the reply does not have. */
  lemma {:induction false} RouteDefaults(text: string)
    requires RouteOf(text).Some?
    ensures var r := RouteOf(text).value;
      && (!Contains(text, DestinationLabel) ==> r.destination == DefaultDestination)
      && (!Contains(text, TotalDistanceLabel) ==> r.totalDistance == NotAvailable)
      && (!Contains(text, DurationLabel) ==> r.totalDuration == NotAvailable)
  {
    if !Contains(text, DestinationLabel) { MatchAbsent(text, DestinationLabel, Line); }
    if !Contains(text, TotalDistanceLabel) { MatchAbsent(text, TotalDistanceLabel, Line); }
    if !Contains(text, DurationLabel) { MatchAbsent(text, DurationLabel, Line); }
  }

  /**
    The destination and the totals of a returned route are read from the reply: each is the
    trimmed capture of `Label:\s*(.+)` (`Itinerário para\s*(.+)` for the destination) when
    that matches, and the default only when it does not.
  */
  lemma RouteFields(text: string)
    requires RouteOf(text).Some?
    ensures var r := RouteOf(text).value;
      var d, t, u := Match(text, DestinationLabel, Line), Match(text, TotalDistanceLabel, Line), Match(text, DurationLabel, Line);
      && r.destination == (if d.Some? then Trim(d.value) else DefaultDestination)
      && r.totalDistance == (if t.Some? then Trim(t.value) else NotAvailable)
      && r.totalDuration == (if u.Some? then Trim(u.value) else NotAvailable)
  {
  }

  /**
    A reply that opens with `Distância Total:`, blanks and a value on one line reports that
    value, trimmed, as the route's total distance.
  */
  lemma {:induction false} TotalDistanceRead(blanks: string, v: string, tail: string)
    requires IsBlank(blanks)
    requires v != [] && !IsSpace(v[0]) && forall i :: 0 <= i < |v| ==> IsLineChar(v[i])
    requires tail == [] || IsLineTerminator(tail[0])
    ensures var text := TotalDistanceLabel + blanks + v + tail;
      RouteOf(text).Some? ==> RouteOf(text).value.totalDistance == Trim(v)
  {
    var text := TotalDistanceLabel + blanks + v + tail;
    LineAfterMarker(TotalDistanceLabel, blanks, v, tail);
    if RouteOf(text).Some? {
      RouteFields(text);
    }
  }

  /**
    `parseRouteFromText`: after the marker check and the three line captures, the loop
    pushes one step per `Passo:` line; no steps means no route.
  */
  method ParseRouteFromText(text: string) returns (r: Option<Route>)
    ensures r == RouteOf(text)
  {
    if !Contains(text, RouteMarker) {
      return None;
    }
    var destination := LabelledValue(text, DestinationLabel, DefaultDestination);
    var totalDistance := LabelledValue(text, TotalDistanceLabel, NotAvailable);
    var totalDuration := LabelledValue(text, DurationLabel, NotAvailable);
    var steps := ForEachStepLine(StepLines(Split(text, '\n')), StepOf);
    RouteOfSteps(text, steps);
    if |steps| > 0 {
      r := Some(Route(destination, totalDistance, totalDuration, steps));
    } else {
      r := None;
    }
  }

  /**
    The `stepLines.forEach` loop: `step` is what the callback builds from a line, and one
    step is pushed per line, in order.
  */
  method ForEachStepLine(lines: seq<string>, step: string --> RouteStep) returns (steps: seq<RouteStep>)
    requires forall k :: 0 <= k < |lines| ==> step.requires(lines[k])
    ensures |steps| == |lines|
    ensures forall k :: 0 <= k < |lines| ==> steps[k] == step(lines[k])
  {
    steps := [];
    for i := 0 to |lines|
      invariant |steps| == i
      invariant forall k :: 0 <= k < i ==> steps[k] == step(lines[k])
    {
      steps := steps + [step(lines[i])];
    }
  }

  /** `RouteOf` for a reply with the marker, given the steps of its `Passo:` lines. */
  lemma RouteOfSteps(text: string, steps: seq<RouteStep>)
    requires Contains(text, RouteMarker)
    requires var lines := StepLines(Split(text, '\n'));
      |steps| == |lines| && forall k :: 0 <= k < |lines| ==> steps[k] == StepOf(lines[k])
    ensures RouteOf(text) == if |steps| == 0 then None else
      Some(Route(LabelledValue(text, DestinationLabel, DefaultDestination),
                 LabelledValue(text, TotalDistanceLabel, NotAvailable),
                 LabelledValue(text, DurationLabel, NotAvailable), steps))
  {
    var lines := StepLines(Split(text, '\n'));
    if |lines| > 0 {
      assert steps == seq(|lines|, k requires 0 <= k < |lines| => StepOf(lines[k]));
    }
  }
}
