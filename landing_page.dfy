/**
  The sign-in screen (`components/LandingPage.tsx`): a name, then a pattern drawn over a
  grid of nine dots. A new traveller draws a pattern and confirms it, and it is saved under
  a key derived from the name; a returning traveller must draw the saved pattern again.
  The browser's `localStorage` is the map `storage`.
*/
module LandingPage {
  import opened Wrappers
  import opened Text

  /** The dots of the 3 x 3 grid are numbered 0 to 8. */
  const DotCount := 9
  type Dot = i: int | 0 <= i < DotCount

  const MinPatternLength := 3
  /** The "forgot my pattern" button appears after this many errors. */
  const ResetThreshold := 3
  const KeyPrefix := "tpm_pattern_"

  datatype Step = NameStep | PatternStep | ConfirmStep

  /** The record passed to `onLogin`; `signIn` is its `method` field. */
  datatype User = User(name: string, id: string, signIn: string, role: string)

  /** `proceedToLogin`'s record: the typed name, a fresh identity, and two fixed labels. */
  function UserRecord(name: string, id: string): (u: User)
    ensures u.name == name && u.id == id
    ensures u.signIn == "pattern-lock" && u.role == "Explorador Oficial"
  {
    User(name, id, "pattern-lock", "Explorador Oficial")
  }

  // ---------------------------------------------------------------------------
  // The storage key.
  // ---------------------------------------------------------------------------

  /** `tpm_pattern_${name.toLowerCase().trim()}`. */
  function PatternKey(name: string): string {
    KeyPrefix + Trim(Lower(name))
  }

  /** Two names share a key exactly when they agree once lower-cased and trimmed. */
  lemma PatternKeyInjective(a: string, b: string)
    ensures PatternKey(a) == PatternKey(b) <==> Trim(Lower(a)) == Trim(Lower(b))
  {
    if PatternKey(a) == PatternKey(b) {
      assert Trim(Lower(a)) == PatternKey(a)[|KeyPrefix|..];
      assert Trim(Lower(b)) == PatternKey(b)[|KeyPrefix|..];
    }
  }

  /** A name typed in another case (over the ASCII letters) opens the same pattern. */
  lemma PatternKeyIgnoresCase(name: string)
    ensures PatternKey(Lower(name)) == PatternKey(name)
  {
    assert Lower(Lower(name)) == Lower(name);
  }

  // ---------------------------------------------------------------------------
  // `JSON.stringify` and `JSON.parse` on patterns.
  // ---------------------------------------------------------------------------

  function DigitOf(d: Dot): char {
    ('0' as int + d) as char
  }

  /** The elements of a pattern, comma-separated. */
  function Items(p: seq<Dot>): string {
    if p == [] then ""
    else if |p| == 1 then [DigitOf(p[0])]
    else [DigitOf(p[0])] + "," + Items(p[1..])
  }

  /** `JSON.stringify(pattern)`: every dot is one digit, so `[0,4,8]`. */
  function Encode(p: seq<Dot>): string {
    "[" + Items(p) + "]"
  }

  /** The dot a character spells, if any. */
  function DotOf(c: char): (d: Option<Dot>)
    ensures d.Some? ==> DigitOf(d.value) == c
  {
    if '0' <= c <= '8' then Some((c as int - '0' as int) as Dot) else None
  }

  /** A non-empty comma-separated list of dots. */
  function ParseItems(t: string): Option<seq<Dot>>
    decreases |t|
  {
    if t == [] then None
    else match DotOf(t[0])
      case None => None
      case Some(d) =>
        if |t| == 1 then Some([d])
        else if |t| >= 3 && t[1] == ',' then
          match ParseItems(t[2..])
          case None => None
          case Some(rest) => Some([d] + rest)
        else None
  }

  /**
    `JSON.parse` of a saved pattern, for the texts `JSON.stringify` writes: an array of
    dots in the compact form, anything else fails.
  */
  function Decode(s: string): Option<seq<Dot>> {
    if |s| < 2 || s[0] != '[' || s[|s| - 1] != ']' then None
    else if |s| == 2 then Some([])
    else ParseItems(s[1..|s| - 1])
  }

  lemma {:induction false} ParseItemsOfItems(p: seq<Dot>)
    requires p != []
    ensures ParseItems(Items(p)) == Some(p)
  {
    var t := Items(p);
    assert DotOf(DigitOf(p[0])) == Some(p[0]);
    if |p| > 1 {
      assert |Items(p[1..])| > 0 by { assert Items(p[1..])[0] == DigitOf(p[1]); }
      assert t[0] == DigitOf(p[0]) && t[1] == ',';
      assert t[2..] == Items(p[1..]);
      ParseItemsOfItems(p[1..]);
      assert p == [p[0]] + p[1..];
    } else {
      assert t == [DigitOf(p[0])];
      assert p == [p[0]];
    }
  }

  lemma {:induction false} ItemsOfParseItems(t: string)
    requires ParseItems(t).Some?
    ensures ParseItems(t).value != [] && Items(ParseItems(t).value) == t
  {
    var d := DotOf(t[0]).value;
    if |t| > 1 {
      ItemsOfParseItems(t[2..]);
      var p := ParseItems(t).value;
      assert p[1..] == ParseItems(t[2..]).value;
      assert t == [t[0]] + "," + t[2..];
    } else {
      assert t == [t[0]];
    }
  }

  /** Parsing what was written gives the pattern back. */
  lemma DecodeEncode(p: seq<Dot>)
    ensures Decode(Encode(p)) == Some(p)
  {
    var s := Encode(p);
    assert s[1..|s| - 1] == Items(p);
    if p != [] {
      ParseItemsOfItems(p);
      assert |Items(p)| > 0 by { assert Items(p)[0] == DigitOf(p[0]); }
    }
  }

  /** Whatever parses was written exactly that way. */
  lemma EncodeDecode(s: string)
    requires Decode(s).Some?
    ensures Encode(Decode(s).value) == s
  {
    if |s| > 2 {
      ItemsOfParseItems(s[1..|s| - 1]);
    }
    assert s == [s[0]] + s[1..|s| - 1] + [s[|s| - 1]];
  }

  /** Two patterns are written the same exactly when they are the same pattern. */
  lemma EncodeInjective(p: seq<Dot>, q: seq<Dot>)
    ensures Encode(p) == Encode(q) <==> p == q
  {
    DecodeEncode(p);
    DecodeEncode(q);
  }

  /**
    A returning traveller's check: the saved text must parse and print back as the drawn
    pattern prints (`JSON.stringify(parsedSaved) === JSON.stringify(pattern)`).
  */
  function LoginCheck(saved: string, pattern: seq<Dot>): bool {
    match Decode(saved)
    case None => false
    case Some(q) => Encode(q) == Encode(pattern)
  }

  /** The pattern saved at enrolment, and no other, opens the account. */
  lemma LoginAcceptsSaved(saved: seq<Dot>, drawn: seq<Dot>)
    ensures LoginCheck(Encode(saved), drawn) <==> saved == drawn
  {
    DecodeEncode(saved);
    EncodeInjective(saved, drawn);
  }

  // ---------------------------------------------------------------------------
  // Patterns never repeat a dot.
  // ---------------------------------------------------------------------------

  predicate NoDuplicates(p: seq<Dot>) {
    forall i, j :: 0 <= i < j < |p| ==> p[i] != p[j]
  }

  /** The distinct elements of a sequence of distinct elements are as many as its length. */
  lemma {:induction false} DistinctCount(p: seq<Dot>)
    requires NoDuplicates(p)
    ensures |set i | 0 <= i < |p| :: p[i]| == |p|
  {
    if p != [] {
      var rest := p[..|p| - 1];
      assert NoDuplicates(rest);
      DistinctCount(rest);
      var s := set i | 0 <= i < |p| :: p[i];
      var r := set i | 0 <= i < |rest| :: rest[i];
      assert s == r + {p[|p| - 1]};
      assert p[|p| - 1] !in r;
    }
  }

  /** The dots `0 .. k-1`. */
  function DotsBelow(k: nat): (ds: set<Dot>)
    requires k <= DotCount
    ensures |ds| == k
    ensures forall d: Dot :: d in ds <==> d < k
  {
    if k == 0 then {} else DotsBelow(k - 1) + {(k - 1) as Dot}
  }

  /** A pattern without repeated dots uses at most the nine dots of the grid. */
  lemma PatternBound(p: seq<Dot>)
    requires NoDuplicates(p)
    ensures |p| <= DotCount
  {
    DistinctCount(p);
    var s := set i | 0 <= i < |p| :: p[i];
    SubsetCard(s, DotsBelow(DotCount));
  }

  lemma {:induction false} SubsetCard(a: set<Dot>, b: set<Dot>)
    requires a <= b
    ensures |a| <= |b|
  {
    if a != {} {
      var x :| x in a;
      SubsetCard(a - {x}, b - {x});
    }
  }

  /** The storage map's value under `key`, when there is one (`localStorage.getItem`). */
  function Get(storage: map<string, string>, key: string): Option<string> {
    if key in storage then Some(storage[key]) else None
  }

  /** The whole state of the screen at one moment. */
  datatype Screen = Screen(
    step: Step, name: string, pattern: seq<Dot>, firstPattern: seq<Dot>,
    isDrawing: bool, errorCount: nat, error: bool, isNewUser: bool, isLoading: bool,
    storage: map<string, string>, user: Option<User>)

  class Lock {
    var step: Step
    var name: string
    var pattern: seq<Dot>
    var firstPattern: seq<Dot>
    var isDrawing: bool
    var errorCount: nat
    var error: bool
    var isNewUser: bool
    var isLoading: bool
    /** `localStorage`, as far as this screen reads and writes it. */
    var storage: map<string, string>
    /** What `onLogin` was given, once the traveller is let in. */
    var user: Option<User>

    function Now(): Screen
      reads this
    {
      Screen(step, name, pattern, firstPattern, isDrawing, errorCount, error, isNewUser, isLoading, storage, user)
    }

    /**
      The pattern being drawn never repeats a dot, and the confirmation step is only reached
      by a new traveller who drew a long enough first pattern.
    */
    predicate Valid()
      reads this
    {
      && NoDuplicates(pattern)
      && (step == ConfirmStep ==> isNewUser && |firstPattern| >= MinPatternLength)
    }

    constructor(storage: map<string, string>)
      ensures Valid()
      ensures Now() == Screen(NameStep, "", [], [], false, 0, false, false, false, storage, None)
    {
      step := NameStep;
      name := "";
      pattern := [];
      firstPattern := [];
      isDrawing := false;
      errorCount := 0;
      error := false;
      isNewUser := false;
      isLoading := false;
      this.storage := storage;
      user := None;
    }

    /** The reset button is offered once three errors have been made. */
    function ResetOffered(): (r: bool)
      reads this
      ensures r <==> errorCount >= ResetThreshold
    {
      errorCount >= ResetThreshold
    }

    /** Typing in the name field. */
    method EditName(n: string)
      requires Valid()
      modifies this
      ensures Valid()
      ensures Now() == old(Now()).(name := n)
    {
      name := n;
    }

    /**
      `handleNextStep`: a blank name is ignored; otherwise the pattern step starts afresh, and
      the traveller is new exactly when nothing (or an empty text) is saved under the key.
    */
    method HandleNextStep()
      requires Valid()
      modifies this
      ensures Valid()
      ensures IsBlank(old(name)) ==> Now() == old(Now())
      ensures !IsBlank(old(name)) ==>
        var saved := Get(old(storage), PatternKey(old(name)));
        Now() == old(Now()).(isNewUser := saved.None? || saved.value == "", step := PatternStep,
                             pattern := [], firstPattern := [], errorCount := 0)
    {
      if Trim(name) == [] {
        TrimSlice(name);
        return;
      }
      TrimSlice(name);
      var saved := Get(storage, PatternKey(name));
      StartPattern(saved.None? || saved.value == "");
    }

    /** The state updates of `handleNextStep` once the name is accepted. */
    method StartPattern(newUser: bool)
      requires Valid()
      modifies this
      ensures Valid()
      ensures Now() == old(Now()).(isNewUser := newUser, step := PatternStep, pattern := [], firstPattern := [], errorCount := 0)
    {
      isNewUser := newUser;
      step := PatternStep;
      pattern := [];
      firstPattern := [];
      errorCount := 0;
    }

    /**
      `handleDotInteraction`: touching a dot while not drawing starts a new pattern with it;
      while drawing, a dot not yet in the pattern is appended and a repeated one ignored.
    */
    method DotInteraction(d: Dot)
      requires Valid()
      modifies this
      ensures Valid()
      ensures !old(isDrawing) ==> Now() == old(Now()).(isDrawing := true, pattern := [d])
      ensures old(isDrawing) && d !in old(pattern) ==> Now() == old(Now()).(pattern := old(pattern) + [d])
      ensures old(isDrawing) && d in old(pattern) ==> Now() == old(Now())
      ensures |pattern| <= DotCount
    {
      if !isDrawing {
        isDrawing := true;
        pattern := [d];
      } else if d !in pattern {
        pattern := pattern + [d];
      }
      PatternBound(pattern);
    }

    /** `triggerError`: the error shows and the count goes up by one. */
    method TriggerError()
      requires Valid()
      modifies this
      ensures Valid()
      ensures Now() == old(Now()).(error := true, errorCount := old(errorCount) + 1)
    {
      error := true;
      errorCount := errorCount + 1;
    }

    /** The 800 ms timer started by `triggerError`: the pattern is wiped and the error hidden. */
    method ErrorTimeout()
      requires Valid()
      modifies this
      ensures Valid()
      ensures Now() == old(Now()).(pattern := [], error := false)
    {
      pattern := [];
      error := false;
    }

    /** `proceedToLogin`: loading shows, and `onLogin` receives the record once its timer fires. */
    method ProceedToLogin(id: string)
      requires Valid()
      modifies this
      ensures Valid()
      ensures Now() == old(Now()).(isLoading := true, user := Some(UserRecord(old(name), id)))
    {
      isLoading := true;
      user := Some(UserRecord(name, id));
    }

    /** The text a returning traveller's pattern is compared with: `savedPattern || '[]'`. */
    function SavedText(): string
      reads this
    {
      var saved := Get(storage, PatternKey(name));
      if saved.Some? && saved.value != "" then saved.value else "[]"
    }

    /**
      `finishDrawing`, on lifting the finger. `id` is the identity `crypto.randomUUID()`
      would give the traveller if they are let in.
    */
    method FinishDrawing(id: string)
      requires Valid()
      modifies this
      ensures Valid()
      ensures !old(isDrawing) ==> Now() == old(Now())
      // Too short: an error, whoever is drawing.
      ensures old(isDrawing) && |old(pattern)| < MinPatternLength ==>
        Now() == old(Now()).(isDrawing := false, error := true, errorCount := old(errorCount) + 1)
      // A new traveller's first pattern is kept and must be drawn again.
      ensures old(isDrawing) && |old(pattern)| >= MinPatternLength && old(isNewUser) && old(step) == PatternStep ==>
        Now() == old(Now()).(isDrawing := false, firstPattern := old(pattern), pattern := [], step := ConfirmStep)
      // The confirmation saves the pattern and lets the traveller in, or is an error.
      ensures old(isDrawing) && |old(pattern)| >= MinPatternLength && old(isNewUser) && old(step) != PatternStep ==>
        if old(pattern) == old(firstPattern) then
          Now() == old(Now()).(isDrawing := false, isLoading := true, user := Some(UserRecord(old(name), id)),
                               storage := old(storage)[PatternKey(old(name)) := Encode(old(pattern))])
        else
          Now() == old(Now()).(isDrawing := false, error := true, errorCount := old(errorCount) + 1)
      // A returning traveller is let in exactly by the saved pattern.
      ensures old(isDrawing) && |old(pattern)| >= MinPatternLength && !old(isNewUser) ==>
        if LoginCheck(old(SavedText()), old(pattern)) then
          Now() == old(Now()).(isDrawing := false, isLoading := true, user := Some(UserRecord(old(name), id)))
        else
          Now() == old(Now()).(isDrawing := false, error := true, errorCount := old(errorCount) + 1)
    {
      if !isDrawing {
        return;
      }
      isDrawing := false;
      if |pattern| < MinPatternLength {
        TriggerError();
        return;
      }
      if isNewUser {
        Enrol(id);
      } else {
        CheckReturning(id);
      }
    }

    /** A new traveller's pattern: kept at the first step, compared and saved at the confirmation. */
    method Enrol(id: string)
      requires Valid() && isNewUser && |pattern| >= MinPatternLength
      modifies this
      ensures Valid()
      ensures old(step) == PatternStep ==>
        Now() == old(Now()).(firstPattern := old(pattern), pattern := [], step := ConfirmStep)
      ensures old(step) != PatternStep ==>
        if old(pattern) == old(firstPattern) then
          Now() == old(Now()).(isLoading := true, user := Some(UserRecord(old(name), id)),
                               storage := old(storage)[PatternKey(old(name)) := Encode(old(pattern))])
        else
          Now() == old(Now()).(error := true, errorCount := old(errorCount) + 1)
    {
      if step == PatternStep {
        firstPattern := pattern;
        pattern := [];
        step := ConfirmStep;
      } else {
        EncodeInjective(pattern, firstPattern);
        if Encode(pattern) == Encode(firstPattern) {
          storage := storage[PatternKey(name) := Encode(pattern)];
          ProceedToLogin(id);
        } else {
          TriggerError();
        }
      }
    }

    /** A returning traveller's pattern against the saved one. */
    method CheckReturning(id: string)
      requires Valid()
      modifies this
      ensures Valid()
      ensures if LoginCheck(old(SavedText()), old(pattern)) then
          Now() == old(Now()).(isLoading := true, user := Some(UserRecord(old(name), id)))
        else
          Now() == old(Now()).(error := true, errorCount := old(errorCount) + 1)
    {
      match Decode(SavedText()) {
        case None =>
          TriggerError();
        case Some(parsed) =>
          if Encode(parsed) == Encode(pattern) {
            ProceedToLogin(id);
          } else {
            TriggerError();
          }
      }
    }

    /**
      `handleResetApp`, from the button shown after three errors: once the traveller
      confirms, storage is cleared and the page reloads to its first screen.
    */
    method ResetApp(confirmed: bool)
      requires Valid() && ResetOffered()
      modifies this
      ensures Valid()
      ensures !confirmed ==> Now() == old(Now())
      ensures confirmed ==> Now() == Screen(NameStep, "", [], [], false, 0, false, false, false, map[], None)
    {
      if confirmed {
        step := NameStep;
        name := "";
        pattern := [];
        firstPattern := [];
        isDrawing := false;
        errorCount := 0;
        error := false;
        isNewUser := false;
        isLoading := false;
        storage := map[];
        user := None;
      }
    }
  }
}
