/**
  What a route card derives from a route (`components/RouteCard.tsx`): the arrow drawn for
  each instruction, the step numbers, the connector between consecutive steps, and whether
  a step's distance line is shown.
*/
module RouteCard {
  import opened Wrappers
  import opened Text
  import opened Types
  import Parser

  /** The four arrows `DirectionIcon` can draw. */
  datatype Icon = TurnLeft | TurnRight | KeepStraight | Straight

  /** `DirectionIcon`: the first keyword the lower-cased instruction contains decides. */
  function IconOf(instruction: string): Icon {
    var text := Lower(instruction);
    if Contains(text, "esquerda") then TurnLeft
    else if Contains(text, "direita") then TurnRight
    else if Contains(text, "mantenha") then KeepStraight
    else Straight
  }

  /** Each arrow is drawn for exactly one combination of keywords, `esquerda` taking precedence. */
  lemma IconCases(instruction: string)
    ensures var text := Lower(instruction);
      && (IconOf(instruction) == TurnLeft <==> Contains(text, "esquerda"))
      && (IconOf(instruction) == TurnRight <==> !Contains(text, "esquerda") && Contains(text, "direita"))
      && (IconOf(instruction) == KeepStraight <==>
            !Contains(text, "esquerda") && !Contains(text, "direita") && Contains(text, "mantenha"))
      && (IconOf(instruction) == Straight <==>
            !Contains(text, "esquerda") && !Contains(text, "direita") && !Contains(text, "mantenha"))
  {
  }

  /** Lower-casing twice is lower-casing once. */
  lemma LowerIdempotent(s: string)
    ensures Lower(Lower(s)) == Lower(s)
  {
  }

  /** The classification ignores letter case. */
  lemma {:induction false} IconIgnoresCase(instruction: string)
    ensures IconOf(Lower(instruction)) == IconOf(instruction)
  {
    LowerIdempotent(instruction);
  }

  /** An instruction that says `esquerda` is a left turn whatever else it says. */
  lemma {:induction false} LeftWins(before: string, after: string)
    ensures IconOf(before + "esquerda" + after) == TurnLeft
  {
    var s := before + "esquerda" + after;
    var p := |before|;
    assert Lower(s)[p..p + 8] == "esquerda" by {
      forall i | 0 <= i < 8 ensures Lower(s)[p + i] == "esquerda"[i] {
        assert s[p + i] == "esquerda"[i];
      }
    }
    assert At(Lower(s), p, "esquerda");
  }

  /** One row of the step list. */
  datatype Row = Row(number: nat, icon: Icon, instruction: string, distance: Option<string>, connector: bool)

  /** `step.distance && ...`: the line is drawn for a present, non-empty distance. */
  function ShownDistance(d: Option<string>): (r: Option<string>)
    ensures r.Some? <==> d.Some? && d.value != ""
    ensures r.Some? ==> r == d
  {
    if d.Some? && d.value != "" then d else None
  }

  /** The row for step `idx` of `steps`. */
  function RowAt(steps: seq<RouteStep>, idx: nat): Row
    requires idx < |steps|
  {
    var step := steps[idx];
    Row(idx + 1, IconOf(step.instruction), step.instruction, ShownDistance(step.distance), idx != |steps| - 1)
  }

  /** `route.steps.map((step, idx) => ...)`. */
  function Rows(steps: seq<RouteStep>): (rows: seq<Row>)
    ensures |rows| == |steps|
    ensures forall k :: 0 <= k < |rows| ==> rows[k] == RowAt(steps, k)
  {
    seq(|steps|, k requires 0 <= k < |steps| => RowAt(steps, k))
  }

  /** The number of rows with a connector. */
  function Connectors(rows: seq<Row>): (n: nat)
    ensures n <= |rows|
  {
    if rows == [] then 0 else (if rows[0].connector then 1 else 0) + Connectors(rows[1..])
  }

  /** Rows that all have a connector except the last one count one connector fewer than rows. */
  lemma {:induction false} AllButLast(rows: seq<Row>)
    requires rows != []
    requires forall k :: 0 <= k < |rows| ==> (rows[k].connector <==> k != |rows| - 1)
    ensures Connectors(rows) == |rows| - 1
  {
    if |rows| > 1 {
      forall k | 0 <= k < |rows[1..]| ensures rows[1..][k].connector <==> k != |rows[1..]| - 1 {
        assert rows[1..][k] == rows[k + 1];
      }
      AllButLast(rows[1..]);
    }
  }

  /**
    The steps are numbered 1, 2, ... in list order, and a route of `n` steps draws `n - 1`
    connectors: one under every step but the last.
  */
  lemma StepNumbering(steps: seq<RouteStep>)
    requires steps != []
    ensures var rows := Rows(steps);
      && rows[0].number == 1
      && (forall k :: 0 <= k < |rows| - 1 ==> rows[k + 1].number == rows[k].number + 1)
      && !rows[|rows| - 1].connector
      && Connectors(rows) == |steps| - 1
  {
    AllButLast(Rows(steps));
  }

  /**
    For a parsed step, the distance line is drawn exactly when the line has a `|` and the
    text between it and the next `|` is not blank: a blank segment is parsed into an empty
    distance, which the card hides.
  */
  lemma ParsedDistanceShown(line: string)
    requires StartsWith(line, Parser.StepLabel)
    ensures var rest := line[|Parser.StepLabel|..];
      var i := IndexOfChar(rest, '|');
      (ShownDistance(Parser.StepOf(line).distance).Some? <==>
        i < |rest| && !IsBlank(rest[i + 1..][..IndexOfChar(rest[i + 1..], '|')]))
  {
    Parser.StepOfFields(line);
    var rest := line[|Parser.StepLabel|..];
    var i := IndexOfChar(rest, '|');
    var d := Parser.StepOf(line).distance;
    if i < |rest| {
      var after := rest[i + 1..];
      var segment := after[..IndexOfChar(after, '|')];
      TrimSlice(segment);
      if i + 1 >= |rest| || rest[i + 1] == '|' {
        assert after == [] || after[0] == '|';
        assert segment == [];
      } else {
        assert d == Some(Trim(segment));
      }
    }
  }
}
