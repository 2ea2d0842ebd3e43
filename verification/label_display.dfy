/** The label handling of `MainActivity`: the list of labels shown to the user,
    read from the label file, and the test deciding whether a recognition
    result flashes its label in that list. */
module LabelDisplay {
  import opened RecognizeCommands

  /** Upper-casing of a single character, for the ASCII letters. */
  function ToUpper(c: char): char {
    if 'a' <= c <= 'z' then (c as int - 32) as char else c
  }

  /** Labels starting with an underscore are background labels, never shown. */
  predicate IsActionable(name: string)
    requires |name| > 0
  {
    name[0] != '_'
  }

  /** The label as shown: its first character upper-cased. */
  function Capitalize(line: string): (r: string)
    requires |line| > 0
  {
    [ToUpper(line[0])] + line[1..]
  }

  /** Every line of the label file is non-empty; the loading loop reads the
      first character of each. */
  predicate AllNonEmpty(lines: seq<string>) {
    forall i :: 0 <= i < |lines| ==> |lines[i]| > 0
  }

  /** The labels shown, in file order. */
  function Displayed(lines: seq<string>): seq<string>
    requires AllNonEmpty(lines)
  {
    if |lines| == 0 then []
    else
      var last := lines[|lines| - 1];
      Displayed(lines[..|lines| - 1]) + (if IsActionable(last) then [Capitalize(last)] else [])
  }

  /** The positions of the actionable lines, ascending. */
  function ActionableIndices(lines: seq<string>): (idx: seq<nat>)
    requires AllNonEmpty(lines)
    ensures forall k :: 0 <= k < |idx| ==> idx[k] < |lines| && IsActionable(lines[idx[k]])
    ensures forall k, l :: 0 <= k < l < |idx| ==> idx[k] < idx[l]
  {
    if |lines| == 0 then []
    else
      var i := |lines| - 1;
      ActionableIndices(lines[..i]) + (if IsActionable(lines[i]) then [i] else [])
  }

  /** The loading loop: every line goes to the label list, and the actionable
      ones, capitalized, to the displayed list. */
  method LoadLabels(lines: seq<string>) returns (labels: seq<string>, displayed: seq<string>)
    requires AllNonEmpty(lines)
    ensures labels == lines
    ensures displayed == Displayed(lines)
  {
    labels := [];
    displayed := [];
    var i := 0;
    while i < |lines|
      invariant 0 <= i <= |lines|
      invariant labels == lines[..i]
      invariant displayed == Displayed(lines[..i])
    {
      var line := lines[i];
      assert lines[..i + 1][..i] == lines[..i];
      labels := labels + [line];
      if line[0] != '_' {
        displayed := displayed + [[ToUpper(line[0])] + line[1..]];
      }
      i := i + 1;
    }
    assert lines[..|lines|] == lines;
  }

  /** Every actionable line, and no other, has its position listed. */
  lemma {:induction false} ActionableIndicesComplete(lines: seq<string>)
    requires AllNonEmpty(lines)
    ensures forall i :: 0 <= i < |lines| ==> (IsActionable(lines[i]) <==> i in ActionableIndices(lines))
    decreases |lines|
  {
    if |lines| > 0 {
      var i := |lines| - 1;
      var init := lines[..i];
      ActionableIndicesComplete(init);
      assert forall j :: 0 <= j < i ==> init[j] == lines[j];
    }
  }

  /** The displayed list is exactly the actionable lines, capitalized, in file
      order; and no displayed label starts with an underscore. */
  lemma {:induction false} DisplayedIsFilter(lines: seq<string>)
    requires AllNonEmpty(lines)
    ensures var idx := ActionableIndices(lines); var shown := Displayed(lines);
      && |shown| == |idx|
      && (forall k :: 0 <= k < |idx| ==> shown[k] == Capitalize(lines[idx[k]]))
      && (forall k :: 0 <= k < |shown| ==> |shown[k]| > 0 && shown[k][0] != '_')
    decreases |lines|
  {
    if |lines| > 0 {
      var i := |lines| - 1;
      var init := lines[..i];
      DisplayedIsFilter(init);
      assert forall j :: 0 <= j < i ==> init[j] == lines[j];
    }
  }

  /** The UI's test before flashing a label. */
  predicate Highlighted(r: Recognition)
    requires |r.foundCommand| > 0
  {
    r.foundCommand[0] != '_' && r.isNewCommand
  }

  /** A highlighted result is a newly confirmed command, different from the
      previous one, whose capitalized form is among the displayed labels. */
  lemma HighlightedIsDisplayed(cfg: Config, st: State, scores: seq<real>, t: int)
    requires ValidConfig(cfg) && WellFormed(cfg, st) && AllNonEmpty(cfg.labels)
    requires Step(cfg, st, scores, t).Ok?
    ensures |Step(cfg, st, scores, t).value.0.foundCommand| > 0
    ensures var rec := Step(cfg, st, scores, t).value.0;
      Highlighted(rec) ==>
        && rec.foundCommand != st.previousTopLabel
        && Step(cfg, st, scores, t).value.1.previousTopLabel == rec.foundCommand
        && Capitalize(rec.foundCommand) in Displayed(cfg.labels)
  {
    StepDecision(cfg, st, scores, t);
    var rec := Step(cfg, st, scores, t).value.0;
    if Highlighted(rec) {
      var i :| 0 <= i < |cfg.labels| && cfg.labels[i] == rec.foundCommand;
      DisplayedIsFilter(cfg.labels);
      ActionableIndicesComplete(cfg.labels);
      var idx := ActionableIndices(cfg.labels);
      var k :| 0 <= k < |idx| && idx[k] == i;
      assert Displayed(cfg.labels)[k] == Capitalize(rec.foundCommand);
    }
  }
}
