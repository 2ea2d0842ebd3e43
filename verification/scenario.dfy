/** A worked sequence of calls of the state machine with the constants
    `MainActivity` passes to the constructor, each call starting from the state
    the previous one left: "yes" is confirmed once three earlier results are
    stored, is not confirmed again while it stays on top, and "no" is confirmed
    only after the window has refilled following a long pause. */
module CommandScenario {
  import opened Wrappers
  import opened RecognizeCommands

  const Labels: seq<string> := ["_silence_", "yes", "no"]
  const Yes: seq<real> := [0.1, 0.9, 0.0]
  const No: seq<real> := [0.1, 0.0, 0.95]

  /** The constructor arguments `MainActivity` uses. */
  function AppConfig(labels: seq<string>): (cfg: Config)
    ensures cfg.labels == labels
  {
    Config(labels, 500, 0.7, 1500, 3, 30)
  }

  /** The first result only starts filling the window. */
  lemma FirstResult()
    ensures Step(AppConfig(Labels), Init(), Yes, 0)
            == Ok((Recognition(Silence, 0.0, false), State([Entry(0, Yes)], Silence, None, 0.0)))
  {
    var cfg := AppConfig(Labels);
    var h := Insert(cfg, [], Yes, 0);
    assert h == [Entry(0, Yes)];
    assert WarmingUp(cfg, 0, h, 0);
  }

  /** The second and third results only add to the window: the count before
      insertion is still below three. */
  lemma WindowFills()
    ensures Step(AppConfig(Labels), State([Entry(0, Yes)], Silence, None, 0.0), Yes, 50)
            == Ok((Recognition(Silence, 0.0, false), State(H3[..2], Silence, None, 0.0)))
    ensures Step(AppConfig(Labels), State(H3[..2], Silence, None, 0.0), Yes, 100)
            == Ok((Recognition(Silence, 0.0, false), State(H3, Silence, None, 0.0)))
  {
    var cfg := AppConfig(Labels);
    assert Insert(cfg, [Entry(0, Yes)], Yes, 50) == H3[..2];
    assert Insert(cfg, H3[..2], Yes, 100) == H3;
  }

  /** The column sum of a label that scores `v` in every entry. */
  lemma {:induction false} ColumnSumUniform(h: seq<Entry>, i: nat, v: real)
    requires forall j :: 0 <= j < |h| ==> i < |h[j].scores| && h[j].scores[i] == v
    ensures ColumnSum(h, i) == |h| as real * v
    decreases |h|
  {
    if |h| > 0 {
      ColumnSumUniform(h[..|h| - 1], i, v);
    }
  }

  const H3: seq<Entry> := [Entry(0, Yes), Entry(50, Yes), Entry(100, Yes)]
  const H4: seq<Entry> := H3 + [Entry(150, Yes)]

  /** With three earlier results stored, "yes" averages 3.6 / 3 and ranks first ... */
  lemma YesOnTop()
    ensures var avg := Averages(H4, 3, 3); ArgMax(avg) == 1 && avg[1] == 1.2
  {
    var avg := Averages(H4, 3, 3);
    ColumnSumUniform(H4, 0, 0.1);
    ColumnSumUniform(H4, 1, 0.9);
    ColumnSumUniform(H4, 2, 0.0);
    assert avg[1] == 1.2;
    assert IsStableTop(avg, 1);
    StableTopUnique(avg, ArgMax(avg), 1);
  }

  /** ... and is confirmed: nothing was confirmed before. */
  lemma YesDecided()
    ensures Decide(AppConfig(Labels), State(H4[..3], Silence, None, 0.0), H4, 3, 150)
            == (Recognition("yes", 1.2, true), State(H4, "yes", Some(150), 1.2))
  {
    var cfg := AppConfig(Labels);
    assert !WarmingUp(cfg, 3, H4, 150);
    YesOnTop();
  }

  lemma YesConfirmed()
    ensures Step(AppConfig(Labels), State(H3, Silence, None, 0.0), Yes, 150)
            == Ok((Recognition("yes", 1.2, true), State(H4, "yes", Some(150), 1.2)))
  {
    var cfg := AppConfig(Labels);
    var st := State(H3, Silence, None, 0.0);
    assert H4[..3] == H3;
    assert Insert(cfg, H3, Yes, 150) == H4;
    assert !RateLimited(cfg, st, 150);
    YesDecided();
  }

  const H5: seq<Entry> := H4 + [Entry(200, Yes)]
  const H6: seq<Entry> := H5 + [Entry(300, Yes)]

  /** "yes" stays on top but is the previous top label, so it is not
      confirmed again ... */
  lemma YesNotRepeated()
    ensures Step(AppConfig(Labels), State(H4, "yes", Some(150), 1.2), Yes, 200)
            == Ok((Recognition("yes", 1.125, false), State(H5, "yes", Some(150), 1.2)))
  {
    var cfg := AppConfig(Labels);
    var st := State(H4, "yes", Some(150), 1.2);
    assert !RateLimited(cfg, st, 200);
    assert Insert(cfg, H4, Yes, 200) == H5;
    assert !WarmingUp(cfg, 4, H5, 200);
    var avg := Averages(H5, 3, 4);
    ColumnSumUniform(H5, 0, 0.1);
    ColumnSumUniform(H5, 1, 0.9);
    ColumnSumUniform(H5, 2, 0.0);
    assert avg[1] == 1.125;
    assert IsStableTop(avg, 1);
    forall k | IsStableTop(avg, k) ensures k == 1 {
      StableTopUnique(avg, k, 1);
    }
    assert !Fires(cfg, st, "yes", 1.125, 200);
  }

  /** ... however long it stays on top. */
  lemma YesStillNotRepeated()
    ensures Step(AppConfig(Labels), State(H5, "yes", Some(150), 1.2), Yes, 300)
            == Ok((Recognition("yes", 1.08, false), State(H6, "yes", Some(150), 1.2)))
  {
    var cfg := AppConfig(Labels);
    var st := State(H5, "yes", Some(150), 1.2);
    assert !RateLimited(cfg, st, 300);
    assert Insert(cfg, H5, Yes, 300) == H6;
    assert !WarmingUp(cfg, 5, H6, 300);
    var avg := Averages(H6, 3, 5);
    ColumnSumUniform(H6, 0, 0.1);
    ColumnSumUniform(H6, 1, 0.9);
    ColumnSumUniform(H6, 2, 0.0);
    assert avg[1] == 1.08;
    assert IsStableTop(avg, 1);
    forall k | IsStableTop(avg, k) ensures k == 1 {
      StableTopUnique(avg, k, 1);
    }
    assert !Fires(cfg, st, "yes", 1.08, 300);
  }

  /** After a pause longer than the window only the new result is retained ... */
  lemma PauseEmptiesHistory()
    ensures Insert(AppConfig(Labels), H6, No, 1800) == [Entry(1800, No)]
  {
    var r := Insert(AppConfig(Labels), H6, No, 1800);
    assert forall i :: 0 <= i < 6 ==> H6[i].time <= 300;
    assert |r| == 1;
  }

  /** ... so the warm-up gate holds the decision back: "no" is NOT confirmed at
      this point even though it scores 0.95. */
  lemma PauseEmptiesWindow()
    ensures Step(AppConfig(Labels), State(H6, "yes", Some(150), 1.2), No, 1800)
            == Ok((Recognition("yes", 0.0, false), State([Entry(1800, No)], "yes", Some(150), 1.2)))
  {
    var cfg := AppConfig(Labels);
    var st := State(H6, "yes", Some(150), 1.2);
    PauseEmptiesHistory();
    assert !RateLimited(cfg, st, 1800);
    assert WarmingUp(cfg, 6, [Entry(1800, No)], 1800);
    assert Step(cfg, st, No, 1800) == Ok(Decide(cfg, st, [Entry(1800, No)], 6, 1800));
  }

  const N3: seq<Entry> := [Entry(1800, No), Entry(1850, No), Entry(1900, No)]
  const N4: seq<Entry> := N3 + [Entry(1950, No)]

  /** The window refills ... */
  lemma WindowRefills()
    ensures Step(AppConfig(Labels), State([Entry(1800, No)], "yes", Some(150), 1.2), No, 1850)
            == Ok((Recognition("yes", 0.0, false), State(N3[..2], "yes", Some(150), 1.2)))
    ensures Step(AppConfig(Labels), State(N3[..2], "yes", Some(150), 1.2), No, 1900)
            == Ok((Recognition("yes", 0.0, false), State(N3, "yes", Some(150), 1.2)))
  {
    var cfg := AppConfig(Labels);
    assert Insert(cfg, [Entry(1800, No)], No, 1850) == N3[..2];
    assert Insert(cfg, N3[..2], No, 1900) == N3;
  }

  /** With the refilled window "no" averages 3.8 / 3 and ranks first. */
  lemma NoOnTop()
    ensures var avg := Averages(N4, 3, 3); ArgMax(avg) == 2 && avg[2] == 3.8 / 3.0
  {
    var avg := Averages(N4, 3, 3);
    ColumnSumUniform(N4, 0, 0.1);
    ColumnSumUniform(N4, 1, 0.0);
    ColumnSumUniform(N4, 2, 0.95);
    assert avg[2] == 3.8 / 3.0;
    assert IsStableTop(avg, 2);
    StableTopUnique(avg, ArgMax(avg), 2);
  }

  /** ... and "no" is confirmed: it differs from "yes" and 1800 ms have passed
      since "yes", more than the 1500 ms suppression period. */
  lemma NoDecided()
    ensures Decide(AppConfig(Labels), State(N3, "yes", Some(150), 1.2), N4, 3, 1950)
            == (Recognition("no", 3.8 / 3.0, true), State(N4, "no", Some(1950), 3.8 / 3.0))
  {
    var cfg := AppConfig(Labels);
    var st := State(N3, "yes", Some(150), 1.2);
    assert Fires(cfg, st, "no", 3.8 / 3.0, 1950) by {
      assert TimeSinceLastTop(st, 1950) == Finite(1800);
    }
    assert !WarmingUp(cfg, 3, N4, 1950);
    NoOnTop();
  }

  lemma NoRetained()
    ensures Insert(AppConfig(Labels), N3, No, 1950) == N4
  {
  }

  lemma NoConfirmed()
    ensures Step(AppConfig(Labels), State(N3, "yes", Some(150), 1.2), No, 1950)
            == Ok((Recognition("no", 3.8 / 3.0, true), State(N4, "no", Some(1950), 3.8 / 3.0)))
  {
    var cfg := AppConfig(Labels);
    var st := State(N3, "yes", Some(150), 1.2);
    NoRetained();
    assert WellFormed(cfg, st);
    assert !RateLimited(cfg, st, 1950);
    NoDecided();
  }

  /** A result 10 ms after the newest stored one is ignored: the previous
      decision is reported again and nothing is stored. */
  lemma TooSoonIgnored()
    ensures Step(AppConfig(Labels), State(N4, "no", Some(1950), 3.8 / 3.0), Yes, 1960)
            == Ok((Recognition("no", 3.8 / 3.0, false), State(N4, "no", Some(1950), 3.8 / 3.0)))
  {
  }
}
