/** How `MainActivity` calls the state machine. Its recognition loop fetches
    every score vector into one array allocated before the loop and passes
    that same array on each call, and the deque stores the array itself, not a
    copy. So when a call runs, every retained entry reads the latest scores:
    the averages are taken over copies of the newest vector. */
module SharedScores {
  import opened Wrappers
  import opened RecognizeCommands
  import opened CommandScenario

  /** The deque as a call sees it when every entry refers to the array that
      now holds `scores`: the timestamps are kept, the vectors are not. */
  function Alias(h: seq<Entry>, scores: seq<real>): (r: seq<Entry>)
    ensures |r| == |h|
    ensures forall i :: 0 <= i < |r| ==> r[i].time == h[i].time && r[i].scores == scores
  {
    seq(|h|, i requires 0 <= i < |h| => Entry(h[i].time, scores))
  }

  /** `processLatestResults` as the app calls it: the same call, made on a
      deque whose every entry refers to the array that holds `scores`. */
  function AliasedStep(cfg: Config, st: State, scores: seq<real>, t: int): (r: Result<(Recognition, State), Error>)
    requires ValidConfig(cfg) && WellFormed(cfg, st)
    ensures r.Err? <==> |scores| != |cfg.labels| || (|st.history| > 0 && t < st.history[0].time)
  {
    if |scores| != |cfg.labels| then Err(LengthMismatch(|cfg.labels|, |scores|))
    else Step(cfg, st.(history := Alias(st.history, scores)), scores, t)
  }

  /** After such a call every retained entry holds the latest scores: nothing
      of an earlier vector survives. */
  lemma AliasedStepSharesVectors(cfg: Config, st: State, scores: seq<real>, t: int)
    requires ValidConfig(cfg) && WellFormed(cfg, st)
    requires AliasedStep(cfg, st, scores, t).Ok?
    ensures var h' := AliasedStep(cfg, st, scores, t).value.1.history;
      forall i :: 0 <= i < |h'| ==> h'[i].scores == scores
  {
    var shared := Alias(st.history, scores);
    if !RateLimited(cfg, st.(history := shared), t) {
      var h := Insert(cfg, shared, scores, t);
      forall i | 0 <= i < |h| ensures h[i].scores == scores {
        if i < |h| - 1 {
          assert h[i] == shared[|shared| + 1 - |h| + i];
        }
      }
    }
  }

  /** The deque after three "yes" results and a "no" one, each kept. */
  const Mixed: seq<Entry> := H3 + [Entry(150, No)]

  /** The same deque when every entry reads the array now holding "no". */
  const Shared3: seq<Entry> := [Entry(0, No), Entry(50, No), Entry(100, No)]
  const Shared4: seq<Entry> := Shared3 + [Entry(150, No)]

  /** With each vector kept, "yes" averages 2.7 / 3 = 0.9 and ranks first. */
  lemma MixedOnTop()
    ensures var avg := Averages(Mixed, 3, 3); ArgMax(avg) == 1 && avg[1] == 0.9
  {
    var avg := Averages(Mixed, 3, 3);
    ColumnSumUniform(H3, 0, 0.1);
    ColumnSumUniform(H3, 1, 0.9);
    ColumnSumUniform(H3, 2, 0.0);
    assert Mixed[..3] == H3;
    assert avg[1] == 0.9;
    assert IsStableTop(avg, 1);
    StableTopUnique(avg, ArgMax(avg), 1);
  }

  lemma MixedDecided()
    ensures Decide(AppConfig(Labels), State(H3, Silence, None, 0.0), Mixed, 3, 150)
            == (Recognition("yes", 0.9, true), State(Mixed, "yes", Some(150), 0.9))
  {
    assert !WarmingUp(AppConfig(Labels), 3, Mixed, 150);
    MixedOnTop();
  }

  /** The call with value semantics: a "no" vector after three "yes" ones
      confirms "yes", and the deque keeps the "yes" vectors. */
  lemma KeptVectorsConfirmYes()
    ensures Step(AppConfig(Labels), State(H3, Silence, None, 0.0), No, 150)
            == Ok((Recognition("yes", 0.9, true), State(Mixed, "yes", Some(150), 0.9)))
  {
    var cfg := AppConfig(Labels);
    var st := State(H3, Silence, None, 0.0);
    assert Insert(cfg, H3, No, 150) == Mixed;
    assert !RateLimited(cfg, st, 150);
    MixedDecided();
  }

  /** With every entry reading the "no" vector, "no" averages 3.8 / 3 and
      ranks first. */
  lemma SharedOnTop()
    ensures var avg := Averages(Shared4, 3, 3); ArgMax(avg) == 2 && avg[2] == 3.8 / 3.0
  {
    var avg := Averages(Shared4, 3, 3);
    ColumnSumUniform(Shared4, 0, 0.1);
    ColumnSumUniform(Shared4, 1, 0.0);
    ColumnSumUniform(Shared4, 2, 0.95);
    assert avg[2] == 3.8 / 3.0;
    assert IsStableTop(avg, 2);
    StableTopUnique(avg, ArgMax(avg), 2);
  }

  lemma SharedDecided()
    ensures Decide(AppConfig(Labels), State(Shared3, Silence, None, 0.0), Shared4, 3, 150)
            == (Recognition("no", 3.8 / 3.0, true), State(Shared4, "no", Some(150), 3.8 / 3.0))
  {
    assert !WarmingUp(AppConfig(Labels), 3, Shared4, 150);
    SharedOnTop();
  }

  /** The same call as the app makes it: "no" is confirmed, and nothing of the
      three "yes" results is left. */
  lemma SharedArrayConfirmsNo()
    ensures AliasedStep(AppConfig(Labels), State(H3, Silence, None, 0.0), No, 150)
            == Ok((Recognition("no", 3.8 / 3.0, true), State(Shared4, "no", Some(150), 3.8 / 3.0)))
  {
    var cfg := AppConfig(Labels);
    var shared := State(Shared3, Silence, None, 0.0);
    assert Alias(H3, No) == Shared3;
    assert Insert(cfg, Shared3, No, 150) == Shared4;
    assert !RateLimited(cfg, shared, 150);
    SharedDecided();
  }

  /** On the same input the app's call and the call with value semantics
      confirm different commands, and only the latter still holds the first
      result's vector. */
  lemma SharingChangesTheCommand()
    ensures var kept := Step(AppConfig(Labels), State(H3, Silence, None, 0.0), No, 150);
      var shared := AliasedStep(AppConfig(Labels), State(H3, Silence, None, 0.0), No, 150);
      && kept.Ok? && shared.Ok?
      && kept.value.0.isNewCommand && shared.value.0.isNewCommand
      && kept.value.0.foundCommand == "yes" && shared.value.0.foundCommand == "no"
      && kept.value.1.history[0] == Entry(0, Yes) && shared.value.1.history[0] == Entry(0, No)
  {
    KeptVectorsConfirmYes();
    SharedArrayConfirmsNo();
  }
}
