/** The command-debouncing state machine of `RecognizeCommands`: it receives one
    score vector per classifier run, keeps the recent ones in a time window,
    averages them and decides whether the winning label is a new command.

    The history deque is a sequence whose index 0 is the deque's first (oldest)
    element and whose last index is its most recently added one. Java `float`
    scores are modelled as `real`, so rounding is abstracted away; Java `long`
    timestamps are unbounded `int`s. */
module RecognizeCommands {
  import opened Wrappers

  /** The label the decision state starts from. A previous top label equal to
      it never suppresses the next command. */
  const Silence: string := "_silence_"

  /** The constructor's arguments. */
  datatype Config = Config(
    labels: seq<string>,
    averageWindowDuration: int,
    detectionThreshold: real,
    suppression: int,
    minimumCount: int,
    minimumTimeBetweenSamples: int)

  /** Configurations for which every call either raises one of the two
      checked errors or returns a result computed from finite averages. With
      no labels the first call past the warm-up gate fails at the top-score
      lookup; with a negative window the pruning empties the deque and the
      next read of its front fails; with `minimumCount <= 0` and a window
      under 4 ms the first call divides by a count of zero. A
      `minimumCount <= 0` with a longer window behaves as a count of 1: the
      gate holds back every call that finds the deque empty. */
  predicate ValidConfig(cfg: Config) {
    && |cfg.labels| >= 1
    && cfg.averageWindowDuration >= 0
    && (cfg.minimumCount >= 1 || cfg.averageWindowDuration >= 4)
  }

  /** One retained classifier result: its timestamp and its score vector. */
  datatype Entry = Entry(time: int, scores: seq<real>)

  /** The working variables. `previousTopLabelTime == None` stands for the
      `Long.MIN_VALUE` the constructor stores, meaning "never". */
  datatype State = State(
    history: seq<Entry>,
    previousTopLabel: string,
    previousTopLabelTime: Option<int>,
    previousTopLabelScore: real)

  /** What each call returns. */
  datatype Recognition = Recognition(foundCommand: string, score: real, isNewCommand: bool)

  /** The two runtime exceptions the call raises before touching the state. */
  datatype Error =
    | LengthMismatch(expected: nat, actual: nat)
    | OutOfOrder(time: int, oldest: int)

  /** Time since the previous command; `Infinite` stands for `Long.MAX_VALUE`,
      which exceeds every `int` suppression period. */
  datatype Elapsed = Infinite | Finite(ms: int)

  /** What every reachable state satisfies: every stored vector has one score
      per label, and the previous top label is the sentinel or a real label. */
  predicate WellFormed(cfg: Config, st: State) {
    && (forall i :: 0 <= i < |st.history| ==> |st.history[i].scores| == |cfg.labels|)
    && KnownLabel(cfg, st.previousTopLabel)
  }

  /** The sentinel or one of the configured labels. */
  predicate KnownLabel(cfg: Config, name: string) {
    name == Silence || name in cfg.labels
  }

  predicate Sorted(h: seq<Entry>) {
    forall i, j :: 0 <= i <= j < |h| ==> h[i].time <= h[j].time
  }

  /** The state the constructor sets up. */
  function Init(): (st: State)
    ensures forall cfg :: WellFormed(cfg, st)
    ensures Sorted(st.history) && |st.history| == 0
    ensures forall t :: TimeSinceLastTop(st, t) == Infinite
  {
    State([], Silence, None, 0.0)
  }

  /** How many entries the pruning loop removes from the front of `h`, having
      removed `k` already: it stops at the first entry no older than `limit`. */
  function Evicted(h: seq<Entry>, limit: int, k: nat): (d: nat)
    requires k <= |h| && forall i :: 0 <= i < k ==> h[i].time < limit
    ensures k <= d <= |h|
    ensures forall i :: 0 <= i < d ==> h[i].time < limit
    ensures d < |h| ==> h[d].time >= limit
    decreases |h| - k
  {
    if k < |h| && h[k].time < limit then Evicted(h, limit, k + 1) else k
  }

  /** `r` is what is left of `h` after removing entries from its front. */
  predicate SuffixOf(r: seq<Entry>, h: seq<Entry>) {
    |r| <= |h| && forall i :: 0 <= i < |r| ==> r[i] == h[|h| - |r| + i]
  }

  /** Pruning the deque: drop entries from the front while the front entry is
      older than `limit`. */
  function Prune(h: seq<Entry>, limit: int): (r: seq<Entry>)
    ensures SuffixOf(r, h)
    ensures forall i :: 0 <= i < |h| - |r| ==> h[i].time < limit
    ensures |r| > 0 ==> r[0].time >= limit
  {
    var d := Evicted(h, limit, 0);
    seq(|h| - d, i requires 0 <= i < |h| - d => h[d + i])
  }

  /** Adding the latest result to the deque and pruning it to the averaging
      window. */
  function Insert(cfg: Config, h: seq<Entry>, scores: seq<real>, t: int): (r: seq<Entry>)
    requires cfg.averageWindowDuration >= 0
    ensures 0 < |r| <= |h| + 1 && r[|r| - 1] == Entry(t, scores)
    ensures forall i :: 0 <= i < |r| - 1 ==> r[i] == h[|h| + 1 - |r| + i]
    ensures forall i :: 0 <= i < |h| + 1 - |r| ==> h[i].time < t - cfg.averageWindowDuration
    ensures r[0].time >= t - cfg.averageWindowDuration
  {
    var added := h + [Entry(t, scores)];
    assert added[|h|] == Entry(t, scores);
    assert forall i :: 0 <= i < |h| ==> added[i] == h[i];
    Prune(added, t - cfg.averageWindowDuration)
  }

  /** Every entry after an insertion has as many scores as the entries before
      it and the latest result. */
  lemma InsertSized(cfg: Config, h: seq<Entry>, scores: seq<real>, t: int, n: nat)
    requires cfg.averageWindowDuration >= 0
    requires forall j :: 0 <= j < |h| ==> |h[j].scores| == n
    requires |scores| == n
    ensures forall j :: 0 <= j < |Insert(cfg, h, scores, t)| ==> |Insert(cfg, h, scores, t)[j].scores| == n
  {
    var r := Insert(cfg, h, scores, t);
    var k := |h| + 1 - |r|;
    forall j | 0 <= j < |r| ensures |r[j].scores| == n {
      if j < |r| - 1 {
        assert r[j] == h[k + j];
      }
    }
  }

  /** Inserting into a time-ordered deque a result no older than its newest
      entry keeps it time-ordered, with every entry inside the window. */
  lemma InsertKeepsSorted(cfg: Config, h: seq<Entry>, scores: seq<real>, t: int)
    requires cfg.averageWindowDuration >= 0
    requires Sorted(h) && (|h| == 0 || h[|h| - 1].time <= t)
    ensures var r := Insert(cfg, h, scores, t);
      Sorted(r) && forall i :: 0 <= i < |r| ==> r[i].time >= t - cfg.averageWindowDuration
  {
    SortedAppend(h, Entry(t, scores));
    PruneKeepsSorted(h + [Entry(t, scores)], t - cfg.averageWindowDuration);
  }

  lemma PruneKeepsSorted(s: seq<Entry>, limit: int)
    requires Sorted(s)
    ensures var r := Prune(s, limit);
      Sorted(r) && forall i :: 0 <= i < |r| ==> r[i].time >= limit
  {
    var r := Prune(s, limit);
    var k := |s| - |r|;
    forall i, j | 0 <= i <= j < |r| ensures r[i].time <= r[j].time {
      assert r[i] == s[k + i] && r[j] == s[k + j];
    }
    forall i | 0 <= i < |r| ensures r[i].time >= limit {
      assert r[0].time <= r[i].time;
    }
  }

  lemma SortedAppend(h: seq<Entry>, e: Entry)
    requires Sorted(h) && (|h| == 0 || h[|h| - 1].time <= e.time)
    ensures Sorted(h + [e])
  {
    var added := h + [e];
    forall i, j | 0 <= i <= j < |added| ensures added[i].time <= added[j].time {
      if j == |h| && i < |h| {
        assert h[i].time <= h[|h| - 1].time;
      }
    }
  }

  /** A result arriving sooner than `minimumTimeBetweenSamples` after the newest
      stored one is ignored once the deque holds more than one entry. */
  predicate RateLimited(cfg: Config, st: State, t: int) {
    |st.history| > 1 && t - st.history[|st.history| - 1].time < cfg.minimumTimeBetweenSamples
  }

  /** Too few results, or too short a span of them, to trust an average.
      `howMany` is the deque size before the latest result was added. The
      window is non-negative, so Dafny's `/` agrees with Java's here. */
  predicate WarmingUp(cfg: Config, howMany: nat, h: seq<Entry>, t: int)
    requires |h| > 0
  {
    howMany < cfg.minimumCount || t - h[0].time < cfg.averageWindowDuration / 4
  }

  /** Sum of the scores for label `i` over the entries of `h`. */
  function ColumnSum(h: seq<Entry>, i: nat): real
    requires forall j :: 0 <= j < |h| ==> i < |h[j].scores|
  {
    if |h| == 0 then 0.0 else ColumnSum(h[..|h| - 1], i) + h[|h| - 1].scores[i]
  }

  /** The averaged score per label: the column sum over all retained entries
      divided by `howMany`, the count before the latest insertion. */
  function Averages(h: seq<Entry>, n: nat, howMany: nat): (avg: seq<real>)
    requires howMany > 0
    requires forall j :: 0 <= j < |h| ==> |h[j].scores| == n
    ensures |avg| == n
  {
    seq(n, i requires 0 <= i < n => ColumnSum(h, i) / howMany as real)
  }

  /** `k` is the first element of a stable descending sort of `avg`: it holds
      the maximum, and every earlier index holds strictly less. */
  predicate IsStableTop(avg: seq<real>, k: int) {
    && 0 <= k < |avg|
    && (forall j :: 0 <= j < |avg| ==> avg[j] <= avg[k])
    && (forall j :: 0 <= j < k ==> avg[j] < avg[k])
  }

  /** The index of the top score, lowest index among equal maxima. */
  function ArgMax(s: seq<real>): (k: nat)
    requires |s| > 0
    ensures IsStableTop(s, k)
  {
    if |s| == 1 then 0
    else
      var k' := ArgMax(s[..|s| - 1]);
      if s[|s| - 1] > s[k'] then |s| - 1 else k'
  }

  /** Time since the previous command, infinite when the previous top label is
      the sentinel or no command was ever confirmed. */
  function TimeSinceLastTop(st: State, t: int): Elapsed {
    if st.previousTopLabel == Silence || st.previousTopLabelTime.None? then Infinite
    else Finite(t - st.previousTopLabelTime.value)
  }

  predicate Exceeds(e: Elapsed, bound: int) {
    e.Infinite? || e.ms > bound
  }

  /** The three-way trigger rule for a new command. */
  predicate Fires(cfg: Config, st: State, command: string, score: real, t: int) {
    && score > cfg.detectionThreshold
    && command != st.previousTopLabel
    && Exceeds(TimeSinceLastTop(st, t), cfg.suppression)
  }

  /** The two states agree on the previous top label, its time and its score. */
  predicate SameDecision(a: State, b: State) {
    && a.previousTopLabel == b.previousTopLabel
    && a.previousTopLabelTime == b.previousTopLabelTime
    && a.previousTopLabelScore == b.previousTopLabelScore
  }

  /** Everything after the insertion: the warm-up gate, the averaging, the
      ranking and the trigger decision. `h` is the pruned deque and `howMany`
      the deque size before the insertion; when that was zero, the deque holds
      only the latest result, stamped `t`. */
  function Decide(cfg: Config, st: State, h: seq<Entry>, howMany: nat, t: int): (r: (Recognition, State))
    requires ValidConfig(cfg) && |h| > 0
    requires howMany > 0 || h[0].time == t
    requires forall j :: 0 <= j < |h| ==> |h[j].scores| == |cfg.labels|
    ensures r.1.history == h
    ensures KnownLabel(cfg, st.previousTopLabel) ==>
              KnownLabel(cfg, r.0.foundCommand) && KnownLabel(cfg, r.1.previousTopLabel)
    ensures WarmingUp(cfg, howMany, h, t) ==>
              r.0 == Recognition(st.previousTopLabel, 0.0, false) && SameDecision(r.1, st)
    ensures !WarmingUp(cfg, howMany, h, t) ==>
              && howMany > 0
              && var avg := Averages(h, |cfg.labels|, howMany);
              && (exists k :: IsStableTop(avg, k) && r.0.foundCommand == cfg.labels[k] && r.0.score == avg[k])
              && (r.0.isNewCommand <==> Fires(cfg, st, r.0.foundCommand, r.0.score, t))
    ensures r.0.isNewCommand ==>
              r.1.previousTopLabel == r.0.foundCommand
              && r.1.previousTopLabelTime == Some(t)
              && r.1.previousTopLabelScore == r.0.score
    ensures !r.0.isNewCommand ==> SameDecision(r.1, st)
  {
    if WarmingUp(cfg, howMany, h, t) then
      (Recognition(st.previousTopLabel, 0.0, false), st.(history := h))
    else
      var avg := Averages(h, |cfg.labels|, howMany);
      var top := ArgMax(avg);
      var command := cfg.labels[top];
      var score := avg[top];
      if Fires(cfg, st, command, score, t) then
        (Recognition(command, score, true), State(h, command, Some(t), score))
      else
        (Recognition(command, score, false), st.(history := h))
  }

  /** `processLatestResults`: one call of the state machine. */
  function Step(cfg: Config, st: State, scores: seq<real>, t: int): (r: Result<(Recognition, State), Error>)
    requires ValidConfig(cfg) && WellFormed(cfg, st)
    ensures r.Err? <==> |scores| != |cfg.labels| || (|st.history| > 0 && t < st.history[0].time)
    ensures |scores| != |cfg.labels| ==> r == Err(LengthMismatch(|cfg.labels|, |scores|))
    ensures |scores| == |cfg.labels| && |st.history| > 0 && t < st.history[0].time ==>
              r == Err(OutOfOrder(t, st.history[0].time))
    ensures r.Ok? ==> WellFormed(cfg, r.value.1)
    ensures r.Ok? && RateLimited(cfg, st, t) ==>
              r.value.0 == Recognition(st.previousTopLabel, st.previousTopLabelScore, false) && r.value.1 == st
    ensures r.Ok? && !RateLimited(cfg, st, t) ==>
              && r.value.1.history == Insert(cfg, st.history, scores, t)
              && r.value == Decide(cfg, st, r.value.1.history, |st.history|, t)
  {
    if |scores| != |cfg.labels| then
      Err(LengthMismatch(|cfg.labels|, |scores|))
    else if |st.history| > 0 && t < st.history[0].time then
      Err(OutOfOrder(t, st.history[0].time))
    else if RateLimited(cfg, st, t) then
      Ok((Recognition(st.previousTopLabel, st.previousTopLabelScore, false), st))
    else
      InsertSized(cfg, st.history, scores, t, |cfg.labels|);
      Ok(Decide(cfg, st, Insert(cfg, st.history, scores, t), |st.history|, t))
  }

  /** What a call reports: a label or the sentinel; a new command only when the
      trigger rule allows it, in which case it becomes the previous top label
      with the call's time and score; otherwise the decision state is kept. */
  lemma StepDecision(cfg: Config, st: State, scores: seq<real>, t: int)
    requires ValidConfig(cfg) && WellFormed(cfg, st)
    requires Step(cfg, st, scores, t).Ok?
    ensures var (rec, st') := Step(cfg, st, scores, t).value;
      && KnownLabel(cfg, rec.foundCommand)
      && (rec.isNewCommand ==>
            && Fires(cfg, st, rec.foundCommand, rec.score, t)
            && rec.foundCommand in cfg.labels
            && st'.previousTopLabel == rec.foundCommand
            && st'.previousTopLabelTime == Some(t)
            && st'.previousTopLabelScore == rec.score)
      && (!rec.isNewCommand ==> SameDecision(st', st))
  {
  }

  /** A call keeps a time-ordered deque time-ordered, provided results closer
      together than the rate limit are never stored, that is, the limit is not
      negative. */
  lemma StepKeepsSorted(cfg: Config, st: State, scores: seq<real>, t: int)
    requires ValidConfig(cfg) && WellFormed(cfg, st)
    requires Step(cfg, st, scores, t).Ok?
    requires Sorted(st.history) && cfg.minimumTimeBetweenSamples >= 0
    ensures Sorted(Step(cfg, st, scores, t).value.1.history)
  {
    var h := st.history;
    if !RateLimited(cfg, st, t) {
      if |h| == 1 {
        assert h[|h| - 1] == h[0];
      }
      InsertKeepsSorted(cfg, h, scores, t);
    }
  }

  /** A call stores nothing but the latest result. */
  lemma StepKeepsEntries(cfg: Config, st: State, scores: seq<real>, t: int)
    requires ValidConfig(cfg) && WellFormed(cfg, st)
    requires Step(cfg, st, scores, t).Ok?
    ensures forall e :: e in Step(cfg, st, scores, t).value.1.history ==>
              e in st.history || e == Entry(t, scores)
  {
    if !RateLimited(cfg, st, t) {
      var h := st.history;
      var r := Insert(cfg, h, scores, t);
      forall e | e in r ensures e in h || e == Entry(t, scores) {
        var i :| 0 <= i < |r| && r[i] == e;
        if i < |r| - 1 {
          assert e == h[|h| + 1 - |r| + i];
        }
      }
    }
  }

  /** The averaging loop as written: every entry adds its score divided by
      `howMany` to the running total of each label. */
  method AverageScores(h: seq<Entry>, n: nat, howMany: nat) returns (avg: seq<real>)
    requires howMany > 0
    requires forall j :: 0 <= j < |h| ==> |h[j].scores| == n
    ensures avg == Averages(h, n, howMany)
  {
    var d := howMany as real;
    avg := seq(n, _ => 0.0);
    for j := 0 to |h|
      invariant |avg| == n
      invariant forall k :: 0 <= k < n ==> avg[k] == ColumnSum(h[..j], k) / d
    {
      var scoresTensor := h[j].scores;
      assert h[..j + 1][..j] == h[..j];
      var i := 0;
      while i < |scoresTensor|
        invariant 0 <= i <= n && |avg| == n
        invariant forall k :: 0 <= k < i ==> avg[k] == ColumnSum(h[..j + 1], k) / d
        invariant forall k :: i <= k < n ==> avg[k] == ColumnSum(h[..j], k) / d
      {
        assert ColumnSum(h[..j + 1], i) == ColumnSum(h[..j], i) + scoresTensor[i];
        assert ColumnSum(h[..j], i) / d + scoresTensor[i] / d == ColumnSum(h[..j + 1], i) / d;
        avg := avg[i := avg[i] + scoresTensor[i] / d];
        i := i + 1;
      }
    }
    assert h[..|h|] == h;
  }

  /** `compareTo` of the sortable score: a higher score sorts first. */
  function CompareScores(a: real, b: real): int {
    if a > b then -1 else if a < b then 1 else 0
  }

  /** `order` lists every label index once, as a stable sort by
      `CompareScores` arranges them: non-increasing scores, and equal scores
      kept in index order. */
  predicate IsStableSortedOrder(avg: seq<real>, order: seq<nat>) {
    && |order| == |avg|
    && (forall p :: 0 <= p < |order| ==> order[p] < |avg|)
    && (forall i :: 0 <= i < |avg| ==> i in order)
    && (forall p, q :: 0 <= p < q < |order| ==> CompareScores(avg[order[p]], avg[order[q]]) <= 0)
    && (forall p, q :: 0 <= p < q < |order| && CompareScores(avg[order[p]], avg[order[q]]) == 0 ==>
          order[p] < order[q])
  }

  /** At most one index is the stable top. */
  lemma StableTopUnique(avg: seq<real>, a: int, b: int)
    requires IsStableTop(avg, a) && IsStableTop(avg, b)
    ensures a == b
  {
    assert avg[a] <= avg[b] && avg[b] <= avg[a];
  }

  /** The head of any stable descending sort of the averages is `ArgMax`. */
  lemma StableSortTop(avg: seq<real>, order: seq<nat>)
    requires |avg| > 0 && IsStableSortedOrder(avg, order)
    ensures order[0] == ArgMax(avg)
  {
    var top := order[0];
    forall j | 0 <= j < |avg| ensures avg[j] <= avg[top] {
      assert j in order;
      var q :| 0 <= q < |order| && order[q] == j;
      if q > 0 {
        assert CompareScores(avg[order[0]], avg[order[q]]) <= 0;
      }
    }
    forall j | 0 <= j < top ensures avg[j] < avg[top] {
      assert j in order;
      var q :| 0 <= q < |order| && order[q] == j;
      assert CompareScores(avg[order[0]], avg[order[q]]) != 0;
    }
    StableTopUnique(avg, top, ArgMax(avg));
  }

  /** A sequence of calls from state `st`, in order, stopping at the first
      exception. It is defined through its last call, so that recognition `j`
      is the answer to `inputs[j]` at every length. */
  function Run(cfg: Config, st: State, inputs: seq<(seq<real>, int)>): (r: Result<(seq<Recognition>, State), Error>)
    requires ValidConfig(cfg) && WellFormed(cfg, st)
    ensures r.Ok? ==> |r.value.0| == |inputs| && WellFormed(cfg, r.value.1)
    decreases |inputs|
  {
    if |inputs| == 0 then Ok(([], st))
    else
      var n := |inputs| - 1;
      match Run(cfg, st, inputs[..n])
      case Err(e) => Err(e)
      case Ok(before) =>
        match Step(cfg, before.1, inputs[n].0, inputs[n].1)
        case Err(e) => Err(e)
        case Ok(res) => Ok((before.0 + [res.0], res.1))
  }

  /** The last call of a run, made from the state `mid` the earlier calls
      leave: it answers a new command only when the trigger rule allows it
      from `mid`, and then the final state remembers it with the last input's
      time; otherwise the final state keeps the decision state of `mid`. */
  lemma RunLast(cfg: Config, st: State, inputs: seq<(seq<real>, int)>) returns (mid: State)
    requires ValidConfig(cfg) && WellFormed(cfg, st)
    requires |inputs| > 0 && Run(cfg, st, inputs).Ok?
    ensures var n := |inputs| - 1;
      && Run(cfg, st, inputs[..n]).Ok?
      && Run(cfg, st, inputs[..n]).value.1 == mid
      && WellFormed(cfg, mid)
      && Step(cfg, mid, inputs[n].0, inputs[n].1).Ok?
    ensures var n := |inputs| - 1;
      var recs := Run(cfg, st, inputs).value.0;
      var fin := Run(cfg, st, inputs).value.1;
      && |recs| == n + 1
      && Run(cfg, st, inputs[..n]).value.0 == recs[..n]
      && (recs[n].isNewCommand ==>
            && Fires(cfg, mid, recs[n].foundCommand, recs[n].score, inputs[n].1)
            && fin.previousTopLabel == recs[n].foundCommand
            && fin.previousTopLabelTime == Some(inputs[n].1))
      && (!recs[n].isNewCommand ==> SameDecision(fin, mid))
  {
    var n := |inputs| - 1;
    mid := Run(cfg, st, inputs[..n]).value.1;
    StepDecision(cfg, mid, inputs[n].0, inputs[n].1);
    var before := Run(cfg, st, inputs[..n]).value.0;
    var rec := Step(cfg, mid, inputs[n].0, inputs[n].1).value.0;
    assert (before + [rec])[..n] == before;
  }

  /** The earlier calls of a run succeed and give its earlier recognitions. */
  lemma RunPrefix(cfg: Config, st: State, inputs: seq<(seq<real>, int)>)
    requires ValidConfig(cfg) && WellFormed(cfg, st)
    requires |inputs| > 0 && Run(cfg, st, inputs).Ok?
    ensures var n := |inputs| - 1;
      && Run(cfg, st, inputs[..n]).Ok?
      && Run(cfg, st, inputs[..n]).value.0 == Run(cfg, st, inputs).value.0[..n]
  {
    var n := |inputs| - 1;
    var before := Run(cfg, st, inputs[..n]).value.0;
    var mid := Run(cfg, st, inputs[..n]).value.1;
    var rec := Step(cfg, mid, inputs[n].0, inputs[n].1).value.0;
    assert (before + [rec])[..n] == before;
  }

  /** A last call that confirms nothing keeps the decision state the earlier
      calls left. */
  lemma RunLastQuiet(cfg: Config, st: State, inputs: seq<(seq<real>, int)>)
    requires ValidConfig(cfg) && WellFormed(cfg, st)
    requires |inputs| > 0 && Run(cfg, st, inputs).Ok?
    requires !Run(cfg, st, inputs).value.0[|inputs| - 1].isNewCommand
    ensures var n := |inputs| - 1;
      && Run(cfg, st, inputs[..n]).Ok?
      && Run(cfg, st, inputs[..n]).value.0 == Run(cfg, st, inputs).value.0[..n]
      && SameDecision(Run(cfg, st, inputs).value.1, Run(cfg, st, inputs[..n]).value.1)
  {
    var mid := RunLast(cfg, st, inputs);
  }

  /** No recognition strictly between positions `i` and `j` is a new command;
      `i == -1` stands for the start of the run. */
  predicate NoneFiredBetween(recs: seq<Recognition>, i: int, j: int) {
    forall m :: 0 <= m < |recs| && i < m < j ==> !recs[m].isNewCommand
  }

  /** A run that reports no new command keeps the decision state. */
  lemma {:induction false} QuietRunKeepsDecision(cfg: Config, st: State, inputs: seq<(seq<real>, int)>)
    requires ValidConfig(cfg) && WellFormed(cfg, st)
    requires Run(cfg, st, inputs).Ok?
    requires NoneFiredBetween(Run(cfg, st, inputs).value.0, -1, |inputs|)
    ensures SameDecision(Run(cfg, st, inputs).value.1, st)
    decreases |inputs|
  {
    if |inputs| > 0 {
      var mid := RunLast(cfg, st, inputs);
      QuietRunKeepsDecision(cfg, st, inputs[..|inputs| - 1]);
    }
  }

  /** After the last new command of a run, the final state remembers it with
      the time of the input that produced it. */
  lemma {:induction false} LastFireRemembered(cfg: Config, st: State, inputs: seq<(seq<real>, int)>, i: int)
    requires ValidConfig(cfg) && WellFormed(cfg, st)
    requires Run(cfg, st, inputs).Ok?
    requires var recs := Run(cfg, st, inputs).value.0;
      0 <= i < |recs| && recs[i].isNewCommand && NoneFiredBetween(recs, i, |recs|)
    ensures var recs := Run(cfg, st, inputs).value.0;
      var fin := Run(cfg, st, inputs).value.1;
      fin.previousTopLabel == recs[i].foundCommand && fin.previousTopLabelTime == Some(inputs[i].1)
    decreases |inputs|
  {
    var n := |inputs| - 1;
    if i < n {
      RunLastQuiet(cfg, st, inputs);
      assert inputs[..n][i] == inputs[i];
      LastFireRemembered(cfg, st, inputs[..n], i);
    } else {
      assert i == n;
      var mid := RunLast(cfg, st, inputs);
    }
  }

  /** The first new command of a run is one the trigger rule allows from the
      starting state: it scores above the threshold, differs from the previous
      top label, and comes after the suppression period. */
  lemma {:induction false} FirstCommandAllowed(cfg: Config, st: State, inputs: seq<(seq<real>, int)>, j: int)
    requires ValidConfig(cfg) && WellFormed(cfg, st)
    requires Run(cfg, st, inputs).Ok?
    requires var recs := Run(cfg, st, inputs).value.0;
      0 <= j < |recs| && recs[j].isNewCommand && NoneFiredBetween(recs, -1, j)
    ensures var rec := Run(cfg, st, inputs).value.0[j];
      Fires(cfg, st, rec.foundCommand, rec.score, inputs[j].1)
    decreases |inputs|
  {
    var n := |inputs| - 1;
    var mid := RunLast(cfg, st, inputs);
    if j == n {
      QuietRunKeepsDecision(cfg, st, inputs[..n]);
    } else {
      assert inputs[..n][j] == inputs[j];
      FirstCommandAllowed(cfg, st, inputs[..n], j);
    }
  }

  /** Two consecutive new commands of a run differ, the later one scores above
      the threshold, and, unless the earlier one is the sentinel label, they
      are more than `suppression` milliseconds apart. */
  lemma {:induction false} NextCommandAllowed(cfg: Config, st: State, inputs: seq<(seq<real>, int)>, i: int, j: int)
    requires ValidConfig(cfg) && WellFormed(cfg, st)
    requires Run(cfg, st, inputs).Ok?
    requires var recs := Run(cfg, st, inputs).value.0;
      && 0 <= i < j < |recs| && recs[i].isNewCommand && recs[j].isNewCommand
      && NoneFiredBetween(recs, i, j)
    ensures var recs := Run(cfg, st, inputs).value.0;
      && recs[j].foundCommand != recs[i].foundCommand
      && recs[j].score > cfg.detectionThreshold
      && (recs[i].foundCommand != Silence ==> inputs[j].1 - inputs[i].1 > cfg.suppression)
    decreases |inputs|
  {
    var n := |inputs| - 1;
    if j == n {
      LastCommandAllowed(cfg, st, inputs, i);
    } else {
      RunPrefix(cfg, st, inputs);
      assert inputs[..n][i] == inputs[i] && inputs[..n][j] == inputs[j];
      NextCommandAllowed(cfg, st, inputs[..n], i, j);
    }
  }

  /** `NextCommandAllowed` when the later command answers the last input. */
  lemma LastCommandAllowed(cfg: Config, st: State, inputs: seq<(seq<real>, int)>, i: int)
    requires ValidConfig(cfg) && WellFormed(cfg, st)
    requires Run(cfg, st, inputs).Ok?
    requires var recs := Run(cfg, st, inputs).value.0; var n := |recs| - 1;
      && 0 <= i < n && recs[i].isNewCommand && recs[n].isNewCommand
      && NoneFiredBetween(recs, i, n)
    ensures var recs := Run(cfg, st, inputs).value.0; var n := |recs| - 1;
      && recs[n].foundCommand != recs[i].foundCommand
      && recs[n].score > cfg.detectionThreshold
      && (recs[i].foundCommand != Silence ==> inputs[n].1 - inputs[i].1 > cfg.suppression)
  {
    var n := |inputs| - 1;
    var mid := RunLast(cfg, st, inputs);
    assert inputs[..n][i] == inputs[i];
    LastFireRemembered(cfg, st, inputs[..n], i);
  }

  predicate NonDecreasingTimes(inputs: seq<(seq<real>, int)>) {
    forall i, j :: 0 <= i <= j < |inputs| ==> inputs[i].1 <= inputs[j].1
  }

  /** Feeding correctly sized vectors in non-decreasing time order never raises
      an exception, provided nothing stored is later than the first input;
      afterwards nothing stored is later than the last input. */
  lemma {:induction false} OrderedInputsNeverFail(cfg: Config, st: State, inputs: seq<(seq<real>, int)>)
    requires ValidConfig(cfg) && WellFormed(cfg, st)
    requires NonDecreasingTimes(inputs)
    requires forall p :: 0 <= p < |inputs| ==> |inputs[p].0| == |cfg.labels|
    requires |inputs| > 0 ==> forall e :: e in st.history ==> e.time <= inputs[0].1
    ensures Run(cfg, st, inputs).Ok?
    ensures |inputs| > 0 ==>
              forall e :: e in Run(cfg, st, inputs).value.1.history ==> e.time <= inputs[|inputs| - 1].1
    decreases |inputs|
  {
    if |inputs| > 0 {
      var n := |inputs| - 1;
      var t := inputs[n].1;
      var front := inputs[..n];
      assert NonDecreasingTimes(front);
      assert n > 0 ==> front[0] == inputs[0] && front[n - 1] == inputs[n - 1];
      OrderedInputsNeverFail(cfg, st, front);
      var mid := Run(cfg, st, front).value.1;
      assert forall e :: e in mid.history ==> e.time <= t;
      if |mid.history| > 0 {
        assert mid.history[0] in mid.history;
      }
      assert Step(cfg, mid, inputs[n].0, t).Ok?;
      StepKeepsEntries(cfg, mid, inputs[n].0, t);
    }
  }
}
