/**
 * The reader of the chart import batch job: a cursor over the charts of the
 * job's data file that can be checkpointed and resumed. Reading the data file
 * is outside the model: `Open` is given the parsed charts. The checkpoint
 * handed to `Open` is one that `CheckpointInfo` returned, so it is never
 * negative.
 */
module BatchChartImport {
  import opened Wrappers
  import opened Charts

  datatype ReaderState = ReaderState(charts: seq<Chart>, chartNo: nat)

  /** One `readItem`: the state after it, the chart returned (`None` for null) and any progress reported */
  datatype Step = Step(next: ReaderState, item: Option<Chart>, progress: Option<int>)

  /** The progress percentage `(int)(100.0 * chartNo / size)` */
  function Percent(chartNo: nat, size: nat): (r: int)
    requires chartNo < size
    ensures 0 <= r < 100
    ensures r * size <= 100 * chartNo < (r + 1) * size
  {
    (100 * chartNo) / size
  }

  /** `open`: the charts of the data file, and the cursor moved to the checkpoint if there is one */
  function OpenState(s: ReaderState, data: seq<Chart>, checkpoint: Option<nat>): ReaderState {
    ReaderState(data, if checkpoint.Some? then checkpoint.value else s.chartNo)
  }

  /** `readItem`: the chart at the cursor, advancing it; null once the charts are used up */
  function ReadStep(s: ReaderState): Step {
    if s.chartNo < |s.charts| then
      Step(s.(chartNo := s.chartNo + 1), Some(s.charts[s.chartNo]),
           if s.chartNo % 10 == 0 then Some(Percent(s.chartNo, |s.charts|)) else None)
    else Step(s, None, None)
  }

  /** `n` successive reads: the final state and the items returned, in order */
  function Run(s: ReaderState, n: nat): (ReaderState, seq<Option<Chart>>)
    decreases n
  {
    if n == 0 then (s, [])
    else
      var step := ReadStep(s);
      var (t, items) := Run(step.next, n - 1);
      (t, [step.item] + items)
  }

  /** A read never moves the cursor past the end, and reads of an exhausted reader change nothing. */
  lemma StepBounds(s: ReaderState)
    ensures s.chartNo <= |s.charts| ==> ReadStep(s).next.chartNo <= |s.charts|
    ensures ReadStep(s).next.charts == s.charts
    ensures s.chartNo >= |s.charts| <==> ReadStep(s).item.None?
    ensures s.chartNo >= |s.charts| ==> ReadStep(s).next == s && ReadStep(s).progress.None?
    ensures ReadStep(s).progress.Some? <==> s.chartNo < |s.charts| && s.chartNo % 10 == 0
    ensures ReadStep(s).progress.Some? ==> 0 <= ReadStep(s).progress.value < 100
  {
  }

  /** Reading from the cursor yields the remaining charts in file order, then nulls. */
  lemma {:induction false} RunReadsInOrder(s: ReaderState, n: nat)
    ensures var (t, items) := Run(s, n);
      && |items| == n && t.charts == s.charts
      && t.chartNo == (if s.chartNo + n <= |s.charts| then s.chartNo + n
                       else if s.chartNo <= |s.charts| then |s.charts| else s.chartNo)
      && forall k :: 0 <= k < n ==>
           items[k] == (if s.chartNo + k < |s.charts| then Some(s.charts[s.chartNo + k]) else None)
    decreases n
  {
    if n > 0 {
      var step := ReadStep(s);
      RunReadsInOrder(step.next, n - 1);
      var (t, items) := Run(step.next, n - 1);
      assert Run(s, n).1 == [step.item] + items;
      forall k | 0 <= k < n
        ensures Run(s, n).1[k] == (if s.chartNo + k < |s.charts| then Some(s.charts[s.chartNo + k]) else None)
      {
        if k > 0 {
          assert Run(s, n).1[k] == items[k - 1];
        }
      }
    }
  }

  /** Reading `n + m` items in one go is reading `n` and then `m` more. */
  lemma {:induction false} RunSplit(s: ReaderState, n: nat, m: nat)
    ensures var (t1, a) := Run(s, n);
            var (t2, b) := Run(t1, m);
            Run(s, n + m) == (t2, a + b)
    decreases n
  {
    if n == 0 {
      assert [] + Run(s, m).1 == Run(s, m).1;
    } else {
      var step := ReadStep(s);
      RunSplit(step.next, n - 1, m);
      assert n + m - 1 == (n - 1) + m;
      var (t1, a) := Run(step.next, n - 1);
      var (t2, b) := Run(t1, m);
      assert [step.item] + (a + b) == ([step.item] + a) + b;
    }
  }

  /**
   * A job stopped after `n` reads and restarted in a fresh reader from its
   * checkpoint, on the same data file, reads exactly what an uninterrupted run
   * would have read.
   */
  lemma ResumeFromCheckpoint(data: seq<Chart>, start: Option<nat>, n: nat, m: nat)
    ensures var s := OpenState(ReaderState([], 0), data, start);
            var (t1, a) := Run(s, n);
            var resumed := OpenState(ReaderState([], 0), data, Some(t1.chartNo));
            var (t2, b) := Run(resumed, m);
            Run(s, n + m) == (t2, a + b)
  {
    var s := OpenState(ReaderState([], 0), data, start);
    RunSplit(s, n, m);
    RunReadsInOrder(s, n);
  }

  class BatchReader {
    var charts: seq<Chart>
    var chartNo: nat

    function State(): ReaderState
      reads this
    {
      ReaderState(charts, chartNo)
    }

    constructor ()
      ensures State() == ReaderState([], 0)
    {
      charts := [];
      chartNo := 0;
    }

    /** `open` */
    method Open(data: seq<Chart>, checkpoint: Option<nat>)
      modifies this
      ensures State() == OpenState(old(State()), data, checkpoint)
    {
      charts := data;
      if checkpoint.Some? {
        chartNo := checkpoint.value;
      }
    }

    /** `readItem`: `progress` is the percentage passed to `updateProgress`, if it is called */
    method ReadItem() returns (item: Option<Chart>, progress: Option<int>)
      modifies this
      ensures var step := ReadStep(old(State()));
        State() == step.next && item == step.item && progress == step.progress
    {
      progress := None;
      if chartNo < |charts| {
        if chartNo % 10 == 0 {
          progress := Some((100 * chartNo) / |charts|);
        }
        item := Some(charts[chartNo]);
        chartNo := chartNo + 1;
        return;
      }
      item := None;
    }

    /** `checkpointInfo`: the cursor */
    function CheckpointInfo(): (r: nat)
      reads this
      ensures OpenState(ReaderState([], 0), charts, Some(r)) == State()
    {
      chartNo
    }
  }
}
