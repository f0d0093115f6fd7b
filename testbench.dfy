/**
 * The headless driver of the C++ testbench (src/testbench.cpp): stepping
 * the Verilated pipeline, the reset sequence of `main`, and the regression
 * loop and exit status of `parseCmdlineArgs`.
 *
 * The Verilated model is opaque. It is a `Sigmoid` object whose input
 * signals the driver assigns and whose `Eval` records the inputs it saw in
 * `trace`; `dataOut` is whatever the device's `behaviour` makes of that
 * history. Whatever the device is, the driver's own protocol (which inputs
 * are held for how many evaluations, in which order, and how results are
 * counted) is fixed, and that is what is proved here.
 */
module Testbench {
  import opened Wrappers

  /** The inputs of the top module as one `eval()` sees them. */
  datatype Snapshot = Snapshot(clk: bv1, rst: bv1, validIn: bv1, dataIn: bv16)

  /** The device under test, `sigmoid_t`, through its top-level ports. */
  class Sigmoid {
    var clk: bv1
    var rst: bv1
    var validIn: bv1
    var dataIn: bv16
    var dataOut: bv16
    /** The inputs of every `eval()` so far, oldest first: the device's history. */
    var trace: seq<Snapshot>
    /** What the device drives on `data_out` after a given history. */
    const behaviour: seq<Snapshot> -> bv16

    /** A fresh model, as `new Sigmoid(ctx, "TOP")`: ports at zero, nothing evaluated yet. */
    constructor (behaviour: seq<Snapshot> -> bv16)
      ensures this.behaviour == behaviour && trace == []
      ensures clk == 0 && rst == 0 && validIn == 0 && dataIn == 0 && dataOut == 0
    {
      this.behaviour := behaviour;
      clk, rst, validIn, dataIn, dataOut := 0, 0, 0, 0, 0;
      trace := [];
    }

    function Inputs(): Snapshot
      reads this
    {
      Snapshot(clk, rst, validIn, dataIn)
    }

    /** `eval()`: the device takes in the current inputs and updates `data_out`. */
    method Eval()
      modifies this`trace, this`dataOut
      ensures trace == old(trace) + [Inputs()]
      ensures dataOut == behaviour(trace)
    {
      trace := trace + [Inputs()];
      dataOut := behaviour(trace);
    }
  }

  // ---------------------------------------------------------------------
  // stepCycles
  // ---------------------------------------------------------------------

  /** The evaluations of one full clock cycle with the other inputs held: clock low, then clock high. */
  function Cycle(rst: bv1, validIn: bv1, dataIn: bv16): seq<Snapshot> {
    [Snapshot(0, rst, validIn, dataIn), Snapshot(1, rst, validIn, dataIn)]
  }

  /** The evaluations of `n` full clock cycles with the other inputs held. */
  function Cycles(rst: bv1, validIn: bv1, dataIn: bv16, n: nat): seq<Snapshot> {
    if n == 0 then [] else Cycles(rst, validIn, dataIn, n - 1) + Cycle(rst, validIn, dataIn)
  }

  /** `n` cycles are `2n` evaluations that alternate clock low and clock high and hold everything else. */
  lemma {:induction false} CyclesShape(rst: bv1, validIn: bv1, dataIn: bv16, n: nat)
    ensures |Cycles(rst, validIn, dataIn, n)| == 2 * n
    ensures forall i :: 0 <= i < 2 * n ==>
      Cycles(rst, validIn, dataIn, n)[i] == Snapshot(if i % 2 == 0 then 0 else 1, rst, validIn, dataIn)
  {
    if n > 0 {
      CyclesShape(rst, validIn, dataIn, n - 1);
    }
  }

  /**
   * `n` cycles are `2n` evaluations. This is the length part of
   * CyclesShape on its own: DriveTraceLength needs only the length, and
   * the whole shape there costs the solver more than its resource limit.
   */
  lemma {:induction false} CyclesLength(rst: bv1, validIn: bv1, dataIn: bv16, n: nat)
    ensures |Cycles(rst, validIn, dataIn, n)| == 2 * n
  {
    if n > 0 {
      CyclesLength(rst, validIn, dataIn, n - 1);
    }
  }

  /** Stepping `a` cycles and then `b` cycles evaluates exactly what stepping `a + b` cycles does. */
  lemma {:induction false} CyclesAdd(rst: bv1, validIn: bv1, dataIn: bv16, a: nat, b: nat)
    ensures Cycles(rst, validIn, dataIn, a) + Cycles(rst, validIn, dataIn, b) == Cycles(rst, validIn, dataIn, a + b)
  {
    if b > 0 {
      CyclesAdd(rst, validIn, dataIn, a, b - 1);
      assert Cycles(rst, validIn, dataIn, a) + Cycles(rst, validIn, dataIn, b)
          == (Cycles(rst, validIn, dataIn, a) + Cycles(rst, validIn, dataIn, b - 1)) + Cycle(rst, validIn, dataIn);
    }
  }

  /** `stepCycles`: `cycles` full clock cycles; the other inputs stay as the caller set them. */
  method StepCycles(top: Sigmoid, cycles: nat)
    modifies top`clk, top`trace, top`dataOut
    ensures top.trace == old(top.trace) + Cycles(top.rst, top.validIn, top.dataIn, cycles)
    ensures cycles > 0 ==> top.clk == 1 && top.dataOut == top.behaviour(top.trace)
    ensures cycles == 0 ==> top.clk == old(top.clk) && top.dataOut == old(top.dataOut)
  {
    var remaining: nat := cycles;
    while remaining > 0
      invariant remaining <= cycles
      invariant top.trace == old(top.trace) + Cycles(top.rst, top.validIn, top.dataIn, cycles - remaining)
      invariant remaining < cycles ==> top.clk == 1 && top.dataOut == top.behaviour(top.trace)
      invariant remaining == cycles ==> top.clk == old(top.clk) && top.dataOut == old(top.dataOut)
    {
      FullCycle(top);
      remaining := remaining - 1;
    }
  }

  /** One pass of the loop in `stepCycles`: clock low and evaluate, clock high and evaluate. */
  method FullCycle(top: Sigmoid)
    modifies top`clk, top`trace, top`dataOut
    ensures top.trace == old(top.trace) + Cycle(top.rst, top.validIn, top.dataIn)
    ensures top.clk == 1 && top.dataOut == top.behaviour(top.trace)
  {
    top.clk := 0;
    top.Eval();

    top.clk := 1;
    top.Eval();
  }

  // ---------------------------------------------------------------------
  // The reset sequence of main
  // ---------------------------------------------------------------------

  /** Ten cycles in reset with `valid_in` low, then ten cycles out of reset. */
  function ResetTrace(dataIn: bv16): seq<Snapshot> {
    Cycles(1, 0, dataIn, 10) + Cycles(0, 0, dataIn, 10)
  }

  /** The reset sequence is 40 evaluations: 20 with `rst` high, 20 with `rst` low, `valid_in` low throughout. */
  lemma ResetTraceShape(dataIn: bv16)
    ensures |ResetTrace(dataIn)| == 40
    ensures forall i :: 0 <= i < 40 ==> ResetTrace(dataIn)[i].validIn == 0 && ResetTrace(dataIn)[i].dataIn == dataIn
    ensures forall i :: 0 <= i < 20 ==> ResetTrace(dataIn)[i].rst == 1
    ensures forall i :: 20 <= i < 40 ==> ResetTrace(dataIn)[i].rst == 0
  {
    CyclesShape(1, 0, dataIn, 10);
    CyclesShape(0, 0, dataIn, 10);
  }

  /** The reset sequence at the start of `main`. */
  method ResetSequence(top: Sigmoid)
    modifies top`clk, top`rst, top`validIn, top`trace, top`dataOut
    ensures top.trace == old(top.trace) + ResetTrace(top.dataIn)
    ensures top.rst == 0 && top.validIn == 0 && top.clk == 1
    ensures top.dataOut == top.behaviour(top.trace)
  {
    top.rst := 1;
    top.validIn := 0;
    StepCycles(top, 10);

    top.rst := 0;
    StepCycles(top, 10);
  }

  // ---------------------------------------------------------------------
  // The regression loop
  // ---------------------------------------------------------------------

  /** One line of the vector file: an input and the output expected for it. */
  datatype TestVector = TestVector(input: bv16, expected: bv16)

  /** What is printed for a failed vector: its input, the output seen, the output expected. */
  datatype Failure = Failure(input: bv16, output: bv16, expected: bv16)

  /** The cycles the loop waits before reading `data_out`, hard-coded in the loop. */
  const Latency: nat := 5

  /** The evaluations of driving the vectors in order, each held valid for `Latency` cycles out of reset. */
  function DriveTrace(vectors: seq<TestVector>): seq<Snapshot> {
    if vectors == [] then []
    else DriveTrace(vectors[..|vectors| - 1]) + Cycles(0, 1, vectors[|vectors| - 1].input, Latency)
  }

  /** Each vector adds `2 * Latency` evaluations. */
  lemma {:induction false} DriveTraceLength(vectors: seq<TestVector>)
    ensures |DriveTrace(vectors)| == 2 * Latency * |vectors|
  {
    if vectors != [] {
      DriveTraceLength(vectors[..|vectors| - 1]);
      CyclesLength(0, 1, vectors[|vectors| - 1].input, Latency);
    }
  }

  /** The `data_out` read for vector `k`: the device's output after the vectors up to `k` were driven. */
  function OutputAt(behaviour: seq<Snapshot> -> bv16, start: seq<Snapshot>, vectors: seq<TestVector>, k: nat): bv16
    requires k < |vectors|
  {
    behaviour(start + DriveTrace(vectors[..k + 1]))
  }

  /** The failures the loop reports, in order, when the device's history before the loop is `start`. */
  function Mismatches(behaviour: seq<Snapshot> -> bv16, start: seq<Snapshot>, vectors: seq<TestVector>): seq<Failure> {
    if vectors == [] then []
    else
      var last := vectors[|vectors| - 1];
      var output := behaviour(start + DriveTrace(vectors));
      Mismatches(behaviour, start, vectors[..|vectors| - 1]) +
        (if output != last.expected then [Failure(last.input, output, last.expected)] else [])
  }

  /** The positions of the vectors whose output differs from the expected one. */
  function FailedIndices(behaviour: seq<Snapshot> -> bv16, start: seq<Snapshot>, vectors: seq<TestVector>): set<nat> {
    set k: nat | k < |vectors| && OutputAt(behaviour, start, vectors, k) != vectors[k].expected
  }

  /** Vectors before the last one read the same output whether or not the last one follows. */
  lemma PrefixOutputs(behaviour: seq<Snapshot> -> bv16, start: seq<Snapshot>, vectors: seq<TestVector>)
    requires vectors != []
    ensures var prefix := vectors[..|vectors| - 1];
            forall k :: 0 <= k < |prefix| ==>
              prefix[k] == vectors[k] && OutputAt(behaviour, start, prefix, k) == OutputAt(behaviour, start, vectors, k)
  {
    var prefix := vectors[..|vectors| - 1];
    forall k | 0 <= k < |prefix|
      ensures OutputAt(behaviour, start, prefix, k) == OutputAt(behaviour, start, vectors, k)
    {
      PrefixOutputAt(behaviour, start, vectors, k);
    }
  }

  /** The output of one vector before the last is the same with or without the last. */
  lemma PrefixOutputAt(behaviour: seq<Snapshot> -> bv16, start: seq<Snapshot>, vectors: seq<TestVector>, k: nat)
    requires k < |vectors| - 1
    ensures vectors[..|vectors| - 1][k] == vectors[k]
    ensures OutputAt(behaviour, start, vectors[..|vectors| - 1], k) == OutputAt(behaviour, start, vectors, k)
  {
    assert vectors[..|vectors| - 1][..k + 1] == vectors[..k + 1];
  }

  /** Every reported failure is a vector whose output differs from the expected one. */
  lemma {:induction false} MismatchesSound(behaviour: seq<Snapshot> -> bv16, start: seq<Snapshot>, vectors: seq<TestVector>)
    ensures forall f :: f in Mismatches(behaviour, start, vectors) ==>
      exists k :: 0 <= k < |vectors| && OutputAt(behaviour, start, vectors, k) != vectors[k].expected &&
                  f == Failure(vectors[k].input, OutputAt(behaviour, start, vectors, k), vectors[k].expected)
  {
    if vectors != [] {
      MismatchesSound(behaviour, start, vectors[..|vectors| - 1]);
      PrefixOutputs(behaviour, start, vectors);
      assert vectors[..|vectors|] == vectors;
    }
  }

  /** Every vector whose output differs from the expected one is reported. */
  lemma {:induction false} MismatchesComplete(behaviour: seq<Snapshot> -> bv16, start: seq<Snapshot>, vectors: seq<TestVector>)
    ensures forall k :: 0 <= k < |vectors| && OutputAt(behaviour, start, vectors, k) != vectors[k].expected ==>
      Failure(vectors[k].input, OutputAt(behaviour, start, vectors, k), vectors[k].expected) in Mismatches(behaviour, start, vectors)
  {
    if vectors != [] {
      var n := |vectors| - 1;
      var prefix := vectors[..n];
      MismatchesComplete(behaviour, start, prefix);
      var earlier := Mismatches(behaviour, start, prefix);
      var output := behaviour(start + DriveTrace(vectors));
      var last := if output != vectors[n].expected then [Failure(vectors[n].input, output, vectors[n].expected)] else [];
      assert Mismatches(behaviour, start, vectors) == earlier + last;
      forall k | 0 <= k < |vectors| && OutputAt(behaviour, start, vectors, k) != vectors[k].expected
        ensures Failure(vectors[k].input, OutputAt(behaviour, start, vectors, k), vectors[k].expected)
                in Mismatches(behaviour, start, vectors)
      {
        if k < n {
          PrefixOutputAt(behaviour, start, vectors, k);
          assert Failure(prefix[k].input, OutputAt(behaviour, start, prefix, k), prefix[k].expected) in earlier;
        } else {
          assert vectors[..n + 1] == vectors;
          assert Failure(vectors[k].input, output, vectors[k].expected) in last;
        }
      }
    }
  }

  /** The failed positions of the vectors before the last are those of all the vectors, without the last. */
  lemma FailedIndicesStep(behaviour: seq<Snapshot> -> bv16, start: seq<Snapshot>, vectors: seq<TestVector>)
    requires vectors != []
    ensures var n := |vectors| - 1;
            FailedIndices(behaviour, start, vectors[..n]) == FailedIndices(behaviour, start, vectors) - {n}
  {
    PrefixOutputs(behaviour, start, vectors);
  }

  /** The last position is failed exactly when the last vector's output differs from the expected one. */
  lemma FailedIndicesLast(behaviour: seq<Snapshot> -> bv16, start: seq<Snapshot>, vectors: seq<TestVector>)
    requires vectors != []
    ensures var n := |vectors| - 1;
            n in FailedIndices(behaviour, start, vectors) <==> behaviour(start + DriveTrace(vectors)) != vectors[n].expected
  {
    assert vectors[..|vectors|] == vectors;
  }

  /** One failure is reported per vector whose output differs from the expected one. */
  lemma {:induction false} MismatchesCount(behaviour: seq<Snapshot> -> bv16, start: seq<Snapshot>, vectors: seq<TestVector>)
    ensures |Mismatches(behaviour, start, vectors)| == |FailedIndices(behaviour, start, vectors)|
  {
    if vectors != [] {
      var n := |vectors| - 1;
      MismatchesCount(behaviour, start, vectors[..n]);
      FailedIndicesStep(behaviour, start, vectors);
      FailedIndicesLast(behaviour, start, vectors);
      var failed := FailedIndices(behaviour, start, vectors);
      if n in failed {
        assert failed == FailedIndices(behaviour, start, vectors[..n]) + {n};
      } else {
        assert failed == FailedIndices(behaviour, start, vectors[..n]);
      }
    } else {
      assert FailedIndices(behaviour, start, vectors) == {};
    }
  }

  /**
   * The reported failures are exactly the vectors whose output differs from
   * the expected one: none are missed, none are invented, one each.
   */
  lemma MismatchesExact(behaviour: seq<Snapshot> -> bv16, start: seq<Snapshot>, vectors: seq<TestVector>)
    ensures |Mismatches(behaviour, start, vectors)| == |FailedIndices(behaviour, start, vectors)| <= |vectors|
    ensures Mismatches(behaviour, start, vectors) == [] <==>
      forall k :: 0 <= k < |vectors| ==> OutputAt(behaviour, start, vectors, k) == vectors[k].expected
    ensures forall k :: 0 <= k < |vectors| && OutputAt(behaviour, start, vectors, k) != vectors[k].expected ==>
      Failure(vectors[k].input, OutputAt(behaviour, start, vectors, k), vectors[k].expected) in Mismatches(behaviour, start, vectors)
    ensures forall f :: f in Mismatches(behaviour, start, vectors) ==>
      exists k :: 0 <= k < |vectors| && OutputAt(behaviour, start, vectors, k) != vectors[k].expected &&
                  f == Failure(vectors[k].input, OutputAt(behaviour, start, vectors, k), vectors[k].expected)
  {
    MismatchesSound(behaviour, start, vectors);
    MismatchesComplete(behaviour, start, vectors);
    MismatchesCount(behaviour, start, vectors);
    IndicesBound(FailedIndices(behaviour, start, vectors), |vectors|);
    var failures := Mismatches(behaviour, start, vectors);
    if failures != [] {
      assert failures[0] in failures;
    }
  }

  /** A set of positions below `n` has at most `n` elements. */
  lemma {:induction false} IndicesBound(positions: set<nat>, n: nat)
    requires forall k :: k in positions ==> k < n
    ensures |positions| <= n
  {
    if n > 0 {
      IndicesBound(positions - {n - 1}, n - 1);
    } else {
      assert positions == {};
    }
  }

  /**
   * Regrouping a trace; RunRegression calls this at one step of its loop so
   * that the solver does not have to find the regrouping within its
   * resource limit.
   */
  lemma AppendAssoc(a: seq<Snapshot>, b: seq<Snapshot>, c: seq<Snapshot>)
    ensures (a + b) + c == a + (b + c)
  {
  }

  /** Driving one more vector adds its cycles to the history and, if its output is wrong, its failure to the report. */
  lemma DriveStep(behaviour: seq<Snapshot> -> bv16, start: seq<Snapshot>, vectors: seq<TestVector>, k: nat)
    requires k < |vectors|
    ensures DriveTrace(vectors[..k + 1]) == DriveTrace(vectors[..k]) + Cycles(0, 1, vectors[k].input, Latency)
    ensures var output := behaviour(start + DriveTrace(vectors[..k + 1]));
            Mismatches(behaviour, start, vectors[..k + 1]) == Mismatches(behaviour, start, vectors[..k]) +
              (if output != vectors[k].expected then [Failure(vectors[k].input, output, vectors[k].expected)] else [])
  {
    assert vectors[..k + 1][..k] == vectors[..k];
  }

  /** The body of the loop up to the comparison: present the input as valid, out of reset, for `Latency` cycles. */
  method DriveVector(top: Sigmoid, input: bv16)
    modifies top`clk, top`rst, top`validIn, top`dataIn, top`trace, top`dataOut
    ensures top.trace == old(top.trace) + Cycles(0, 1, input, Latency)
    ensures top.rst == 0 && top.validIn == 1 && top.dataIn == input && top.clk == 1
    ensures top.dataOut == top.behaviour(top.trace)
  {
    top.dataIn := input;
    top.validIn := 1;
    top.rst := 0;

    StepCycles(top, Latency);
  }

  /** The loop of `parseCmdlineArgs` over the vectors of the file, in order. */
  method RunRegression(top: Sigmoid, vectors: seq<TestVector>) returns (testsRan: nat, testsFailed: nat, failures: seq<Failure>)
    modifies top`clk, top`rst, top`validIn, top`dataIn, top`trace, top`dataOut
    ensures top.trace == old(top.trace) + DriveTrace(vectors)
    ensures failures == Mismatches(top.behaviour, old(top.trace), vectors)
    ensures testsRan == |vectors| && testsFailed == |failures|
    ensures vectors == [] ==> top.rst == old(top.rst) && top.validIn == old(top.validIn) && top.dataIn == old(top.dataIn)
    ensures vectors == [] ==> top.clk == old(top.clk) && top.dataOut == old(top.dataOut)
    ensures vectors != [] ==> top.rst == 0 && top.validIn == 1 && top.dataIn == vectors[|vectors| - 1].input
    ensures vectors != [] ==> top.clk == 1 && top.dataOut == top.behaviour(top.trace)
  {
    testsRan, testsFailed, failures := 0, 0, [];
    var k := 0;
    while k < |vectors|
      invariant k <= |vectors|
      invariant top.trace == old(top.trace) + DriveTrace(vectors[..k])
      invariant failures == Mismatches(top.behaviour, old(top.trace), vectors[..k])
      invariant testsRan == k && testsFailed == |failures|
      invariant k == 0 ==> top.rst == old(top.rst) && top.validIn == old(top.validIn) && top.dataIn == old(top.dataIn)
      invariant k == 0 ==> top.clk == old(top.clk) && top.dataOut == old(top.dataOut)
      invariant k > 0 ==> top.rst == 0 && top.validIn == 1 && top.dataIn == vectors[k - 1].input
      invariant k > 0 ==> top.clk == 1 && top.dataOut == top.behaviour(top.trace)
    {
      var vector := vectors[k];
      testsRan := testsRan + 1;
      DriveVector(top, vector.input);

      DriveStep(top.behaviour, old(top.trace), vectors, k);
      AppendAssoc(old(top.trace), DriveTrace(vectors[..k]), Cycles(0, 1, vector.input, Latency));
      if top.dataOut != vector.expected {
        testsFailed := testsFailed + 1;
        failures := failures + [Failure(vector.input, top.dataOut, vector.expected)];
      }
      k := k + 1;
    }
    assert vectors[..k] == vectors;
  }

  /** Every input of `s` is out of reset, valid, and holds `dataIn`. */
  ghost predicate Steady(s: seq<Snapshot>, dataIn: bv16) {
    forall i :: 0 <= i < |s| ==> s[i].rst == 0 && s[i].validIn == 1 && s[i].dataIn == dataIn
  }

  /**
   * A device that, once an input has been held valid out of reset for
   * `Latency` cycles, drives `f` of it on `data_out`, whatever came before.
   */
  ghost predicate PipelineComputes(behaviour: seq<Snapshot> -> bv16, f: bv16 -> bv16) {
    forall t: seq<Snapshot>, dataIn: bv16 ::
      |t| >= 2 * Latency && Steady(t[|t| - 2 * Latency..], dataIn) ==> behaviour(t) == f(dataIn)
  }

  /** The last `2 * Latency` evaluations before vector `k` is compared are that vector's cycles. */
  lemma DriveTraceEndsWith(start: seq<Snapshot>, vectors: seq<TestVector>, k: nat)
    requires k < |vectors|
    ensures var t := start + DriveTrace(vectors[..k + 1]);
            |t| >= 2 * Latency && t[|t| - 2 * Latency..] == Cycles(0, 1, vectors[k].input, Latency)
  {
    assert vectors[..k + 1][..k] == vectors[..k];
    CyclesShape(0, 1, vectors[k].input, Latency);
    var t := start + DriveTrace(vectors[..k + 1]);
    assert t == (start + DriveTrace(vectors[..k])) + Cycles(0, 1, vectors[k].input, Latency);
  }

  /** On a device that computes `f` within `Latency` cycles, each vector reads `f` of its input. */
  lemma PipelineOutputs(behaviour: seq<Snapshot> -> bv16, f: bv16 -> bv16, start: seq<Snapshot>, vectors: seq<TestVector>, k: nat)
    requires PipelineComputes(behaviour, f)
    requires k < |vectors|
    ensures OutputAt(behaviour, start, vectors, k) == f(vectors[k].input)
  {
    DriveTraceEndsWith(start, vectors, k);
    CyclesShape(0, 1, vectors[k].input, Latency);
    var t := start + DriveTrace(vectors[..k + 1]);
    assert Steady(t[|t| - 2 * Latency..], vectors[k].input);
  }

  /**
   * On such a device the run reports no failure, and exits with 0, exactly
   * when every expected value in the file is `f` of its input.
   */
  lemma PipelinePasses(behaviour: seq<Snapshot> -> bv16, f: bv16 -> bv16, start: seq<Snapshot>, vectors: seq<TestVector>)
    requires PipelineComputes(behaviour, f)
    ensures ExitStatus(RegressionSummary(behaviour, start, vectors).failed) == 0 <==>
      forall k :: 0 <= k < |vectors| ==> vectors[k].expected == f(vectors[k].input)
  {
    SummaryCounts(behaviour, start, vectors);
    forall k | 0 <= k < |vectors|
      ensures OutputAt(behaviour, start, vectors, k) == f(vectors[k].input)
    {
      PipelineOutputs(behaviour, f, start, vectors, k);
    }
  }

  // ---------------------------------------------------------------------
  // parseCmdlineArgs
  // ---------------------------------------------------------------------

  /** The flags as the command-line library returns them: absent, or with a value. */
  datatype Args = Args(h: Option<bool>, help: Option<bool>, headless: Option<bool>, input: Option<string>)

  function ValueOr<T>(o: Option<T>, default: T): T {
    if o.Some? then o.value else default
  }

  /** How `parseCmdlineArgs` ends: it returns to `main`, calls `std::exit`, or calls `abort`. */
  datatype Outcome = Return | Exit(status: int) | Abort

  /** What the headless run prints at the end, with the failures it printed on the way. */
  datatype Summary = Summary(ran: nat, passed: int, failed: nat, failures: seq<Failure>)

  /** The status passed to `std::exit` after a headless run. */
  function ExitStatus(testsFailed: nat): (status: int)
    ensures status == 0 <==> testsFailed == 0
    ensures status != 0 ==> status == -1
  {
    if testsFailed != 0 then -1 else 0
  }

  /** The summary of running `vectors` on a device whose history so far is `start`. */
  function RegressionSummary(behaviour: seq<Snapshot> -> bv16, start: seq<Snapshot>, vectors: seq<TestVector>): Summary {
    var failures := Mismatches(behaviour, start, vectors);
    Summary(|vectors|, |vectors| - |failures|, |failures|, failures)
  }

  /** The counts of a summary: every vector ran, failed ones are counted once, the rest passed. */
  lemma SummaryCounts(behaviour: seq<Snapshot> -> bv16, start: seq<Snapshot>, vectors: seq<TestVector>)
    ensures 0 <= RegressionSummary(behaviour, start, vectors).failed <= RegressionSummary(behaviour, start, vectors).ran
    ensures RegressionSummary(behaviour, start, vectors).ran == |vectors|
    ensures RegressionSummary(behaviour, start, vectors).passed + RegressionSummary(behaviour, start, vectors).failed == |vectors|
    ensures ExitStatus(RegressionSummary(behaviour, start, vectors).failed) == 0 <==>
      forall k :: 0 <= k < |vectors| ==> OutputAt(behaviour, start, vectors, k) == vectors[k].expected
  {
    MismatchesExact(behaviour, start, vectors);
  }

  /**
   * `parseCmdlineArgs`. The files that can be opened are given as a map
   * from name to the vectors they hold. Help exits with 0 before anything
   * else; headless mode aborts without a usable file and otherwise runs the
   * vectors, prints the summary and exits with `ExitStatus`; without either
   * flag it returns and `main` goes on to the window.
   */
  method ParseCmdlineArgs(top: Sigmoid, args: Args, files: map<string, seq<TestVector>>)
    returns (outcome: Outcome, summary: Option<Summary>)
    modifies top`clk, top`rst, top`validIn, top`dataIn, top`trace, top`dataOut
    ensures var help := ValueOr(args.h, false) || ValueOr(args.help, false);
            help ==> outcome == Exit(0) && summary == None && unchanged(top)
    ensures var help := ValueOr(args.h, false) || ValueOr(args.help, false);
            !help && !ValueOr(args.headless, false) ==> outcome == Return && summary == None && unchanged(top)
    ensures var help := ValueOr(args.h, false) || ValueOr(args.help, false);
            var name := ValueOr(args.input, "");
            !help && ValueOr(args.headless, false) && (name == "" || name !in files) ==>
              outcome == Abort && summary == None && unchanged(top)
    ensures var help := ValueOr(args.h, false) || ValueOr(args.help, false);
            var name := ValueOr(args.input, "");
            !help && ValueOr(args.headless, false) && name != "" && name in files ==>
              && summary == Some(RegressionSummary(top.behaviour, old(top.trace), files[name]))
              && outcome == Exit(ExitStatus(summary.value.failed))
              && top.trace == old(top.trace) + DriveTrace(files[name])
              && (files[name] == [] ==> unchanged(top))
              && (files[name] != [] ==>
                    && top.rst == 0 && top.validIn == 1 && top.dataIn == files[name][|files[name]| - 1].input
                    && top.clk == 1 && top.dataOut == top.behaviour(top.trace))
  {
    var help := ValueOr(args.h, false) || ValueOr(args.help, false);
    var headless := ValueOr(args.headless, false);

    if help {
      return Exit(0), None;
    }

    if headless {
      var testCaseFilename := ValueOr(args.input, "");
      if testCaseFilename == "" {
        return Abort, None;
      }
      if testCaseFilename !in files {
        return Abort, None;
      }
      var testsRan, testsFailed, failures := RunRegression(top, files[testCaseFilename]);
      if files[testCaseFilename] == [] {
        assert top.trace == old(top.trace);
      }
      summary := Some(Summary(testsRan, testsRan as int - testsFailed as int, testsFailed, failures));
      return Exit(ExitStatus(testsFailed)), summary;
    }
    return Return, None;
  }

  /**
   * `main` up to where the window is created: reset, then the command line.
   * Without a file run, `main` goes on with the ports the reset left.
   */
  method Start(top: Sigmoid, args: Args, files: map<string, seq<TestVector>>)
    returns (outcome: Outcome, summary: Option<Summary>)
    modifies top`clk, top`rst, top`validIn, top`dataIn, top`trace, top`dataOut
    ensures var help := ValueOr(args.h, false) || ValueOr(args.help, false);
            var name := ValueOr(args.input, "");
            var history := old(top.trace) + ResetTrace(old(top.dataIn));
            var runs := !help && ValueOr(args.headless, false) && name != "" && name in files;
            && (help ==> outcome == Exit(0) && summary == None)
            && (!help && !ValueOr(args.headless, false) ==> outcome == Return && summary == None)
            && (!help && ValueOr(args.headless, false) && !runs ==> outcome == Abort && summary == None)
            && (runs ==>
                  && summary == Some(RegressionSummary(top.behaviour, history, files[name]))
                  && outcome == Exit(ExitStatus(summary.value.failed)))
            && top.trace == history + (if runs then DriveTrace(files[name]) else [])
            && (!runs || files[name] == [] ==>
                  && top.rst == 0 && top.validIn == 0 && top.dataIn == old(top.dataIn)
                  && top.clk == 1 && top.dataOut == top.behaviour(top.trace))
            && (runs && files[name] != [] ==>
                  && top.rst == 0 && top.validIn == 1 && top.dataIn == files[name][|files[name]| - 1].input
                  && top.clk == 1 && top.dataOut == top.behaviour(top.trace))
    ensures outcome.Exit? && outcome.status != 0 ==> summary.Some? && summary.value.failed > 0
  {
    ResetSequence(top);
    outcome, summary := ParseCmdlineArgs(top, args, files);
  }

  // ---------------------------------------------------------------------
  // The loop as written: eof() is tested before the pair is read
  // ---------------------------------------------------------------------

  /**
   * The vector file as the loop's `ifstream` sees it: the hex tokens in
   * order, whether whitespace (such as a final newline) follows the last
   * one, the number of tokens read, and the end-of-file flag.
   */
  datatype TokenStream = TokenStream(tokens: seq<bv16>, trailingSpace: bool, pos: nat, eofBit: bool)

  /** A stream just opened: nothing read, `eof()` false even when the file is empty. */
  function Opened(tokens: seq<bv16>, trailingSpace: bool): TokenStream {
    TokenStream(tokens, trailingSpace, 0, false)
  }

  /**
   * One `>> std::hex >> x`. A token that ends at the end of the file sets
   * the end-of-file flag; so does an extraction that finds no token left.
   */
  function ExtractHex(s: TokenStream): (r: TokenStream)
    requires s.pos <= |s.tokens|
    ensures r.tokens == s.tokens && r.trailingSpace == s.trailingSpace && r.pos <= |r.tokens|
    ensures s.pos < |s.tokens| ==> r.pos == s.pos + 1 && (r.eofBit <==> r.pos == |r.tokens| && !r.trailingSpace)
    ensures s.pos == |s.tokens| ==> r.pos == s.pos && r.eofBit
  {
    if s.pos < |s.tokens| then s.(pos := s.pos + 1, eofBit := s.pos + 1 == |s.tokens| && !s.trailingSpace)
    else s.(eofBit := true)
  }

  /** How often the body of `while (!inputFile.eof())` runs, and so the final `testsRan`. */
  function AsWrittenTestsRan(s: TokenStream): (n: nat)
    requires s.pos <= |s.tokens|
    decreases |s.tokens| - s.pos, !s.eofBit
    ensures n == 0 <==> s.eofBit
    ensures n <= (|s.tokens| - s.pos + 1) / 2 + 1
  {
    if s.eofBit then 0 else 1 + AsWrittenTestsRan(ExtractHex(ExtractHex(s)))
  }

  /**
   * From a point between pairs, the loop runs once per remaining pair, and
   * once more when the file ends in whitespace or no pair is left.
   */
  lemma {:induction false} AsWrittenTestsRanFrom(tokens: seq<bv16>, trailingSpace: bool, j: nat)
    requires |tokens| % 2 == 0 && 2 * j <= |tokens|
    decreases |tokens| - 2 * j
    ensures AsWrittenTestsRan(TokenStream(tokens, trailingSpace, 2 * j, false))
         == |tokens| / 2 - j + (if trailingSpace || 2 * j == |tokens| then 1 else 0)
  {
    var s := TokenStream(tokens, trailingSpace, 2 * j, false);
    if 2 * j < |tokens| {
      var r := ExtractHex(ExtractHex(s));
      assert r.pos == 2 * (j + 1);
      if !r.eofBit {
        AsWrittenTestsRanFrom(tokens, trailingSpace, j + 1);
      }
    }
  }

  /**
   * A file of `n` pairs runs `n + 1` tests when it ends in whitespace or is
   * empty: the loop body runs once after the last pair with failed reads.
   */
  lemma AsWrittenTestsRanCount(tokens: seq<bv16>, trailingSpace: bool)
    requires |tokens| % 2 == 0
    ensures AsWrittenTestsRan(Opened(tokens, trailingSpace))
         == |tokens| / 2 + (if trailingSpace || tokens == [] then 1 else 0)
  {
    AsWrittenTestsRanFrom(tokens, trailingSpace, 0);
  }

  /** One vector followed by a newline, as the Python generator writes lines: two tests are counted. */
  lemma AsWrittenOneLine()
    ensures AsWrittenTestsRan(Opened([0x3F80, 0x3F3B], true)) == 2
  {
    AsWrittenTestsRanCount([0x3F80, 0x3F3B], true);
  }
}
