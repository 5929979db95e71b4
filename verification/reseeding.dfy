/** A generator that is seeded anew after a given number of bytes. */
module Reseeding {
  import opened Options
  import opened Lts

  const I64_MAX: int := 0x7FFF_FFFF_FFFF_FFFF
  const U64_MAX: int := 0xFFFF_FFFF_FFFF_FFFF

  newtype i64 = x: int | -I64_MAX - 1 <= x <= I64_MAX

  datatype Request = NextU32 | NextU64 | Fill(len: nat) {
    function Size(): nat {
      match this
      case NextU32 => 4
      case NextU64 => 8
      case Fill(len) => len
    }

    /** No slice is longer than `isize::MAX` bytes. */
    predicate Valid() {
      Size() <= I64_MAX
    }
  }

  /** Everything the wrapper is given: `seed(k)` is the outcome of the k-th attempt to make a
      generator from the reseeder, `next` is what a generator answers and how it goes on. Both
      are arbitrary; a generator may fail too. */
  datatype Source<!G> = Source(seed: nat -> Option<G>, next: (G, Request) -> (G, Option<seq<Byte>>))

  datatype Rng<!G> = Rng(inner: G, attempts: nat, threshold: int, left: int) {
    predicate Valid() {
      1 <= threshold <= I64_MAX && 1 - I64_MAX <= left <= threshold
    }

    /** A reseed on request: a failure leaves generator and counter alone. */
    function Reseed(src: Source<G>): (Rng<G>, bool) {
      var g := src.seed(attempts);
      if g.Some? then (this.(inner := g.value, attempts := attempts + 1, left := threshold), true)
      else (this.(attempts := attempts + 1), false)
    }

    /** A periodic reseed: a failure leaves the generator alone and restarts the counter. */
    function ReseedAtThreshold(src: Source<G>): Rng<G> {
      Reseed(src).0.(left := threshold)
    }

    function BeforeGenerate(src: Source<G>, size: nat): Rng<G> {
      var r := if left <= 0 then ReseedAtThreshold(src) else this;
      r.(left := r.left - size)
    }

    function Generate(src: Source<G>, q: Request): (Rng<G>, Option<seq<Byte>>) {
      var r := BeforeGenerate(src, q.Size());
      var (g, out) := src.next(r.inner, q);
      (r.(inner := g), out)
    }

    /** The copy reseeds on first use. */
    function Clone(): Rng<G> {
      this.(left := 0)
    }
  }

  function Clamp(threshold: nat): int {
    if threshold == 0 || threshold > I64_MAX then I64_MAX else threshold
  }

  function NewRng<G>(src: Source<G>, threshold: nat): (r: Option<Rng<G>>)
    ensures r.Some? ==> r.value.Valid()
  {
    var g := src.seed(0);
    if g.Some? then Some(Rng(g.value, 1, Clamp(threshold), Clamp(threshold))) else None
  }

  /** The object, with a counter of 64 bits. That its arithmetic never overflows is part of what
      is verified. */
  class ReseedingRng<G> {
    const src: Source<G>
    const threshold: i64
    var inner: G
    var attempts: nat
    var bytesUntilReseed: i64

    ghost predicate Valid()
      reads this
    {
      View().Valid()
    }

    ghost function View(): Rng<G>
      reads this
    {
      Rng(inner, attempts, threshold as int, bytesUntilReseed as int)
    }

    constructor Make(src: Source<G>, ghost rng: Rng<G>, inner: G, attempts: nat, threshold: i64, left: i64)
      requires rng.Valid() && rng == Rng(inner, attempts, threshold as int, left as int)
      ensures Valid() && View() == rng && this.src == src
    {
      this.src := src;
      this.inner, this.attempts := inner, attempts;
      this.threshold, this.bytesUntilReseed := threshold, left;
    }

    /** A threshold of 0, or one beyond what the counter can hold, becomes the largest the counter
        can hold. `null` is the error of the reseeder. */
    static method New(threshold: nat, src: Source<G>) returns (r: ReseedingRng?<G>)
      requires threshold <= U64_MAX
      ensures r != null <==> src.seed(0).Some?
      ensures r != null ==> fresh(r) && r.Valid() && Some(r.View()) == NewRng(src, threshold) && r.src == src
    {
      var clamped: i64 := if threshold == 0 || threshold > I64_MAX then I64_MAX as i64 else threshold as i64;
      var g := src.seed(0);
      if g.None? {
        return null;
      }
      r := new ReseedingRng.Make(src, Rng(g.value, 1, clamped as int, clamped as int), g.value, 1, clamped, clamped);
    }

    method Reseed() returns (ok: bool)
      requires Valid()
      modifies this
      ensures Valid() && (View(), ok) == old(View()).Reseed(src)
    {
      var g := src.seed(attempts);
      attempts := attempts + 1;
      if g.None? {
        return false;
      }
      inner := g.value;
      bytesUntilReseed := threshold;
      return true;
    }

    method ReseedAtThreshold()
      requires Valid()
      modifies this
      ensures Valid() && View() == old(View()).ReseedAtThreshold(src)
    {
      var ok := Reseed();
      if !ok {
        bytesUntilReseed := threshold;
      }
    }

    method BeforeGenerate(size: nat)
      requires Valid() && size <= I64_MAX
      modifies this
      ensures Valid() && View() == old(View()).BeforeGenerate(src, size)
    {
      if bytesUntilReseed <= 0 {
        ReseedAtThreshold();
      }
      bytesUntilReseed := bytesUntilReseed - size as i64;
    }

    method Generate(q: Request) returns (out: Option<seq<Byte>>)
      requires Valid() && q.Valid()
      modifies this
      ensures Valid() && (View(), out) == old(View()).Generate(src, q)
    {
      BeforeGenerate(q.Size());
      var (g, o) := src.next(inner, q);
      inner := g;
      out := o;
    }

    method Clone() returns (copy: ReseedingRng<G>)
      requires Valid()
      ensures fresh(copy) && copy.Valid() && copy.View() == View().Clone() && copy.src == src
    {
      copy := new ReseedingRng.Make(src, View().Clone(), inner, attempts, threshold, 0);
    }
  }

  // ---------------------------------------------------------------------------------------
  // Whole runs

  datatype Op = Ask(q: Request) | ManualReseed

  /** A generator that was in use, and the requests it answered. */
  datatype Segment<!G> = Segment(start: G, requests: seq<Request>)

  /** A wrapper and the books kept on it, none of which any step reads: requests and answers in
      order, bytes requested in all and since the counter was last set, how often it was set, how
      often periodically, what a clone owes, and the generators used. */
  datatype Run<!G> = Run(
    src: Source<G>,
    rng: Rng<G>,
    asked: seq<Request>,
    answers: seq<Option<seq<Byte>>>,
    total: nat,
    since: nat,
    owed: nat,
    resets: nat,
    periodic: nat,
    segments: seq<Segment<G>>)

  function SegmentsAfter<G>(run: Run<G>, seeded: Option<G>): seq<Segment<G>> {
    if seeded.Some? then run.segments + [Segment(seeded.value, [])] else run.segments
  }

  /** The books when the counter has just been set. */
  function CounterSet<G>(run: Run<G>, periodically: bool): Run<G> {
    run.(since := 0, owed := 0, resets := run.resets + 1,
         periodic := run.periodic + if periodically then 1 else 0)
  }

  function Answered<G>(segments: seq<Segment<G>>, q: Request): seq<Segment<G>> {
    if segments == [] then [] else
      var last := segments[|segments| - 1];
      segments[..|segments| - 1] + [last.(requests := last.requests + [q])]
  }

  function RunStep<G>(run: Run<G>, op: Op): Option<Run<G>> {
    var seeded := run.src.seed(run.rng.attempts);
    match op
    case ManualReseed =>
      var (rng, ok) := run.rng.Reseed(run.src);
      var books := run.(rng := rng, segments := SegmentsAfter(run, seeded));
      Some(if ok then CounterSet(books, false) else books)
    case Ask(q) =>
      if !q.Valid() then None else
        var books := if run.rng.left <= 0 then
                       CounterSet(run.(segments := SegmentsAfter(run, seeded)), true)
                     else run;
        var (rng, answer) := run.rng.Generate(run.src, q);
        Some(books.(rng := rng, asked := run.asked + [q], answers := run.answers + [answer],
                    total := run.total + q.Size(), since := books.since + q.Size(),
                    segments := Answered(books.segments, q)))
  }

  /** A run starts with a wrapper fresh from `new`, or with a clone taken in any valid state. */
  ghost predicate Starts<G(!new)>(run: Run<G>) {
    && run.rng.Valid()
    && run.asked == [] && run.answers == [] && run.total == run.since == run.resets == run.periodic == 0
    && run.segments == [Segment(run.rng.inner, [])]
    && ((run.owed == 0 && exists threshold :: NewRng(run.src, threshold) == Some(run.rng)) ||
        (run.owed == run.rng.threshold && run.rng.left == 0))
  }

  predicate AtMost(ops: seq<Op>, m: nat) {
    forall i :: 0 <= i < |ops| && ops[i].Ask? ==> ops[i].q.Size() <= m
  }

  ghost predicate CounterInv<G(!new)>(run: Run<G>) {
    && run.rng.Valid()
    && run.rng.left == run.rng.threshold - run.since - run.owed
    && (run.owed == 0 || (run.owed == run.rng.threshold && run.total == 0 && run.since == 0))
  }

  ghost predicate RateInv<G(!new)>(run: Run<G>, m: nat, owed0: nat) {
    && CounterInv(run)
    && run.since <= run.rng.threshold - 1 + m
    && run.periodic * run.rng.threshold + run.since + run.owed <= run.total + owed0
    && run.total <= run.resets * (run.rng.threshold - 1 + m) + run.since
    && run.periodic <= run.resets
  }

  lemma OneMore(k: nat, x: int)
    ensures (k + 1) * x == k * x + x
  {
  }

  lemma StepKeepsRate<G(!new)>(run: Run<G>, op: Op, m: nat, owed0: nat)
    requires RateInv(run, m, owed0) && AtMost([op], m) && RunStep(run, op).Some?
    ensures RateInv(RunStep(run, op).value, m, owed0)
    ensures RunStep(run, op).value.rng.threshold == run.rng.threshold
  {
    OneMore(run.periodic, run.rng.threshold);
    OneMore(run.resets, run.rng.threshold - 1 + m);
    var run' := RunStep(run, op).value;
    var counterSet := run'.resets != run.resets;
    assert [op][0] == op;
    assert run'.resets * (run.rng.threshold - 1 + m) ==
           run.resets * (run.rng.threshold - 1 + m) + if counterSet then run.rng.threshold - 1 + m else 0;
    assert run'.periodic * run.rng.threshold ==
           run.periodic * run.rng.threshold + if run'.periodic == run.periodic then 0 else run.rng.threshold;
    match op
    case ManualReseed =>
    case Ask(q) =>
      assert q.Size() <= m;
  }

  lemma {:induction false} RateInvHolds<G(!new)>(run0: Run<G>, ops: seq<Op>, m: nat)
    requires Starts(run0) && AtMost(ops, m)
    requires Exec(RunStep, run0, ops).Some?
    ensures RateInv(Exec(RunStep, run0, ops).value, m, run0.owed)
    ensures Exec(RunStep, run0, ops).value.rng.threshold == run0.rng.threshold
  {
    if ops != [] {
      RateInvHolds(run0, ops[..|ops| - 1], m);
      StepKeepsRate(Exec(RunStep, run0, ops[..|ops| - 1]).value, ops[|ops| - 1], m, run0.owed);
    }
  }

  /** A request triggers a periodic attempt exactly when the bytes asked for since the counter was
      last set have reached the threshold (or the wrapper is an unused clone), and it starts a new
      generator exactly when that attempt succeeds. */
  lemma ReseedsExactlyWhenDue<G(!new)>(run0: Run<G>, ops: seq<Op>, q: Request)
    requires Starts(run0) && Exec(RunStep, run0, ops + [Ask(q)]).Some?
    ensures Exec(RunStep, run0, ops).Some?
    ensures var run := Exec(RunStep, run0, ops).value;
            var run' := Exec(RunStep, run0, ops + [Ask(q)]).value;
            var due := run.since >= run.rng.threshold || run.owed > 0;
            && run'.periodic == run.periodic + (if due then 1 else 0)
            && run'.resets == run.resets + (if due then 1 else 0)
            && |run'.segments| == |run.segments| + if due && run.src.seed(run.rng.attempts).Some? then 1 else 0
  {
    var all := ops + [Ask(q)];
    assert all[..|ops|] == ops;
    var m: nat := I64_MAX;
    AllValidRequests(run0, ops);
    RateInvHolds(run0, ops, m);
  }

  /** The counter never leaves the range of a 64-bit integer, for any threshold, any requests, any
      failures and any clones; and it stands at the threshold less the bytes asked for since it
      was last set. */
  lemma CounterNeverOverflows<G(!new)>(run0: Run<G>, ops: seq<Op>)
    requires Starts(run0) && Exec(RunStep, run0, ops).Some?
    ensures var run := Exec(RunStep, run0, ops).value;
            && 1 - I64_MAX <= run.rng.left <= run.rng.threshold <= I64_MAX
            && run.rng.threshold == run0.rng.threshold >= 1
            && (run.total > 0 ==> run.rng.left == run.rng.threshold - run.since)
  {
    var m: nat := I64_MAX;
    AllValidRequests(run0, ops);
    RateInvHolds(run0, ops, m);
  }

  lemma {:induction false} AllValidRequests<G(!new)>(run0: Run<G>, ops: seq<Op>)
    requires Exec(RunStep, run0, ops).Some?
    ensures AtMost(ops, I64_MAX)
  {
    if ops != [] {
      hide RunStep, AtMost;
      var front, last := ops[..|ops| - 1], ops[|ops| - 1];
      AllValidRequests(run0, front);
      OnlyValidRequests(Exec(RunStep, run0, front).value, last);
      OneMoreAtMost(front, last, I64_MAX);
      assert ops == front + [last];
    }
  }

  lemma OneMoreAtMost(ops: seq<Op>, op: Op, m: nat)
    requires AtMost(ops, m) && (op.Ask? ==> op.q.Size() <= m)
    ensures AtMost(ops + [op], m)
  {
  }

  lemma OnlyValidRequests<G>(run: Run<G>, op: Op)
    requires RunStep(run, op).Some?
    ensures op.Ask? ==> op.q.Size() <= I64_MAX
  {
  }

  /** How often a run reseeds. With requests of at most `m` bytes, no more than `threshold - 1 + m`
      bytes are asked for between two settings of the counter; each periodic attempt is paid for
      with `threshold` bytes (a clone has its first one free); and conversely the counter is set
      at least once per `threshold - 1 + m` bytes. Manual and failing reseeds may come anywhere. */
  lemma ReseedRate<G(!new)>(run0: Run<G>, ops: seq<Op>, m: nat)
    requires Starts(run0) && AtMost(ops, m) && Exec(RunStep, run0, ops).Some?
    ensures var run := Exec(RunStep, run0, ops).value;
            && run.since <= run.rng.threshold - 1 + m
            && run.periodic * run.rng.threshold <= run.total + (if run0.owed > 0 then run.rng.threshold else 0)
            && run.total <= (run.resets + 1) * (run.rng.threshold - 1 + m)
  {
    RateInvHolds(run0, ops, m);
    var run := Exec(RunStep, run0, ops).value;
    OneMore(run.resets, run.rng.threshold - 1 + m);
  }

  function Sizes(qs: seq<Request>): nat {
    if qs == [] then 0 else Sizes(qs[..|qs| - 1]) + qs[|qs| - 1].Size()
  }

  function Asks(qs: seq<Request>): seq<Op> {
    seq(|qs|, i requires 0 <= i < |qs| => Ask(qs[i]))
  }

  /** A new wrapper and its books. */
  function NewRun<G>(src: Source<G>, rng: Rng<G>): Run<G> {
    Run(src, rng, [], [], 0, 0, 0, 0, 0, [Segment(rng.inner, [])])
  }

  /** When a wrapper reseeds of itself, for every threshold it can be made with. After any requests
      `qs`, the next one makes (or an earlier one has made) a periodic attempt exactly if these have
      reached the threshold given, or `i64::MAX` bytes if that is 0 or more than the counter holds. */
  lemma PeriodicExactlyIf<G(!new)>(src: Source<G>, threshold: nat, qs: seq<Request>, q: Request)
    requires src.seed(0).Some? && q.Valid() && forall i :: 0 <= i < |qs| ==> qs[i].Valid()
    ensures NewRng(src, threshold).Some?
    ensures var run0 := NewRun(src, NewRng(src, threshold).value);
            var run := Exec(RunStep, run0, Asks(qs) + [Ask(q)]);
            && Starts(run0) && run.Some?
            && (run.value.periodic >= 1 <==>
                  Sizes(qs) >= if 1 <= threshold <= 0x7FFF_FFFF_FFFF_FFFF then threshold else 0x7FFF_FFFF_FFFF_FFFF)
  {
    NewStarts(src, threshold);
    hide RunStep, NewRng, Starts, NewRun, Exec, Sizes, Asks;
    AskAllThen(NewRun(src, NewRng(src, threshold).value), qs, q);
  }

  lemma AskAllThen<G(!new)>(run0: Run<G>, qs: seq<Request>, q: Request)
    requires Starts(run0) && run0.owed == 0 && q.Valid() && forall i :: 0 <= i < |qs| ==> qs[i].Valid()
    ensures var run := Exec(RunStep, run0, Asks(qs) + [Ask(q)]);
            run.Some? && (run.value.periodic >= 1 <==> Sizes(qs) >= run0.rng.threshold)
  {
    hide RunStep, CounterInv, Starts, Exec, Request.Valid;
    var all := qs + [q];
    forall i | 0 <= i < |all| ensures all[i].Valid() {
      if i < |qs| {
        assert all[i] == qs[i];
      }
    }
    AskAll(run0, all);
    assert Asks(all) == Asks(qs) + [Ask(q)] && all[..|all| - 1] == qs;
  }

  lemma NewStarts<G(!new)>(src: Source<G>, threshold: nat)
    requires src.seed(0).Some?
    ensures NewRng(src, threshold).Some? && Starts(NewRun(src, NewRng(src, threshold).value))
    ensures NewRun(src, NewRng(src, threshold).value).owed == 0
    ensures NewRun(src, NewRng(src, threshold).value).rng.threshold == if 1 <= threshold <= I64_MAX then threshold else I64_MAX
  {
    assert NewRng(src, threshold) == Some(NewRng(src, threshold).value);
  }

  /** So a threshold of 0, which is documented to mean "never reseed", means: not before `i64::MAX`
      bytes. */
  lemma ThresholdZeroReseeds<G(!new)>(src: Source<G>, qs: seq<Request>, q: Request)
    requires src.seed(0).Some? && q.Valid() && forall i :: 0 <= i < |qs| ==> qs[i].Valid()
    ensures var run := Exec(RunStep, NewRun(src, NewRng(src, 0).value), Asks(qs) + [Ask(q)]);
            run.Some? && (run.value.periodic >= 1 <==> Sizes(qs) >= I64_MAX)
  {
    PeriodicExactlyIf(src, 0, qs, q);
  }

  /** The books after `qs` were asked of a new wrapper. */
  ghost predicate Asked<G(!new)>(run: Run<G>, qs: seq<Request>, threshold: int) {
    && CounterInv(run) && run.owed == 0 && run.rng.threshold == threshold
    && (run.periodic >= 1 <==> qs != [] && Sizes(qs[..|qs| - 1]) >= threshold)
    && (run.periodic == 0 ==> run.since == Sizes(qs))
  }

  lemma {:induction false} AskAll<G(!new)>(run0: Run<G>, qs: seq<Request>)
    requires Starts(run0) && run0.owed == 0
    requires forall i :: 0 <= i < |qs| ==> qs[i].Valid()
    ensures Exec(RunStep, run0, Asks(qs)).Some?
    ensures Asked(Exec(RunStep, run0, Asks(qs)).value, qs, run0.rng.threshold)
  {
    if qs != [] {
      hide RunStep, Asked, Starts, Request.Valid;
      var front, q := qs[..|qs| - 1], qs[|qs| - 1];
      AskAll(run0, front);
      assert Asks(qs)[..|qs| - 1] == Asks(front) && qs == front + [q];
      AskOneMore(Exec(RunStep, run0, Asks(front)).value, front, q, run0.rng.threshold);
    }
  }

  lemma AskOneMore<G(!new)>(run: Run<G>, qs: seq<Request>, q: Request, threshold: int)
    requires Asked(run, qs, threshold) && q.Valid()
    ensures RunStep(run, Ask(q)).Some? && Asked(RunStep(run, Ask(q)).value, qs + [q], threshold)
  {
    hide RunStep, CounterInv;
    AskOne(run, q);
    assert (qs + [q])[..|qs|] == qs;
    assert qs != [] ==> Sizes(qs[..|qs| - 1]) <= Sizes(qs);
  }

  /** A clone, taken in any state, is a run of its own: its first request makes a periodic attempt,
      the next one in turn, and is answered by the new generator, or by the one it was cloned from
      if that attempt fails. */
  lemma CloneReseedsFirst<G(!new)>(src: Source<G>, rng: Rng<G>, q: Request)
    requires rng.Valid() && q.Valid()
    ensures var run0 := NewRun(src, rng.Clone()).(owed := rng.threshold);
            var run := RunStep(run0, Ask(q));
            var seeded := src.seed(rng.attempts);
            && Starts(run0) && run.Some? && run.value.periodic == 1
            && run.value.answers == [src.next(if seeded.Some? then seeded.value else rng.inner, q).1]
            && run.value.rng.left == rng.threshold - q.Size()
  {
  }

  // ---------------------------------------------------------------------------------------
  // Bytes

  /** A generator answers with as many bytes as there are in what was asked for, if it answers. */
  ghost predicate Wellformed<G(!new)>(src: Source<G>) {
    forall g: G, q: Request :: src.next(g, q).1.Some? ==>
      var bytes := |src.next(g, q).1.value|;
      match q
      case NextU32 => 8 * bytes == 32
      case NextU64 => 8 * bytes == 64
      case Fill(len) => bytes == len
  }

  function BytesIn(answers: seq<Option<seq<Byte>>>): nat {
    if answers == [] then 0 else
      var last := answers[|answers| - 1];
      BytesIn(answers[..|answers| - 1]) + if last.Some? then |last.value| else 0
  }

  /** What is counted are the bytes that are answered, and those that a failing generator was asked
      for. */
  lemma {:induction false} BytesAreCounted<G(!new)>(run0: Run<G>, ops: seq<Op>)
    requires Starts(run0) && Wellformed(run0.src) && Exec(RunStep, run0, ops).Some?
    ensures var run := Exec(RunStep, run0, ops).value;
            && run.src == run0.src
            && BytesIn(run.answers) <= run.total
            && ((forall i :: 0 <= i < |run.answers| ==> run.answers[i].Some?) ==> BytesIn(run.answers) == run.total)
  {
    if ops != [] {
      BytesAreCounted(run0, ops[..|ops| - 1]);
      BytesOfStep(Exec(RunStep, run0, ops[..|ops| - 1]).value, ops[|ops| - 1]);
    }
  }

  lemma BytesOfStep<G(!new)>(run: Run<G>, op: Op)
    requires Wellformed(run.src) && RunStep(run, op).Some?
    ensures var run' := RunStep(run, op).value;
            && run'.src == run.src && run.answers <= run'.answers
            && BytesIn(run'.answers) - BytesIn(run.answers) <= run'.total - run.total
            && ((forall i :: 0 <= i < |run'.answers| ==> run'.answers[i].Some?) ==>
                  BytesIn(run'.answers) - BytesIn(run.answers) == run'.total - run.total)
  {
    if op.Ask? {
      var run' := RunStep(run, op).value;
      var g := run.rng.BeforeGenerate(run.src, op.q.Size()).inner;
      assert run'.answers == run.answers + [run.src.next(g, op.q).1];
      assert run'.answers[..|run'.answers| - 1] == run.answers;
    }
  }

  lemma AskOne<G(!new)>(run: Run<G>, q: Request)
    requires CounterInv(run) && run.owed == 0 && q.Valid()
    ensures var run' := RunStep(run, Ask(q));
            && run'.Some? && CounterInv(run'.value) && run'.value.owed == 0
            && run'.value.rng.threshold == run.rng.threshold
            && run'.value.periodic == run.periodic + (if run.since >= run.rng.threshold then 1 else 0)
            && (run.since < run.rng.threshold ==> run'.value.since == run.since + q.Size())
  {
  }

  /** And no sooner: with threshold 0, a run that asked for less than `i64::MAX` bytes in all has
      made no periodic attempt. */
  lemma ThresholdZeroIsQuiet<G(!new)>(run0: Run<G>, ops: seq<Op>)
    requires Starts(run0) && run0.owed == 0 && NewRng(run0.src, 0) == Some(run0.rng)
    requires Exec(RunStep, run0, ops).Some?
    ensures Exec(RunStep, run0, ops).value.total < I64_MAX ==> Exec(RunStep, run0, ops).value.periodic == 0
  {
    hide RunStep;
    AllValidRequests(run0, ops);
    var m: nat := I64_MAX;
    ReseedRate(run0, ops, m);
    var run := Exec(RunStep, run0, ops).value;
    RateInvHolds(run0, ops, m);
    if run.periodic >= 1 {
      OneMore(run.periodic - 1, run.rng.threshold);
      assert (run.periodic - 1) * run.rng.threshold >= 0;
    }
  }

  // ---------------------------------------------------------------------------------------
  // The output

  /** What one generator answers to a list of requests, and where it is then. */
  function Stream<G>(src: Source<G>, g: G, qs: seq<Request>): (G, seq<Option<seq<Byte>>>) {
    if qs == [] then (g, []) else
      var (g', answers) := Stream(src, g, qs[..|qs| - 1]);
      var (g'', answer) := src.next(g', qs[|qs| - 1]);
      (g'', answers + [answer])
  }

  function AllRequests<G>(segments: seq<Segment<G>>): seq<Request> {
    if segments == [] then [] else AllRequests(segments[..|segments| - 1]) + segments[|segments| - 1].requests
  }

  function AllAnswers<G>(src: Source<G>, segments: seq<Segment<G>>): seq<Option<seq<Byte>>> {
    if segments == [] then [] else
      var last := segments[|segments| - 1];
      AllAnswers(src, segments[..|segments| - 1]) + Stream(src, last.start, last.requests).1
  }

  /** The generators that attempts number `from` up to `to` produced, in order. */
  function Seeded<G>(src: Source<G>, from: nat, to: nat): seq<G> {
    if to <= from then [] else
      var g := src.seed(to - 1);
      if g.Some? then Seeded(src, from, to - 1) + [g.value] else Seeded(src, from, to - 1)
  }

  function StartsOf<G>(segments: seq<Segment<G>>): (gs: seq<G>)
    ensures |gs| == |segments|
  {
    seq(|segments|, i requires 0 <= i < |segments| => segments[i].start)
  }

  /** `segments` starts with the generator `first`, goes on with those that attempts `from` up to
      `to` produced, answers `asked` with `answers`, and leaves off with `inner`. */
  ghost predicate Segmented<G(!new)>(src: Source<G>, first: G, from: nat, to: nat, segments: seq<Segment<G>>,
                                     asked: seq<Request>, answers: seq<Option<seq<Byte>>>, inner: G)
  {
    && from <= to && segments != []
    && StartsOf(segments) == [first] + Seeded(src, from, to)
    && AllRequests(segments) == asked
    && AllAnswers(src, segments) == answers
    && inner == Stream(src, segments[|segments| - 1].start, segments[|segments| - 1].requests).0
  }

  ghost predicate Spliced<G(!new)>(run: Run<G>, run0: Run<G>) {
    && run.src == run0.src
    && Segmented(run.src, run0.rng.inner, run0.rng.attempts, run.rng.attempts,
                 run.segments, run.asked, run.answers, run.rng.inner)
  }

  lemma StreamExtends<G(!new)>(src: Source<G>, g: G, qs: seq<Request>, q: Request)
    ensures var (g1, answers) := Stream(src, g, qs);
            Stream(src, g, qs + [q]) == (src.next(g1, q).0, answers + [src.next(g1, q).1])
  {
    assert (qs + [q])[..|qs|] == qs;
  }

  lemma AnswerExtends<G(!new)>(src: Source<G>, first: G, from: nat, to: nat, segments: seq<Segment<G>>,
                               asked: seq<Request>, answers: seq<Option<seq<Byte>>>, inner: G, q: Request)
    requires Segmented(src, first, from, to, segments, asked, answers, inner)
    ensures var (g, answer) := src.next(inner, q);
            Segmented(src, first, from, to, Answered(segments, q), asked + [q], answers + [answer], g)
  {
    var last := segments[|segments| - 1];
    var after := Answered(segments, q);
    assert after[..|after| - 1] == segments[..|segments| - 1];
    assert after[|after| - 1] == Segment(last.start, last.requests + [q]);
    StreamExtends(src, last.start, last.requests, q);
    assert StartsOf(after) == StartsOf(segments);
  }

  lemma SeedingExtends<G(!new)>(src: Source<G>, first: G, from: nat, to: nat, segments: seq<Segment<G>>,
                                asked: seq<Request>, answers: seq<Option<seq<Byte>>>, inner: G)
    requires Segmented(src, first, from, to, segments, asked, answers, inner)
    ensures src.seed(to).None? ==> Segmented(src, first, from, to + 1, segments, asked, answers, inner)
    ensures src.seed(to).Some? ==>
              Segmented(src, first, from, to + 1, segments + [Segment(src.seed(to).value, [])],
                        asked, answers, src.seed(to).value)
  {
    if src.seed(to).Some? {
      var after := segments + [Segment(src.seed(to).value, [])];
      assert after[..|after| - 1] == segments;
      assert StartsOf(after) == StartsOf(segments) + [src.seed(to).value];
    }
  }

  lemma StepKeepsSpliced<G(!new)>(run: Run<G>, run0: Run<G>, op: Op)
    requires Spliced(run, run0) && RunStep(run, op).Some?
    ensures Spliced(RunStep(run, op).value, run0)
  {
    hide Segmented;
    var first, from, to := run0.rng.inner, run0.rng.attempts, run.rng.attempts;
    SeedingExtends(run.src, first, from, to, run.segments, run.asked, run.answers, run.rng.inner);
    if op.Ask? {
      if run.rng.left <= 0 {
        var g := run.rng.ReseedAtThreshold(run.src).inner;
        AnswerExtends(run.src, first, from, to + 1, SegmentsAfter(run, run.src.seed(to)), run.asked, run.answers, g, op.q);
      } else {
        AnswerExtends(run.src, first, from, to, run.segments, run.asked, run.answers, run.rng.inner, op.q);
      }
    }
  }

  /** The output of any run is a splice: a sequence of generators, namely the one it started with
      and then those that the successful reseeds produced, in their order; each answered some of
      the requests, all of which together are the requests in order; and the answers given are
      the answers those generators give. So each request is answered from one seed, and a failed
      reseed continues the stream there was without loss or repetition. */
  lemma {:induction false} OutputIsSpliced<G(!new)>(run0: Run<G>, ops: seq<Op>)
    requires Starts(run0) && Exec(RunStep, run0, ops).Some?
    ensures Spliced(Exec(RunStep, run0, ops).value, run0)
  {
    if ops == [] {
      assert run0.segments[..0] == [];
      assert StartsOf(run0.segments) == [run0.rng.inner];
    } else {
      OutputIsSpliced(run0, ops[..|ops| - 1]);
      StepKeepsSpliced(Exec(RunStep, run0, ops[..|ops| - 1]).value, run0, ops[|ops| - 1]);
    }
  }

  /** For a wrapper just made: the generators are those of all the successful attempts from the
      very first on. */
  lemma NewIsSplicedFromSeeds<G(!new)>(src: Source<G>, threshold: nat, ops: seq<Op>)
    requires src.seed(0).Some? && Exec(RunStep, NewRun(src, NewRng(src, threshold).value), ops).Some?
    ensures var run := Exec(RunStep, NewRun(src, NewRng(src, threshold).value), ops).value;
            StartsOf(run.segments) == Seeded(src, 0, run.rng.attempts)
  {
    var run0 := NewRun(src, NewRng(src, threshold).value);
    NewStarts(src, threshold);
    OutputIsSpliced(run0, ops);
    SeededFromFirst(src, Exec(RunStep, run0, ops).value.rng.attempts);
  }

  lemma {:induction false} SeededFromFirst<G>(src: Source<G>, to: nat)
    requires to >= 1 && src.seed(0).Some?
    ensures Seeded(src, 0, to) == [src.seed(0).value] + Seeded(src, 1, to)
  {
    if to > 1 {
      SeededFromFirst(src, to - 1);
    }
  }
}
